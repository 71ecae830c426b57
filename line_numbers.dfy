/**
 * Recovery of a 1-based line number from a diagnostic's offset. The analyser prepends a version
 * pragma to the source, so offsets are shifted by that preamble's length.
 */
module LineNumbers {
  import opened Scanning
  import opened Fixture

  /** The text the analyser puts before the fixture's source (23 characters). */
  const Preamble: string := "pragma solidity >=0.0;\n"

  /** The values of a C++ `int`. */
  type Int32 = x: int | -0x8000_0000 <= x < 0x8000_0000

  /** The `int` a value becomes when it is converted back to a 32-bit `int` (modulo 2^32). */
  function WrapInt32(x: int): (r: Int32)
    ensures (r - x) % 0x1_0000_0000 == 0
    ensures -0x8000_0000 <= x < 0x8000_0000 ==> r == x
  {
    (x + 0x8000_0000) % 0x1_0000_0000 - 0x8000_0000
  }

  /**
   * The offset into the fixture's source that a diagnostic's location denotes. A location in
   * the lowest 23 `int` values wraps around to one of the 23 highest.
   */
  function Adjusted(location: Int32): (r: Int32)
    ensures location < -0x8000_0000 + |Preamble| ==>
      r == location - |Preamble| + 0x1_0000_0000 && r >= 0x8000_0000 - |Preamble|
  {
    WrapInt32(location - |Preamble|)
  }

  /**
   * getLineNumber: -1 when the adjusted offset is negative or not inside the source (an offset
   * equal to the source's length included), otherwise 1 plus the newlines before the offset.
   */
  function LineOf(source: string, location: Int32): (line: int)
    ensures line == -1 || 1 <= line <= 1 + CountNewlines(source)
    ensures line == -1 <==> Adjusted(location) < 0 || Adjusted(location) >= |source|
  {
    var offset := Adjusted(location);
    if offset < 0 || offset >= |source| then -1
    else
      CountNewlinesPrefix(source, offset);
      1 + CountNewlines(source[..offset])
  }

  /** Locations far enough from the bottom of the `int` range are simply shifted by 23. */
  lemma AdjustedShifts(location: Int32)
    requires location >= -0x8000_0000 + 23
    ensures |Preamble| == 23 && Adjusted(location) == location - 23
  {
  }

  /**
   * For a source built from lines, any offset on the k-th line (0-based), including the newline
   * that ends it, maps back to line number k + 1.
   */
  lemma LineOfJoined(ls: seq<string>, k: nat, column: nat)
    requires NoNewline(ls) && k < |ls| && column <= |ls[k]|
    requires |Preamble| + |Joined(ls[..k])| + column < 0x8000_0000
    ensures LineOf(Joined(ls), |Preamble| + |Joined(ls[..k])| + column) == k + 1
  {
    var before, line := ls[..k], ls[k];
    var offset := |Joined(before)| + column;
    assert Adjusted(|Preamble| + offset) == offset;
    JoinedAt(ls, k);
    assert offset < |Joined(ls)|;
    assert Joined(ls)[..offset] == Joined(before) + line[..column] by {
      JoinedAt(ls, k);
    }
    assert CountNewlines(Joined(before)) == k by {
      assert NoNewline(before);
      JoinedNewlines(before);
    }
    assert CountNewlines(line[..column]) == 0 by {
      assert forall c :: c in line[..column] ==> c in line;
      CountNewlinesZero(line[..column]);
    }
    CountNewlinesAppend(Joined(before), line[..column]);
  }
}
