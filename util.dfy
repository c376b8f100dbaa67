/** lib/util.go: `itob` and `trimPoints`. The copies of `trimPoints` in
    lib/vpd.go and of `itob` in lib/sg.go are the same code; the model has
    one definition of each. */
module Util {
  import opened Base

  /** `itob`: an integer flag read as a boolean. */
  function Itob(i: int): (b: bool)
    ensures b <==> i != 0
  {
    if i == 0 then false else true
  }

  /** The two byte values `trimPoints` removes from the ends: 0x00 and 0x20. */
  predicate IsPad(b: byte)
  {
    b == 0x00 || b == 0x20
  }

  predicate AllPad(s: seq<byte>)
  {
    forall i :: 0 <= i < |s| ==> IsPad(s[i])
  }

  /** The index of the first byte that is not padding (|line| if none is). */
  function FirstKept(line: seq<byte>): (k: nat)
    ensures k <= |line|
    ensures AllPad(line[..k])
    ensures k < |line| ==> !IsPad(line[k])
    decreases |line|
  {
    if |line| == 0 || !IsPad(line[0]) then 0
    else
      var k := 1 + FirstKept(line[1..]);
      assert forall i :: 1 <= i < k ==> line[..k][i] == line[1..][..k - 1][i - 1];
      k
  }

  /** One past the last byte that is not padding (0 if none is). */
  function EndKept(line: seq<byte>): (k: nat)
    ensures k <= |line|
    ensures AllPad(line[k..])
    ensures k > 0 ==> !IsPad(line[k - 1])
    decreases |line|
  {
    if |line| == 0 || !IsPad(line[|line| - 1]) then |line|
    else
      var k := EndKept(line[..|line| - 1]);
      assert forall i :: k <= i < |line| - 1 ==> line[i] == line[..|line| - 1][i];
      k
  }

  /** The left trim point `trimPoints` computes: the first kept byte, or the
      zero value of `start` when every byte is padding. */
  function TrimStart(line: seq<byte>): nat
  {
    if AllPad(line) then 0 else FirstKept(line)
  }

  /** The right trim point `trimPoints` computes. */
  function TrimStop(line: seq<byte>): nat
  {
    EndKept(line)
  }

  /** The first kept byte is determined by the padding before it. */
  lemma {:induction false} FirstKeptAt(line: seq<byte>, i: nat)
    requires i < |line| && AllPad(line[..i]) && !IsPad(line[i])
    ensures FirstKept(line) == i
    decreases i
  {
    if i > 0 {
      assert IsPad(line[..i][0]);
      assert line[1..][..i - 1] == line[1..i];
      assert forall j :: 0 <= j < i - 1 ==> line[1..i][j] == line[..i][j + 1];
      FirstKeptAt(line[1..], i - 1);
    }
  }

  /** The end of the kept bytes is determined by the padding after them. */
  lemma {:induction false} EndKeptAt(line: seq<byte>, k: nat)
    requires 0 < k <= |line| && AllPad(line[k..]) && !IsPad(line[k - 1])
    ensures EndKept(line) == k
    decreases |line| - k
  {
    if k < |line| {
      assert IsPad(line[k..][|line| - 1 - k]);
      var shorter := line[..|line| - 1];
      assert forall j :: 0 <= j < |shorter| - k ==> shorter[k..][j] == line[k..][j];
      EndKeptAt(shorter, k);
    }
  }

  lemma AllPadEnds(line: seq<byte>)
    requires AllPad(line)
    ensures EndKept(line) == 0
  {
  }

  /** Trim points are in range and frame a non-padding first and last byte
      unless every byte is padding, in which case both are zero. */
  lemma TrimPointsFacts(line: seq<byte>)
    ensures TrimStart(line) <= TrimStop(line) <= |line|
    ensures AllPad(line) ==> TrimStart(line) == 0 && TrimStop(line) == 0
    ensures !AllPad(line) ==>
      TrimStart(line) < TrimStop(line)
      && !IsPad(line[TrimStart(line)]) && !IsPad(line[TrimStop(line) - 1])
      && AllPad(line[..TrimStart(line)]) && AllPad(line[TrimStop(line)..])
  {
    if AllPad(line) {
      AllPadEnds(line);
    }
  }

  /** Trimming an already trimmed slice removes nothing. */
  lemma TrimIdempotent(line: seq<byte>)
    ensures TrimStart(line) <= TrimStop(line) <= |line|
    ensures TrimStart(line[TrimStart(line)..TrimStop(line)]) == 0
    ensures TrimStop(line[TrimStart(line)..TrimStop(line)]) == TrimStop(line) - TrimStart(line)
  {
    TrimPointsFacts(line);
    var s, t := TrimStart(line), TrimStop(line);
    var mid := line[s..t];
    if AllPad(line) {
      assert mid == [];
    } else {
      assert mid[0] == line[s] && mid[|mid| - 1] == line[t - 1];
      assert !AllPad(mid);
      FirstKeptAt(mid, 0);
      EndKeptAt(mid, |mid|);
    }
  }

  /** The trim points cut `line` into padding, the kept bytes with every
      interior 0x00 and 0x20 left in place, and padding. */
  lemma TrimKeepsInterior(line: seq<byte>)
    ensures TrimStart(line) <= TrimStop(line) <= |line|
    ensures line == line[..TrimStart(line)] + line[TrimStart(line)..TrimStop(line)] + line[TrimStop(line)..]
    ensures AllPad(line[..TrimStart(line)]) && AllPad(line[TrimStop(line)..])
  {
    TrimPointsFacts(line);
    assert line == line[..TrimStart(line)] + line[TrimStart(line)..TrimStop(line)] + line[TrimStop(line)..];
  }

  /** `trimPoints`: scan from the left for the first byte that is neither
      0x00 nor 0x20, then from the right for the last one. */
  method TrimPoints(line: seq<byte>) returns (start: nat, stop: nat)
    ensures start == TrimStart(line) && stop == TrimStop(line)
    ensures start <= stop <= |line|
    ensures AllPad(line) ==> start == 0 && stop == 0
    ensures !AllPad(line) ==>
      !IsPad(line[start]) && !IsPad(line[stop - 1]) && AllPad(line[..start]) && AllPad(line[stop..])
  {
    start, stop := 0, 0;

    var i := 0;
    while i < |line|
      invariant 0 <= i <= |line|
      invariant AllPad(line[..i])
      invariant start == 0
    {
      if line[i] == 0x20 || line[i] == 0x00 {
        assert line[..i + 1] == line[..i] + [line[i]];
        i := i + 1;
        continue;
      } else {
        start := i;
        FirstKeptAt(line, i);
        break;
      }
    }
    if start == 0 && i == |line| {
      assert line[..i] == line;
    } else if start == 0 {
      FirstKeptAt(line, 0);
    }

    var j := |line| - 1;
    while j >= 0
      invariant -1 <= j < |line|
      invariant AllPad(line[j + 1..])
      invariant stop == 0
    {
      if line[j] == 0x20 || line[j] == 0x00 {
        assert line[j..] == [line[j]] + line[j + 1..];
        j := j - 1;
        continue;
      } else {
        stop := j + 1;
        EndKeptAt(line, j + 1);
        break;
      }
    }
    if stop == 0 && j < 0 {
      assert line[0..] == line;
      AllPadEnds(line);
    }
    TrimPointsFacts(line);
  }
}
