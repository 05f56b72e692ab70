/** Stepping through a string by code points (`utf8_step` in `lua/tui_lua.c`).  A string is a sequence of
    bytes, each given as the character with that code. */
module Utf8Step {

  /** A byte that continues a UTF-8 sequence: the top two bits are 10. */
  predicate Continues(c: char) {
    0x80 <= c as int < 0xC0
  }

  /** How much of a string C code sees: everything in front of the first NUL byte. */
  function CString(s: string): (r: string)
    ensures r <= s && '\0' !in r && (r != s ==> s[|r|] == '\0')
  {
    if s == "" || s[0] == '\0' then "" else [s[0]] + CString(s[1..])
  }

  /** The byte at `i`; the terminator is found right behind the last one. */
  function ByteAt(msg: string, i: int): char {
    if 0 <= i < |msg| then msg[i] else '\0'
  }

  /** The last start of a sequence at or before `i`, or -1. */
  function Align(msg: string, i: int): (r: int)
    requires i <= |msg|
    ensures r <= i || r == -1
    ensures -1 <= r && (r >= 0 ==> !Continues(ByteAt(msg, r)))
    ensures forall j :: 0 <= j <= i && r < j ==> Continues(ByteAt(msg, j))
    decreases i + 1
  {
    if i < 0 then -1 else if Continues(ByteAt(msg, i)) then Align(msg, i - 1) else i
  }

  /** The first start of a sequence behind `i`, or the end of the string. */
  function NextStart(msg: string, i: nat): (r: nat)
    requires i <= |msg|
    ensures i <= r <= |msg| && !Continues(ByteAt(msg, r))
    ensures forall j :: i <= j < r ==> Continues(msg[j])
    decreases |msg| - i
  {
    if i < |msg| && Continues(msg[i]) then NextStart(msg, i + 1) else i
  }

  /** `n` sequences on from `i`, or -1 when the string is too short. */
  function Forward(msg: string, i: nat, n: nat): (r: int)
    requires i <= |msg|
    ensures -1 <= r <= |msg| && (r >= 0 ==> i <= r)
    decreases n
  {
    if n == 0 then i
    else if i == |msg| then -1
    else Forward(msg, NextStart(msg, i + 1), n - 1)
  }

  /** The answer of `utf8_step`, in the 1-based positions of Lua. */
  function StepBy(msg: string, step: int, pos: int): int {
    var ofs := pos - 1;
    if msg == "" || ofs > |msg| || ofs < 0 then -1
    else
      var a := Align(msg, ofs);
      if a < 0 || step < 0 then -1
      else
        var r := Forward(msg, a, step);
        if r < 0 then -1 else r + 1
  }

  /** The inner loop of `utf8_step`: moves on in the direction of `sign` and over what continues a
      sequence. */
  method MoveOne(msg: string, at: nat, sign: int) returns (ofs: int)
    requires at < |msg| && (sign == 1 || sign == -1)
    ensures sign > 0 ==> ofs == NextStart(msg, at + 1)
    ensures sign < 0 ==> -1 <= ofs < at
  {
    ofs := at + sign;
    while Continues(ByteAt(msg, ofs)) && ofs < |msg| && ofs >= 0
      invariant -1 <= ofs <= |msg|
      invariant sign > 0 ==> at < ofs && NextStart(msg, ofs) == NextStart(msg, at + 1)
      invariant sign < 0 ==> ofs < at
      decreases if sign < 0 then ofs + 1 else |msg| - ofs
    {
      ofs := ofs + sign;
    }
  }

  /** `utf8_step`.  The remaining count moves away from zero when stepping backwards, so a negative step
      runs to the front of the string and fails. */
  method SearchStep(msg: string, step: int, pos: int) returns (r: int)
    ensures r == StepBy(msg, step, pos)
  {
    hide NextStart;
    var ofs, len := pos - 1, |msg|;
    if len == 0 || ofs > len || ofs < 0 {
      return -1;
    }
    while Continues(ByteAt(msg, ofs))
      invariant 0 <= ofs <= len && Align(msg, ofs) == Align(msg, pos - 1)
      decreases ofs
    {
      ofs := ofs - 1;
      if ofs < 0 {
        return -1;
      }
    }
    var sign := (if step > 0 then 1 else 0) - (if step < 0 then 1 else 0);
    var ns := sign * step;
    assert ns == if step < 0 then -step else step;
    ghost var a := ofs;
    while ofs >= 0 && ofs < len && ns != 0
      invariant -1 <= ofs <= len && ns >= 0
      invariant step >= 0 ==> ofs >= 0 && Forward(msg, ofs, ns) == Forward(msg, a, step)
      invariant step < 0 ==> ns > 0 && (ofs == len ==> ofs == a)
      decreases if step < 0 then ofs + 1 else ns
    {
      ofs := MoveOne(msg, ofs, sign);
      ns := ns - sign;
    }
    if ns != 0 {
      return -1;
    }
    return ofs + 1;
  }

  /** Steps add up: going `m` and then `n` is going `m + n`, and one fails exactly when the other does. */
  lemma {:induction false} ForwardAdds(msg: string, i: nat, m: nat, n: nat)
    requires i <= |msg|
    ensures Forward(msg, i, m + n)
            == if Forward(msg, i, m) < 0 then -1 else Forward(msg, Forward(msg, i, m), n)
    decreases m
  {
    hide NextStart;
    if m > 0 && i < |msg| {
      var j := NextStart(msg, i + 1);
      ForwardAdds(msg, j, m - 1, n);
      assert Forward(msg, i, m + n) == Forward(msg, j, (m - 1) + n);
    }
  }

  lemma {:induction false} ForwardAligned(msg: string, i: nat, n: nat)
    requires i <= |msg| && !Continues(ByteAt(msg, i)) && Forward(msg, i, n) >= 0
    ensures !Continues(ByteAt(msg, Forward(msg, i, n)))
    decreases n
  {
    if n > 0 {
      ForwardAligned(msg, NextStart(msg, i + 1), n - 1);
    }
  }

  lemma StepAdds(msg: string, m: nat, n: nat, pos: int)
    requires StepBy(msg, m, pos) > 0
    ensures StepBy(msg, n, StepBy(msg, m, pos)) == StepBy(msg, m + n, pos)
  {
    var a := Align(msg, pos - 1);
    ForwardAdds(msg, a, m, n);
    ForwardAligned(msg, a, m);
  }

  /** A negative step never succeeds. */
  lemma BackwardFails(msg: string, step: int, pos: int)
    requires step < 0
    ensures StepBy(msg, step, pos) == -1
  {
  }

  /** The positions where sequences start, in order. */
  function Starts(msg: string, i: nat): (r: seq<nat>)
    requires i <= |msg|
    decreases |msg| - i
  {
    if i == |msg| then [] else [i] + Starts(msg, NextStart(msg, i + 1))
  }

  lemma {:induction false} StartsAreStarts(msg: string, i: nat, j: nat)
    requires i <= j < |msg| && !Continues(ByteAt(msg, i))
    ensures j in Starts(msg, i) <==> !Continues(msg[j])
    decreases |msg| - i
  {
    var n := NextStart(msg, i + 1);
    StartsAbove(msg, n);
    hide NextStart;
    assert j in Starts(msg, i) <==> j == i || j in Starts(msg, n);
    if j >= n {
      StartsAreStarts(msg, n, j);
    }
  }

  lemma {:induction false} StartsAbove(msg: string, i: nat)
    requires i <= |msg|
    ensures forall j :: j in Starts(msg, i) ==> i <= j
    decreases |msg| - i
  {
    if i < |msg| {
      StartsAbove(msg, NextStart(msg, i + 1));
    }
  }

  /** Steps of one from the front visit exactly the bytes that do not continue a sequence, in order, then
      the position behind the last byte, and fail from there on. */
  lemma {:induction false} StepsVisitStarts(msg: string, i: nat, k: nat)
    requires i <= |msg|
    ensures var starts := Starts(msg, i) + [|msg|];
            Forward(msg, i, k) == if k < |starts| then starts[k] else -1
    decreases k
  {
    if k > 0 && i < |msg| {
      StepsVisitStarts(msg, NextStart(msg, i + 1), k - 1);
      assert Starts(msg, i) + [|msg|] == [i] + (Starts(msg, NextStart(msg, i + 1)) + [|msg|]);
    }
  }

  // ------------------------------------------------------------------ chunks

  /** The chunks a loop of single steps cuts a string into: each start with what continues it. */
  function Chunks(msg: string): seq<string>
    decreases |msg|
  {
    if msg == "" then []
    else
      var n := NextStart(msg, 1);
      [msg[..n]] + Chunks(msg[n..])
  }

  function Flatten(chunks: seq<string>): string {
    if chunks == [] then "" else chunks[0] + Flatten(chunks[1..])
  }

  /** The chunks put together are the whole string. */
  lemma {:induction false} ChunksCover(msg: string)
    ensures Flatten(Chunks(msg)) == msg
    decreases |msg|
  {
    if msg != "" {
      ChunksCover(msg[NextStart(msg, 1)..]);
    }
  }

  lemma {:induction false} NextStartAppend(a: string, b: string, i: nat)
    requires i <= |a| && (b == "" || !Continues(b[0]))
    ensures NextStart(a + b, i) == NextStart(a, i)
    decreases |a| - i
  {
    if i < |a| && Continues(a[i]) {
      NextStartAppend(a, b, i + 1);
    }
  }

  /** Cutting at a start cuts the chunks apart. */
  lemma {:induction false} ChunksAppend(a: string, b: string)
    requires b == "" || !Continues(b[0])
    ensures Chunks(a + b) == Chunks(a) + Chunks(b)
    decreases |a|
  {
    if a == "" {
      assert a + b == b;
    } else {
      var n := NextStart(a, 1);
      NextStartAppend(a, b, 1);
      assert (a + b)[..n] == a[..n] && (a + b)[n..] == a[n..] + b;
      ChunksAppend(a[n..], b);
    }
  }

  /** A start with what continues it is one chunk. */
  lemma SingleChunk(head: string)
    requires head != "" && forall i :: 1 <= i < |head| ==> Continues(head[i])
    ensures Chunks(head) == [head]
  {
    assert NextStart(head, 1) == |head|;
    assert head[..|head|] == head && head[|head|..] == "";
  }

  /** Every chunk is non-empty, and its first byte is the only one that does not continue a sequence. */
  lemma {:induction false} ChunkShape(msg: string, k: nat)
    requires k < |Chunks(msg)| && (msg == "" || !Continues(msg[0]))
    ensures var c := Chunks(msg)[k];
            c != "" && !Continues(c[0]) && forall j :: 1 <= j < |c| ==> Continues(c[j])
    decreases |msg|
  {
    var n := NextStart(msg, 1);
    if k > 0 {
      ChunkShape(msg[n..], k - 1);
    }
  }
}
