/** The inbound half of a stream object (`lua/nbio.c`): the fixed line buffer, the scan for the next
    line, the slide that moves what is left to the front, and the four delivery modes. */
module LineInput {
  import opened Common
  import opened LineSplit
  import opened ReadRuns

  /** "No cap": the count a table read starts from when `read_cap` is absent or zero. */
  const SIZE_MAX: nat := 0xFFFF_FFFF_FFFF_FFFF

  class StreamInput {
    const buf: array<byte>
    var ofs: nat
    var lfch: byte
    var lfstrip: bool

    ghost predicate Valid()
      reads this
    {
      buf.Length == BUFFER_SIZE && ofs <= BUFFER_SIZE
    }

    /** The bytes waiting in the buffer. */
    ghost function Pending(): seq<byte>
      requires Valid()
      reads this, buf
    {
      buf[..ofs]
    }

    function Options(): Settings
      reads this
    {
      Settings(lfch, lfstrip)
    }

    constructor ()
      ensures Valid() && Pending() == [] && fresh(buf)
      ensures Options() == Settings(10, false)
    {
      buf := new byte[BUFFER_SIZE](_ => 0);
      ofs, lfch, lfstrip := 0, 10, false;
    }

    method LfStrip(strip: bool, lf: Option<byte>)
      modifies this`lfstrip, this`lfch
      ensures lfstrip == strip && lfch == if lf.Some? then lf.value else old(lfch)
    {
      lfstrip := strip;
      if lf.Some? {
        lfch := lf.value;
      }
    }

    /** Looks for the next line from `start` on.  The returned slice is `buf[at..at + nb]`, and `step`
        is how far to advance.  A slice that is not ended by a line character is taken from the front
        of the buffer, so it is the right one exactly when `start` is zero. */
    method Nextline(start: nat, eof: bool) returns (found: bool, at: nat, nb: nat, step: nat, gotline: bool)
      requires Valid()
      modifies this`ofs
      ensures start <= old(ofs) ==> ofs == old(ofs)
      ensures Valid() && (start <= ofs ==> found && !gotline ==> (at == start <==> start == 0))
      ensures !found ==> step == 0
      ensures start <= ofs ==>
                var n := ThroughLf(buf[start..ofs], lfch);
                && (found <==> ofs != 0 && (n > 0 || eof || (start == 0 && ofs == BUFFER_SIZE)))
                && (found ==> (gotline <==> n > 0))
                && (found && gotline ==> at == start && step == n && nb == if lfstrip then n - 1 else n)
                && (found && !gotline ==> at == 0 && nb == step == ofs - start)
    {
      found, at, nb, step, gotline := false, 0, 0, 0, false;
      if ofs == 0 {
        return;
      }
      var i := start;
      while i < ofs
        invariant start <= i && (start <= ofs ==> i <= ofs) && ofs == old(ofs)
        invariant forall k :: start <= k < i && k < ofs ==> buf[k] != lfch
      {
        if buf[i] == lfch {
          var s := buf[start..ofs];
          ThroughLfUnique(s, lfch, i - start + 1);
          return true, start, if lfstrip then i - start else i - start + 1, i - start + 1, true;
        }
        i := i + 1;
      }
      if start <= ofs {
        assert forall k :: 0 <= k < |buf[start..ofs]| ==> buf[start..ofs][k] == buf[start + k];
        ThroughLfMeaning(buf[start..ofs], lfch);
      }
      if eof || (start == 0 && ofs == BUFFER_SIZE) {
        if ofs < start {
          nb, step, ofs := 0, 0, 0;
        } else {
          nb, step := ofs - start, ofs - start;
        }
        return true, 0, nb, step, false;
      }
    }

    /** The `read` system call that opens every call: it appends what the kernel hands over.  `early`
        is the immediate "nothing yet" return. */
    method Fill(r: ReadResult) returns (eof: bool, early: bool)
      requires Valid() && Fits(Pending(), r)
      modifies this`ofs, buf
      ensures Valid() && Pending() == old(Pending()) + r.Bytes()
      ensures eof == r.Ends()
      ensures early <==> r.WouldBlock? && old(Pending()) == []
    {
      eof, early := false, false;
      match r {
        case Eof => eof := true;
        case WouldBlock => early := ofs == 0;
        case Failed => eof := true;
        case Data(chunk) =>
          ghost var before := Pending();
          forall i | 0 <= i < |chunk| {
            buf[ofs + i] := chunk[i];
          }
          ofs := ofs + |chunk|;
          assert buf[..ofs] == before + chunk;
      }
      assert old(Pending()) + [] == old(Pending());
    }

    /** Moves what lies behind the first `ci` bytes to the front. */
    method Slide(ci: nat)
      requires Valid() && ci <= ofs
      modifies this`ofs, buf
      ensures Valid() && Pending() == old(Pending())[ci..]
    {
      ghost var before := Pending();
      forall i | 0 <= i < ofs - ci {
        buf[i] := buf[ci + i];
      }
      ofs := ofs - ci;
      assert buf[..ofs] == before[ci..];
    }

    /** `read(true)`: hands over everything that is buffered. */
    method ReadRaw(r: ReadResult) returns (data: Option<seq<byte>>, alive: bool)
      requires Valid() && Fits(Pending(), r)
      modifies this`ofs, buf
      ensures Valid()
      ensures var out := CallOutcome(old(Pending()) + r.Bytes(), r.Ends(), Raw, old(Options()));
              && data == (if out.lines == [] then None else Some(out.lines[0]))
              && Pending() == out.rest && alive == out.alive
    {
      var eof, early := Fill(r);
      if early {
        return None, true;
      }
      data := if ofs != 0 then Some(buf[..ofs]) else None;
      alive := !eof || ofs != 0;
      ofs := 0;
    }

    /** `Nextline` together with the copy of its slice. */
    method CopyLine(ci: nat, eof: bool) returns (found: bool, line: seq<byte>, step: nat, gotline: bool)
      requires Valid() && ci <= ofs
      modifies this`ofs
      ensures ofs == old(ofs)
      ensures (if found then Got(line, step, gotline) else Nothing) == Scan(Pending(), Options(), ci, eof)
    {
      hide ThroughLf;
      var at, nb;
      found, at, nb, step, gotline := Nextline(ci, eof);
      SliceOfPrefix(buf[..], ofs, ci, ofs);
      line := [];
      if found {
        SliceOfPrefix(buf[..], ofs, at, at + nb);
        line := buf[at..at + nb];
      }
    }

    /** `read()`: one line per call. */
    method ReadLine(r: ReadResult) returns (line: Option<seq<byte>>, alive: bool)
      requires Valid() && Fits(Pending(), r)
      modifies this`ofs, buf
      ensures Valid()
      ensures var out := CallOutcome(old(Pending()) + r.Bytes(), r.Ends(), Line, old(Options()));
              && line == (if out.lines == [] then None else Some(out.lines[0]))
              && Pending() == out.rest && alive == out.alive
    {
      var eof, early := Fill(r);
      if early {
        return None, true;
      }
      ScanFirst(Pending(), Options(), eof);
      var found, text, step, _ := CopyLine(0, eof);
      line := None;
      if found {
        line := Some(text);
        Slide(step);
      }
      alive := !eof;
    }

    /** The loop of a table read, after the system call. */
    method AppendLines(eof: bool, dst: seq<seq<byte>>, cap: nat) returns (res: seq<seq<byte>>)
      requires Valid() && cap <= SIZE_MAX
      modifies this`ofs, buf
      ensures Valid()
      ensures var loop := TableLoop(old(Pending()), old(Options()), eof, 0, if cap == 0 then SIZE_MAX else cap);
              res == dst + loop.0 && Pending() == old(Pending())[loop.1..]
    {
      hide TableLoop;
      ghost var b, o := Pending(), Options();
      var ci: nat, count: nat := 0, if cap == 0 then SIZE_MAX else cap;
      ghost var all := TableLoop(b, o, eof, 0, count);
      ghost var left := all;
      res := dst;
      while count != 0
        invariant Valid() && Pending() == b && Options() == o && ci <= ofs
        invariant left == TableLoop(b, o, eof, ci, count)
        invariant res + left.0 == dst + all.0 && left.1 == all.1
        decreases ofs - ci
      {
        TableLoopRound(b, o, eof, ci, count);
        var found, line, step, _ := CopyLine(ci, eof);
        if !found || (eof && line == [] && step == 0) {
          break;
        }
        left := TableLoop(b, o, eof, ci + step, count - 1);
        AppendMove(res, line, left.0);
        res := res + [line];
        count := count - 1;
        ci := ci + step;
      }
      TableLoopRound(b, o, eof, ci, count);
      assert res + [] == res;
      Slide(ci);
    }

    /** `read(table)`: appends up to `cap` lines to `dst`. */
    method ReadTable(r: ReadResult, dst: seq<seq<byte>>, cap: nat) returns (res: seq<seq<byte>>, alive: bool)
      requires Valid() && Fits(Pending(), r) && cap <= SIZE_MAX
      modifies this`ofs, buf
      ensures Valid()
      ensures var out := CallOutcome(old(Pending()) + r.Bytes(), r.Ends(), Table(cap), old(Options()));
              res == dst + out.lines && Pending() == out.rest && alive == out.alive
    {
      var eof, early := Fill(r);
      TableLoopIsOutcome(Pending(), Options(), eof, cap);
      hide TableLoop, TableOutcome;
      if early {
        TableLoopRound(Pending(), Options(), eof, 0, if cap == 0 then SIZE_MAX else cap);
        assert dst + [] == dst;
        return dst, true;
      }
      res := AppendLines(eof, dst, cap);
      alive := !eof;
    }

    /** The loop of a callback read, after the system call.  `ended` is false when the known answers
        ran out with the loop still going. */
    method FeedLines(eof: bool, cancels: seq<bool>) returns (calls: seq<Invocation>, ended: bool)
      requires Valid()
      modifies this`ofs, buf
      ensures Valid()
      ensures var b, o := old(Pending()), old(Options());
              && calls == Fed(b, eof, o, |calls|)
              && (|calls|, ended) == Feed(b, eof, o, cancels, 0)
              && (ended ==> Pending() == CallbackRest(b, o.lf, |calls|))
    {
      hide Scan, Invoked, At;
      ghost var b, o := Pending(), Options();
      var ci: nat, cancel := 0, false;
      calls, ended := [], true;
      AtStart(b, o);
      while !cancel
        invariant Valid() && Pending() == b && Options() == o && ci <= ofs && |calls| <= |cancels|
        invariant calls == Fed(b, eof, o, |calls|)
        invariant At(b, o, |calls|, ci)
        invariant Feed(b, eof, o, cancels, 0) == if cancel then (|calls|, true) else Feed(b, eof, o, cancels, |calls|)
        decreases |cancels| - |calls|, !cancel
      {
        ScanInvokes(b, o, eof, |calls|, ci);
        var found, line, step, gotline := CopyLine(ci, eof);
        if !found {
          break;
        }
        if |calls| == |cancels| {
          ended := false;
          return;
        }
        calls := calls + [Invocation(line, eof && !gotline)];
        ci := ci + step;
        cancel := cancels[|calls| - 1];
      }
      AtRest(b, o, |calls|, ci);
      Slide(ci);
    }

    /** `read(function)`: feeds line after line until the callback cancels or nothing is left. */
    method ReadCallback(r: ReadResult, cancels: seq<bool>)
      returns (calls: seq<Invocation>, ended: bool, alive: bool)
      requires Valid() && Fits(Pending(), r)
      modifies this`ofs, buf
      ensures Valid()
      ensures var b, o := old(Pending()) + r.Bytes(), old(Options());
              && calls == Fed(b, r.Ends(), o, |calls|)
              && (|calls|, ended) == Feed(b, r.Ends(), o, cancels, 0)
              && (ended ==> Pending() == CallOutcome(b, r.Ends(), Callback(cancels), o).rest)
              && LinesOf(calls) == CallOutcome(b, r.Ends(), Callback(cancels), o).lines
              && alive == CallOutcome(b, r.Ends(), Callback(cancels), o).alive
    {
      var eof, early := Fill(r);
      if early {
        return [], true, true;
      }
      calls, ended := FeedLines(eof, cancels);
      alive := !eof;
    }
  }

  /** What the scan for the next line returns. */
  datatype ScanResult = Nothing | Got(line: seq<byte>, step: nat, gotline: bool)

  function Scan(b: seq<byte>, o: Settings, ci: nat, eof: bool): ScanResult
    requires ci <= |b|
  {
    var n := ThroughLf(b[ci..], o.lf);
    if b == [] then Nothing
    else if n > 0 then Got(b[ci..ci + if o.strip then n - 1 else n], n, true)
    else if eof || (ci == 0 && |b| == BUFFER_SIZE) then Got(b[..|b| - ci], |b| - ci, false)
    else Nothing
  }

  /** The table loop: the lines it appends from `ci` on, and where it stops. */
  function TableLoop(b: seq<byte>, o: Settings, eof: bool, ci: nat, count: nat): (r: (seq<seq<byte>>, nat))
    requires ci <= |b|
    ensures r.1 <= |b|
    decreases |b| - ci
  {
    var s := Scan(b, o, ci, eof);
    if count == 0 || s.Nothing? || (eof && s.line == [] && s.step == 0) then ([], ci)
    else
      var left := TableLoop(b, o, eof, ci + s.step, count - 1);
      ([s.line] + left.0, left.1)
  }

  /** `ci` is where the loops stand after `k` lines. */
  ghost predicate At(b: seq<byte>, o: Settings, k: nat, ci: nat) {
    && ci <= |b|
    && (k <= |Pieces(b, o.lf)| ==> b[ci..] == Skip(b, o.lf, k) && (ci == 0 <==> k == 0))
    && (k > |Pieces(b, o.lf)| ==> ci == |b|)
  }

  /** The scan at `ci` sees exactly the next piece of the buffered bytes, or else only the undecided
      rest is left. */
  lemma ScanIsCut(b: seq<byte>, o: Settings, k: nat, ci: nat)
    requires |b| <= BUFFER_SIZE && k <= |Pieces(b, o.lf)| && At(b, o, k, ci)
    ensures var n := ThroughLf(b[ci..], o.lf);
            var decided := n > 0 || (ci == 0 && |b| == BUFFER_SIZE);
            if decided
            then k < |Pieces(b, o.lf)| && Cut(b[ci..], o.lf) == (if n > 0 then n else |b|)
                 && (n > 0 <==> EndsLf(Pieces(b, o.lf)[k], o.lf))
            else k == |Pieces(b, o.lf)|
  {
    hide Pieces, Skip, ThroughLf, Cut, EndsLf;
    var u := b[ci..];
    SkipDecides(b, o.lf, k);
    CutDecides(u, o.lf);
    assert |u| == BUFFER_SIZE <==> ci == 0 && |b| == BUFFER_SIZE;
  }

  /** A cut is found exactly while there is another piece. */
  lemma SkipDecides(b: seq<byte>, lf: byte, k: nat)
    requires k <= |Pieces(b, lf)|
    ensures var u := Skip(b, lf, k);
            if Cut(u, lf) > 0 then k < |Pieces(b, lf)| && Pieces(b, lf)[k] == u[..Cut(u, lf)] else k == |Pieces(b, lf)|
  {
    hide Cut;
    PiecesSkip(b, lf, k);
    if k < |Pieces(b, lf)| {
      SkipStep(b, lf, k);
    }
  }

  /** What a cut is in a buffer. */
  lemma CutDecides(u: seq<byte>, lf: byte)
    requires |u| <= BUFFER_SIZE
    ensures var n := ThroughLf(u, lf);
            && (n == 0 ==> Cut(u, lf) == if |u| == BUFFER_SIZE then |u| else 0)
            && (n > 0 ==> Cut(u, lf) == n)
            && (Cut(u, lf) > 0 ==> (n > 0 <==> EndsLf(u[..Cut(u, lf)], lf)))
  {
    ThroughLfMeaning(u, lf);
  }

  /** A decided piece: the scan returns its text and steps over it. */
  lemma ScanPiece(b: seq<byte>, o: Settings, eof: bool, k: nat, ci: nat)
    requires |b| <= BUFFER_SIZE && k < |Pieces(b, o.lf)| && At(b, o, k, ci)
    ensures var s := Scan(b, o, ci, eof);
            && s.Got? && s.step > 0 && s.line == Text(Pieces(b, o.lf)[k], o.strip, o.lf)
            && (s.gotline <==> EndsLf(Pieces(b, o.lf)[k], o.lf))
            && At(b, o, k + 1, ci + s.step)
  {
    ScanIsCut(b, o, k, ci);
    SkipStep(b, o.lf, k);
    SliceSlice(b, ci, Cut(b[ci..], o.lf));
  }

  /** Past the decided pieces: the scan returns the misplaced tail, or nothing before the end. */
  lemma ScanTail(b: seq<byte>, o: Settings, eof: bool, ci: nat)
    requires |b| <= BUFFER_SIZE && At(b, o, |Pieces(b, o.lf)|, ci)
    ensures var rest := Rest(b, o.lf);
            && ci == |b| - |rest|
            && Scan(b, o, ci, eof) == if eof && b != [] then Got(b[..|rest|], |rest|, false) else Nothing
  {
    ScanIsCut(b, o, |Pieces(b, o.lf)|, ci);
    SkipAll(b, o.lf);
  }

  lemma ScanEnd(b: seq<byte>, o: Settings, eof: bool)
    requires b != []
    ensures Scan(b, o, |b|, eof) == if eof then Got([], 0, false) else Nothing
  {
    assert b[|b|..] == [];
  }

  lemma SliceOfPrefix<T>(b: seq<T>, n: nat, i: nat, j: nat)
    requires i <= j <= n <= |b|
    ensures b[..n][i..j] == b[i..j] && (j == n ==> b[..n][i..] == b[i..j])
  {
  }

  lemma SliceSlice<T>(b: seq<T>, i: nat, c: nat)
    requires i <= |b| && 0 < c <= |b| - i
    ensures b[i..][..c] == b[i..i + c] && b[i..][c..] == b[i + c..]
    ensures b[i..][..c][..c - 1] == b[i..i + c - 1]
  {
  }

  lemma ScanFirst(b: seq<byte>, o: Settings, eof: bool)
    requires |b| <= BUFFER_SIZE
    ensures var s, out := Scan(b, o, 0, eof), LineOutcome(b, eof, o);
            && out.lines == (if s.Got? then [s.line] else [])
            && out.rest == (if s.Got? then b[s.step..] else b)
  {
    assert b[0..] == b;
    ThroughLfMeaning(b, o.lf);
    if Cut(b, o.lf) > 0 {
      ScanPiece(b, o, eof, 0, 0);
    } else {
      ScanTail(b, o, eof, 0);
      assert b[..|b|] == b && b[|b|..] == [];
    }
  }

  /** The table loop computes the outcome of a table read. */
  lemma TableLoopIsOutcome(b: seq<byte>, o: Settings, eof: bool, cap: nat)
    requires |b| <= BUFFER_SIZE
    ensures var loop := TableLoop(b, o, eof, 0, if cap == 0 then SIZE_MAX else cap);
            var out := TableOutcome(b, eof, cap, o);
            loop.0 == out.lines && b[loop.1..] == out.rest && out.alive == !eof
  {
    var count := if cap == 0 then SIZE_MAX else cap;
    assert b[0..] == b;
    PiecesFew(b, o.lf);
    TableLoopFrom(b, o, eof, cap, 0, 0, count);
    assert [] + TableLoop(b, o, eof, 0, count).0 == TableLoop(b, o, eof, 0, count).0;
  }

  lemma {:induction false} TableLoopFrom(
    b: seq<byte>, o: Settings, eof: bool, cap: nat, k: nat, ci: nat, count: nat)
    requires |b| <= BUFFER_SIZE && k <= |Pieces(b, o.lf)| < SIZE_MAX && At(b, o, k, ci)
    requires count == (if cap == 0 then SIZE_MAX else cap) - k
    ensures var loop, out := TableLoop(b, o, eof, ci, count), TableOutcome(b, eof, cap, o);
            && Texts(Pieces(b, o.lf)[..k], o.strip, o.lf) + loop.0 == out.lines
            && b[loop.1..] == out.rest
    decreases count
  {
    hide Scan, TableLoop, TableOutcome, Texts;
    var pieces := Pieces(b, o.lf);
    if count == 0 {
      TableLoopRound(b, o, eof, ci, 0);
      TableLoopStop(b, o, eof, cap, ci);
    } else if k < |pieces| {
      ScanPiece(b, o, eof, k, ci);
      var s := Scan(b, o, ci, eof);
      TableLoopRound(b, o, eof, ci, count);
      TableLoopFrom(b, o, eof, cap, k + 1, ci + s.step, count - 1);
      TextsPush(pieces, o, k);
      AppendMove(Texts(pieces[..k], o.strip, o.lf), s.line, TableLoop(b, o, eof, ci + s.step, count - 1).0);
    } else {
      TableLoopTail(b, o, eof, cap, ci, count);
    }
  }

  /** The cap is reached. */
  lemma TableLoopStop(b: seq<byte>, o: Settings, eof: bool, cap: nat, ci: nat)
    requires 0 < cap <= |Pieces(b, o.lf)| && At(b, o, cap, ci)
    ensures var out := TableOutcome(b, eof, cap, o);
            && Texts(Pieces(b, o.lf)[..cap], o.strip, o.lf) + [] == out.lines
            && b[ci..] == out.rest
  {
  }

  /** Past the complete lines the table loop appends the misplaced tail, if the stream has ended. */
  lemma TableLoopTail(b: seq<byte>, o: Settings, eof: bool, cap: nat, ci: nat, count: nat)
    requires |b| <= BUFFER_SIZE && At(b, o, |Pieces(b, o.lf)|, ci)
    requires count > 0 && (cap == 0 || |Pieces(b, o.lf)| < cap)
    ensures var loop, out := TableLoop(b, o, eof, ci, count), TableOutcome(b, eof, cap, o);
            && Texts(Pieces(b, o.lf)[..|Pieces(b, o.lf)|], o.strip, o.lf) + loop.0 == out.lines
            && b[loop.1..] == out.rest
  {
    ScanTail(b, o, eof, ci);
    TableLoopRound(b, o, eof, ci, count);
    if b != [] {
      ScanEnd(b, o, eof);
      TableLoopRound(b, o, eof, |b|, count - 1);
    }
    assert b[|b|..] == [];
  }

  /** One round of the table loop. */
  lemma TableLoopRound(b: seq<byte>, o: Settings, eof: bool, ci: nat, count: nat)
    requires ci <= |b|
    ensures var s, loop := Scan(b, o, ci, eof), TableLoop(b, o, eof, ci, count);
            if count == 0 || s.Nothing? || (eof && s.line == [] && s.step == 0) then loop == ([], ci)
            else
              var left := TableLoop(b, o, eof, ci + s.step, count - 1);
              loop.0 == [s.line] + left.0 && loop.1 == left.1
  {
  }

  lemma TextsPush(lines: seq<seq<byte>>, o: Settings, k: nat)
    requires k < |lines|
    ensures Texts(lines[..k + 1], o.strip, o.lf)
            == Texts(lines[..k], o.strip, o.lf) + [Text(lines[k], o.strip, o.lf)]
  {
  }

  /** The scan after `k` lines yields the arguments of the next invocation of the callback. */
  lemma ScanInvokes(b: seq<byte>, o: Settings, eof: bool, k: nat, ci: nat)
    requires |b| <= BUFFER_SIZE && At(b, o, k, ci)
    ensures var s := Scan(b, o, ci, eof);
            && Invoked(b, eof, o, k) == (if s.Got? then [Invocation(s.line, eof && !s.gotline)] else [])
            && (s.Got? ==> At(b, o, k + 1, ci + s.step))
  {
    var n := |Pieces(b, o.lf)|;
    if k < n {
      ScanPiece(b, o, eof, k, ci);
    } else if k == n {
      ScanTail(b, o, eof, ci);
    } else if b != [] {
      ScanEnd(b, o, eof);
    }
  }

  lemma AtStart(b: seq<byte>, o: Settings)
    ensures At(b, o, 0, 0)
  {
    assert b[0..] == b;
  }

  lemma AtRest(b: seq<byte>, o: Settings, k: nat, ci: nat)
    requires At(b, o, k, ci)
    ensures b[ci..] == CallbackRest(b, o.lf, k)
  {
  }

  lemma {:induction false} PiecesFew(b: seq<byte>, lf: byte)
    ensures |Pieces(b, lf)| <= |b|
    decreases |b|
  {
    if Cut(b, lf) > 0 {
      PiecesFew(b[Cut(b, lf)..], lf);
    }
  }

  lemma AppendMove<T>(a: seq<T>, x: T, b: seq<T>)
    ensures a + ([x] + b) == (a + [x]) + b
  {
  }
}
