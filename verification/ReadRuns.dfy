/** The four modes of a buffered read (`lua/nbio.c`) as functions, and what whole runs of reads deliver. */
module ReadRuns {
  import opened LineSplit

  /** What one `read` system call may answer. */
  datatype ReadResult = Data(chunk: seq<byte>) | WouldBlock | Eof | Failed {
    /** Anything but data and would-block ends the stream. */
    predicate Ends() { Eof? || Failed? }

    function Bytes(): seq<byte> {
      if Data? then chunk else []
    }
  }

  /** How the caller of `read` asks for the data.  `cap` is the table's `read_cap` (0 when absent);
      `cancels` are the answers of the callback, in order, as far as they are known. */
  datatype Mode = Raw | Line | Table(cap: nat) | Callback(cancels: seq<bool>)

  datatype Settings = Settings(lf: byte, strip: bool)

  /** What one call hands over, what stays buffered, and the second return value. */
  datatype Outcome = Outcome(lines: seq<seq<byte>>, rest: seq<byte>, alive: bool)

  // ---------------------------------------------------------------- one call

  function RawOutcome(b: seq<byte>, ends: bool): Outcome {
    Outcome(Tail(b), [], !ends || b != [])
  }

  function LineOutcome(b: seq<byte>, ends: bool, o: Settings): Outcome {
    var n := Cut(b, o.lf);
    if n > 0 then Outcome([Text(b[..n], o.strip, o.lf)], b[n..], !ends)
    else if ends then Outcome(Tail(b), [], false)
    else Outcome([], b, true)
  }

  /** The number of complete lines a table read moves. */
  function TableCount(b: seq<byte>, cap: nat, lf: byte): (k: nat)
    ensures k <= |Pieces(b, lf)|
  {
    if cap == 0 || |Pieces(b, lf)| < cap then |Pieces(b, lf)| else cap
  }

  /** Whether a table read goes on to the tail after the complete lines. */
  predicate TableReachesTail(b: seq<byte>, ends: bool, cap: nat, lf: byte) {
    ends && (cap == 0 || |Pieces(b, lf)| < cap)
  }

  /** What the code hands over in place of the tail: it takes the tail's length, but from the start
      of the buffer. */
  function TailAsRead(b: seq<byte>, lf: byte): seq<seq<byte>> {
    Tail(b[..|Rest(b, lf)|])
  }

  function TableOutcome(b: seq<byte>, ends: bool, cap: nat, o: Settings): Outcome {
    var k := TableCount(b, cap, o.lf);
    var lines := Texts(Pieces(b, o.lf)[..k], o.strip, o.lf);
    if TableReachesTail(b, ends, cap, o.lf)
    then Outcome(lines + TailAsRead(b, o.lf), [], false)
    else Outcome(lines, Skip(b, o.lf, k), !ends)
  }

  datatype Invocation = Invocation(line: seq<byte>, eof: bool)

  /** The arguments of the `i`-th call of the callback, if the loop gets that far. */
  function Invoked(b: seq<byte>, ends: bool, o: Settings, i: nat): (r: seq<Invocation>)
    ensures |r| <= 1
  {
    var n := |Pieces(b, o.lf)|;
    if i < n then
      var line := Pieces(b, o.lf)[i];
      [Invocation(Text(line, o.strip, o.lf), ends && !EndsLf(line, o.lf))]
    else if !ends || b == [] then []
    else if i == n && Rest(b, o.lf) != [] then [Invocation(TailAsRead(b, o.lf)[0], true)]
    else [Invocation([], true)]
  }

  /** How many times the callback runs from invocation `i` on, and whether the loop then ends. */
  function Feed(b: seq<byte>, ends: bool, o: Settings, cancels: seq<bool>, i: nat): (r: (nat, bool))
    ensures i <= r.0
    decreases |cancels| - i
  {
    if Invoked(b, ends, o, i) == [] then (i, true)
    else if i >= |cancels| then (i, false)
    else if cancels[i] then (i + 1, true)
    else Feed(b, ends, o, cancels, i + 1)
  }

  /** What `count` invocations have been given. */
  function Fed(b: seq<byte>, ends: bool, o: Settings, count: nat): seq<Invocation> {
    if count == 0 then [] else Fed(b, ends, o, count - 1) + Invoked(b, ends, o, count - 1)
  }

  function CallbackRest(b: seq<byte>, lf: byte, count: nat): seq<byte> {
    if count <= |Pieces(b, lf)| then Skip(b, lf, count) else []
  }

  function LinesOf(calls: seq<Invocation>): (r: seq<seq<byte>>)
    ensures |r| == |calls|
  {
    seq(|calls|, i requires 0 <= i < |calls| => calls[i].line)
  }

  function CallOutcome(b: seq<byte>, ends: bool, mode: Mode, o: Settings): Outcome {
    match mode
    case Raw => RawOutcome(b, ends)
    case Line => LineOutcome(b, ends, o)
    case Table(cap) => TableOutcome(b, ends, cap, o)
    case Callback(cancels) =>
      var count := Feed(b, ends, o, cancels, 0).0;
      Outcome(LinesOf(Fed(b, ends, o, count)), CallbackRest(b, o.lf, count), !ends)
  }

  // ------------------------------------------------- where the code and its intent part

  /** The callback loop comes back, within the known answers. */
  predicate Returns(b: seq<byte>, ends: bool, mode: Mode, o: Settings) {
    mode.Callback? ==> Feed(b, ends, o, mode.cancels, 0).1
  }

  /** One of the first `n` answers of the callback is a cancel. */
  predicate CancelsWithin(cancels: seq<bool>, n: nat) {
    exists i :: 0 <= i < |cancels| && i < n && cancels[i]
  }

  /** A multi-line call at the end of the stream that passes at least one complete line and then
      comes to a non-empty tail. */
  predicate PassesLinesToTail(b: seq<byte>, ends: bool, mode: Mode, o: Settings) {
    && ends && Pieces(b, o.lf) != [] && Rest(b, o.lf) != []
    && match mode
       case Raw => false
       case Line => false
       case Table(cap) => TableReachesTail(b, ends, cap, o.lf)
       case Callback(cancels) => !CancelsWithin(cancels, |Pieces(b, o.lf)|)
  }

  /** Such a call takes the first bytes of the buffer for the tail; it goes wrong unless they happen to be
      the same. */
  predicate Misreads(b: seq<byte>, ends: bool, mode: Mode, o: Settings) {
    PassesLinesToTail(b, ends, mode, o) && !(Rest(b, o.lf) <= b)
  }

  /** A callback read at the end of the stream that is not cancelled while there are lines goes on with empty
      strings. */
  predicate Overfeeds(b: seq<byte>, ends: bool, mode: Mode, o: Settings) {
    mode.Callback? && ends && b != [] && !CancelsWithin(mode.cancels, |Split(b, o.lf)|)
  }

  /** The two ways in which a call can hand over something else than the lines of the stream. */
  predicate Strays(b: seq<byte>, ends: bool, mode: Mode, o: Settings) {
    Misreads(b, ends, mode, o) || Overfeeds(b, ends, mode, o)
  }

  /** At the end of the stream with bytes buffered, the callback loop ends only by a cancel; in every
      other case it ends by itself once the answers cover the buffered lines. */
  lemma CallbackEndsIff(b: seq<byte>, ends: bool, o: Settings, cancels: seq<bool>)
    requires |Pieces(b, o.lf)| <= |cancels|
    ensures Returns(b, ends, Callback(cancels), o) <==> !ends || b == [] || true in cancels
  {
    FeedEnds(b, ends, o, cancels, 0);
  }

  lemma {:induction false} FeedEnds(b: seq<byte>, ends: bool, o: Settings, cancels: seq<bool>, i: nat)
    requires |Pieces(b, o.lf)| <= |cancels| && i <= |cancels|
    ensures Feed(b, ends, o, cancels, i).1 <==>
            (exists j :: i <= j < |cancels| && cancels[j]) || !ends || b == []
    decreases |cancels| - i
  {
    if b == [] {
      assert Cut(b, o.lf) == 0;
    }
    if Invoked(b, ends, o, i) != [] && i < |cancels| && !cancels[i] {
      FeedEnds(b, ends, o, cancels, i + 1);
    }
  }

  /** A table read at the end of the stream delivers the canonical lines, up to its cap, exactly when
      it does not pass complete lines on its way to a tail that fails to repeat the buffer's first
      bytes. */
  lemma TableDeliversSplitIff(b: seq<byte>, cap: nat, o: Settings)
    ensures var lines := TableOutcome(b, true, cap, o).lines;
            |lines| <= |Split(b, o.lf)| &&
            (lines == Texts(Split(b, o.lf)[..|lines|], o.strip, o.lf)
             <==> !Misreads(b, true, Table(cap), o))
  {
    var pieces, rest := Pieces(b, o.lf), Rest(b, o.lf);
    var lines := TableOutcome(b, true, cap, o).lines;
    if TableReachesTail(b, true, cap, o.lf) {
      assert pieces[..|pieces|] == pieces;
      assert Split(b, o.lf)[..|lines|] == Split(b, o.lf);
      TextsAppend(pieces, Tail(rest), o.strip, o.lf);
      TailText(b, o);
      TailMisread(Texts(pieces, o.strip, o.lf), b, rest);
      if pieces == [] {
        assert rest == b;
      }
    } else {
      assert Split(b, o.lf)[..|lines|] == pieces[..|lines|];
    }
  }

  /** How many invocations there are at the end of the stream, told from the answers alone. */
  lemma {:induction false} FeedCount(b: seq<byte>, o: Settings, cancels: seq<bool>, i: nat, n: nat)
    requires b != [] && i <= |cancels| && Feed(b, true, o, cancels, i).1
    ensures Feed(b, true, o, cancels, i).0 <= n <==> exists j :: i <= j < |cancels| && j < n && cancels[j]
    decreases |cancels| - i
  {
    if i < |cancels| && !cancels[i] {
      FeedCount(b, o, cancels, i + 1, n);
    }
  }

  function Empties(n: nat): (r: seq<seq<byte>>)
    ensures |r| == n
  {
    seq(n, _ => [])
  }

  /** The texts of the buffered lines in order, then what is taken for the tail, then empty strings. */
  function Delivery(b: seq<byte>, o: Settings, count: nat): seq<seq<byte>> {
    var texts, m := Texts(Pieces(b, o.lf), o.strip, o.lf), |Split(b, o.lf)|;
    if count <= |texts| then texts[..count]
    else texts + TailAsRead(b, o.lf) + Empties(if count <= m then 0 else count - m)
  }

  /** The callback is handed just that, for as long as it does not cancel. */
  lemma {:induction false} FedLines(b: seq<byte>, ends: bool, o: Settings, count: nat)
    requires count <= |Pieces(b, o.lf)| || (ends && b != [])
    ensures |Fed(b, ends, o, count)| == count && LinesOf(Fed(b, ends, o, count)) == Delivery(b, o, count)
    decreases count
  {
    hide Delivery, Invoked, Pieces, Rest;
    if count == 0 {
      NothingDelivered(b, o);
    } else {
      FedLines(b, ends, o, count - 1);
      DeliveryStep(b, ends, o, count - 1);
      LinesAppend(Fed(b, ends, o, count - 1), Invoked(b, ends, o, count - 1));
    }
  }

  lemma NothingDelivered(b: seq<byte>, o: Settings)
    ensures Delivery(b, o, 0) == []
  {
  }

  lemma LinesAppend(before: seq<Invocation>, last: seq<Invocation>)
    ensures LinesOf(before + last) == LinesOf(before) + LinesOf(last)
  {
  }

  lemma DeliveryOfLines(b: seq<byte>, o: Settings, count: nat)
    requires count <= |Pieces(b, o.lf)|
    ensures Delivery(b, o, count) == Texts(Pieces(b, o.lf)[..count], o.strip, o.lf)
  {
  }

  lemma DeliveryStep(b: seq<byte>, ends: bool, o: Settings, i: nat)
    requires i < |Pieces(b, o.lf)| || (ends && b != [])
    ensures var last := Invoked(b, ends, o, i);
            |last| == 1 && Delivery(b, o, i + 1) == Delivery(b, o, i) + LinesOf(last)
  {
    hide Pieces, Rest, TailAsRead, Invoked, Split;
    var texts, last, n := Texts(Pieces(b, o.lf), o.strip, o.lf), Invoked(b, ends, o, i), |Pieces(b, o.lf)|;
    var tail, m := TailAsRead(b, o.lf), |Split(b, o.lf)|;
    InvokedIs(b, ends, o, i);
    assert LinesOf(last) == [last[0].line];
    if i < n {
      assert texts[..i + 1] == texts[..i] + [texts[i]];
    } else {
      assert texts[..n] == texts;
      if i < m {
        assert tail == [tail[0]];
      } else {
        assert Empties(i + 1 - m) == Empties(i - m) + [[]];
        AppendMore(texts, tail, Empties(i - m), [[]]);
      }
    }
  }

  lemma InvokedIs(b: seq<byte>, ends: bool, o: Settings, i: nat)
    requires i < |Pieces(b, o.lf)| || (ends && b != [])
    ensures var last, n, m, tail := Invoked(b, ends, o, i), |Pieces(b, o.lf)|, |Split(b, o.lf)|, TailAsRead(b, o.lf);
            && |last| == 1 && m == n + |tail| && |tail| <= 1
            && last[0].line == if i < n then Text(Pieces(b, o.lf)[i], o.strip, o.lf) else if i < m then tail[0] else []
  {
  }

  lemma AppendMore<T>(a: seq<T>, b: seq<T>, c: seq<T>, d: seq<T>)
    ensures (a + b + c) + d == a + b + (c + d)
  {
  }

  /** At the end of the stream the callback is handed the lines of the split, from the first on and nothing
      else, exactly when it cancels before they run out and the tail is not misread. */
  lemma CallbackDeliversSplitIff(b: seq<byte>, o: Settings, cancels: seq<bool>)
    requires Returns(b, true, Callback(cancels), o)
    ensures var calls := Fed(b, true, o, Feed(b, true, o, cancels, 0).0);
            LinesOf(calls) <= Texts(Split(b, o.lf), o.strip, o.lf)
            <==> !Misreads(b, true, Callback(cancels), o) && (b == [] || CancelsWithin(cancels, |Split(b, o.lf)|))
  {
    var count := Feed(b, true, o, cancels, 0).0;
    CallbackCount(b, true, cancels, o);
    FedLines(b, true, o, count);
    DeliveryIsPrefixIff(b, o, count);
    hide Delivery, Feed, Fed, Split, Rest, Pieces;
  }

  lemma DeliveryIsPrefixIff(b: seq<byte>, o: Settings, count: nat)
    ensures var n, rest := |Pieces(b, o.lf)|, Rest(b, o.lf);
            Delivery(b, o, count) <= Texts(Split(b, o.lf), o.strip, o.lf)
            <==> count <= n || (count <= |Split(b, o.lf)| && rest <= b)
  {
    var texts, rest, tail := Texts(Pieces(b, o.lf), o.strip, o.lf), Rest(b, o.lf), TailAsRead(b, o.lf);
    TextsAppend(Pieces(b, o.lf), Tail(rest), o.strip, o.lf);
    TailText(b, o);
    assert Pieces(b, o.lf) == [] ==> rest == b;
    TailRightIff(b, rest);
    hide Pieces, Rest, TailAsRead, Tail;
    if count > |texts| {
      var extra := Empties(if count <= |Split(b, o.lf)| then 0 else count - |Split(b, o.lf)|);
      PrefixIff(texts, tail, Tail(rest), extra);
    }
  }

  lemma PrefixIff<T>(a: seq<T>, x: seq<T>, y: seq<T>, extra: seq<T>)
    requires |x| == |y|
    ensures a + x + extra <= a + y <==> x == y && extra == []
  {
    if extra == [] {
      assert a + x + extra == a + x;
      assert (a + x)[|a|..] == x && (a + y)[|a|..] == y;
    } else {
      assert |a + x + extra| > |a + y|;
    }
  }

  /** What is taken for the tail is the tail exactly when the buffer starts with it. */
  lemma TailRightIff(b: seq<byte>, rest: seq<byte>)
    requires |rest| <= |b|
    ensures Tail(b[..|rest|]) == Tail(rest) <==> rest <= b
    ensures |Tail(b[..|rest|])| == |Tail(rest)|
  {
    assert rest <= b <==> b[..|rest|] == rest;
    if rest != [] {
      assert Tail(b[..|rest|])[0] == b[..|rest|] && Tail(rest)[0] == rest;
    }
  }

  lemma TailText(b: seq<byte>, o: Settings)
    ensures Texts(Tail(Rest(b, o.lf)), o.strip, o.lf) == Tail(Rest(b, o.lf))
  {
    RestUndecided(b, o.lf);
  }

  lemma TailMisread(lines: seq<seq<byte>>, b: seq<byte>, rest: seq<byte>)
    requires |rest| <= |b|
    ensures lines + Tail(b[..|rest|]) == lines + Tail(rest) <==> rest <= b
  {
    assert rest <= b <==> b[..|rest|] == rest;
    if rest != [] {
      assert (lines + Tail(b[..|rest|]))[|lines|] == b[..|rest|];
      assert (lines + Tail(rest))[|lines|] == rest;
    }
  }

  // ---------------------------------------------------------------- how much one call hands over

  /** The second return value is "not alive" exactly at the end of the stream, unless an unbuffered read still has
      something to hand over. */
  lemma AliveIff(b: seq<byte>, ends: bool, mode: Mode, o: Settings)
    ensures CallOutcome(b, ends, mode, o).alive <==> !ends || (mode.Raw? && b != [])
  {
    if b == [] {
      assert Cut(b, o.lf) == 0;
    }
  }

  /** An unbuffered read hands over everything as one string, or nothing if there is nothing. */
  lemma RawTakesAll(b: seq<byte>, ends: bool)
    ensures var out := RawOutcome(b, ends);
            out.rest == [] && out.lines == if b == [] then [] else [b]
  {
  }

  /** The lines there are for a call: before the end those that are decided. */
  function Available(b: seq<byte>, ends: bool, lf: byte): nat {
    if ends then |Split(b, lf)| else |Pieces(b, lf)|
  }

  /** A single-line read takes a line if there is one, and a table read takes all there are, up to its cap. */
  lemma CallTakes(b: seq<byte>, ends: bool, cap: nat, o: Settings)
    ensures var n := Available(b, ends, o.lf);
            && |LineOutcome(b, ends, o).lines| == (if n == 0 then 0 else 1)
            && |TableOutcome(b, ends, cap, o).lines| == (if cap == 0 || n < cap then n else cap)
  {
    TailRightIff(b, Rest(b, o.lf));
    NonEmptySplits(b, o.lf);
  }

  /** A callback read goes on until the first cancel, which is answer `j`, or until there is nothing left; at the
      end of the stream only a cancel ends it, unless nothing is buffered. */
  lemma CallbackTakes(b: seq<byte>, ends: bool, o: Settings, cancels: seq<bool>, j: nat)
    requires Returns(b, ends, Callback(cancels), o) && j <= |cancels|
    requires (forall i :: 0 <= i < j ==> !cancels[i]) && (j < |cancels| ==> cancels[j])
    ensures var count, n := Feed(b, ends, o, cancels, 0).0, |Pieces(b, o.lf)|;
            && |CallOutcome(b, ends, Callback(cancels), o).lines| == count
            && count == if ends && b != [] then j + 1 else if n <= j then n else j + 1
  {
    FeedTakes(b, ends, o, cancels, 0, j);
    FedLines(b, ends, o, Feed(b, ends, o, cancels, 0).0);
  }

  lemma {:induction false} FeedTakes(
    b: seq<byte>, ends: bool, o: Settings, cancels: seq<bool>, i: nat, j: nat)
    requires i <= j <= |cancels| && Feed(b, ends, o, cancels, i).1
    requires (forall k :: i <= k < j ==> !cancels[k]) && (j < |cancels| ==> cancels[j])
    requires i <= |Pieces(b, o.lf)| || (ends && b != [])
    ensures var count, n := Feed(b, ends, o, cancels, i).0, |Pieces(b, o.lf)|;
            count == if ends && b != [] then j + 1 else if n <= j then n else j + 1
    decreases j - i
  {
    if b == [] {
      assert Cut(b, o.lf) == 0;
    }
    if Invoked(b, ends, o, i) != [] && i < j {
      FeedTakes(b, ends, o, cancels, i + 1, j);
    }
  }

  /** What is handed to the callback carries the end flag exactly when the stream has ended and it is no complete
      line. */
  lemma {:induction false} EndFlagIff(b: seq<byte>, ends: bool, o: Settings, count: nat, i: nat)
    requires i < count && (count <= |Pieces(b, o.lf)| || (ends && b != []))
    ensures |Fed(b, ends, o, count)| == count
    ensures Fed(b, ends, o, count)[i].eof
            <==> ends && (i >= |Pieces(b, o.lf)| || !EndsLf(Pieces(b, o.lf)[i], o.lf))
    decreases count
  {
    FedLines(b, ends, o, count);
    FedLines(b, ends, o, count - 1);
    DeliveryStep(b, ends, o, count - 1);
    hide Delivery, LinesOf;
    if i < count - 1 {
      EndFlagIff(b, ends, o, count - 1, i);
    }
  }

  // ---------------------------------------------------------------- whole runs

  /** One call of `read` together with what the kernel answers. */
  datatype Read = Read(mode: Mode, result: ReadResult)

  /** The request size is what is free in the buffer; a data answer is non-empty and no larger. */
  predicate Fits(pending: seq<byte>, r: ReadResult) {
    r.Data? ==> 0 < |r.chunk| <= BUFFER_SIZE - |pending|
  }

  function Step(pending: seq<byte>, r: Read, o: Settings): Outcome {
    CallOutcome(pending + r.result.Bytes(), r.result.Ends(), r.mode, o)
  }

  /** All lines of a run in order, what stays buffered, and the last second return value. */
  function Run(pending: seq<byte>, tr: seq<Read>, o: Settings): Outcome
    decreases |tr|
  {
    if tr == [] then Outcome([], pending, true)
    else
      var first := Step(pending, tr[0], o);
      var others := Run(first.rest, tr[1..], o);
      Outcome(first.lines + others.lines, others.rest, if tr[1..] == [] then first.alive else others.alive)
  }

  /** Every answer of the kernel fits the space that is free when it is given. */
  predicate RunFits(pending: seq<byte>, tr: seq<Read>, o: Settings)
    decreases |tr|
  {
    tr != [] ==> Fits(pending, tr[0].result) && RunFits(Step(pending, tr[0], o).rest, tr[1..], o)
  }

  /** Every byte the descriptor gave up during the run. */
  function Input(tr: seq<Read>): seq<byte> {
    if tr == [] then [] else tr[0].result.Bytes() + Input(tr[1..])
  }

  predicate Ended(tr: seq<Read>) {
    tr != [] && (tr[0].result.Ends() || Ended(tr[1..]))
  }

  /** No data after the end of the stream. */
  predicate EndsOnce(tr: seq<Read>) {
    tr != [] ==> (tr[0].result.Ends() ==> Input(tr[1..]) == []) && EndsOnce(tr[1..])
  }

  /** Every call is line-wise and comes back. */
  predicate LineWise(pending: seq<byte>, tr: seq<Read>, o: Settings)
    decreases |tr|
  {
    tr != [] ==>
      && !tr[0].mode.Raw?
      && Returns(pending + tr[0].result.Bytes(), tr[0].result.Ends(), tr[0].mode, o)
      && LineWise(Step(pending, tr[0], o).rest, tr[1..], o)
  }

  /** No call strays from the lines of the stream.  It can be told from what is buffered when the call is made
      and from the answers of the callback. */
  predicate Clean(pending: seq<byte>, tr: seq<Read>, o: Settings)
    decreases |tr|
  {
    tr != [] ==>
      && !Strays(pending + tr[0].result.Bytes(), tr[0].result.Ends(), tr[0].mode, o)
      && Clean(Step(pending, tr[0], o).rest, tr[1..], o)
  }

  /** A call takes the front of the canonical split and leaves its remainder, whatever bytes `later` are
      still to come, exactly when it does not stray. */
  lemma CallTakesSplitPrefixIff(b: seq<byte>, ends: bool, mode: Mode, o: Settings, later: seq<byte>)
    requires !mode.Raw? && Returns(b, ends, mode, o)
    requires ends ==> later == []
    ensures TakesSplitPrefix(b, CallOutcome(b, ends, mode, o), o, later) <==> !Strays(b, ends, mode, o)
  {
    match mode
    case Line =>
      if Cut(b, o.lf) > 0 {
        TakeLines(b, o, later, 1, CallOutcome(b, ends, mode, o));
      } else if ends {
        assert b[..|b|] == b;
        TakeAllIff(b, o, CallOutcome(b, ends, mode, o), 0);
      }
    case Table(cap) =>
      if TableReachesTail(b, ends, cap, o.lf) {
        TakeAllIff(b, o, CallOutcome(b, ends, mode, o), 0);
      } else {
        TakeLines(b, o, later, TableCount(b, cap, o.lf), CallOutcome(b, ends, mode, o));
      }
    case Callback(cancels) => CallbackTakesIff(b, ends, cancels, o, later);
  }

  /** What is delivered, followed by the split of what is left and still to come, is the split of everything. */
  predicate TakesSplitPrefix(b: seq<byte>, out: Outcome, o: Settings, later: seq<byte>) {
    out.lines + Texts(Split(out.rest + later, o.lf), o.strip, o.lf) == Texts(Split(b + later, o.lf), o.strip, o.lf)
  }

  lemma CallbackTakesIff(b: seq<byte>, ends: bool, cancels: seq<bool>, o: Settings, later: seq<byte>)
    requires Returns(b, ends, Callback(cancels), o) && (ends ==> later == [])
    ensures TakesSplitPrefix(b, CallOutcome(b, ends, Callback(cancels), o), o, later)
            <==> !Strays(b, ends, Callback(cancels), o)
  {
    var out, count := CallOutcome(b, ends, Callback(cancels), o), Feed(b, ends, o, cancels, 0).0;
    var m := |Split(b, o.lf)|;
    CallbackCount(b, ends, cancels, o);
    FedLines(b, ends, o, count);
    hide Feed, Fed, Split, Rest, TailAsRead;
    if count <= |Pieces(b, o.lf)| {
      DeliveryOfLines(b, o, count);
      hide Delivery, Pieces;
      TakeLines(b, o, later, count, out);
    } else {
      var extra := if count <= m then 0 else count - m;
      assert out.lines == Texts(Pieces(b, o.lf), o.strip, o.lf) + TailAsRead(b, o.lf) + Empties(extra);
      hide Delivery, Pieces;
      TakeAllIff(b, o, out, extra);
    }
  }

  /** How far a callback read gets, and when it strays. */
  lemma CallbackCount(b: seq<byte>, ends: bool, cancels: seq<bool>, o: Settings)
    requires Returns(b, ends, Callback(cancels), o)
    ensures var count, n, m := Feed(b, ends, o, cancels, 0).0, |Pieces(b, o.lf)|, |Split(b, o.lf)|;
            && n <= m && (count > n ==> ends && b != [])
            && (Strays(b, ends, Callback(cancels), o)
                <==> count > m || (count > n && !(Rest(b, o.lf) <= b)))
  {
    var n, m := |Pieces(b, o.lf)|, |Split(b, o.lf)|;
    FeedStays(b, ends, o, cancels, 0);
    if ends && b != [] {
      FeedCount(b, o, cancels, 0, n);
      FeedCount(b, o, cancels, 0, m);
    }
    assert n == 0 ==> Rest(b, o.lf) == b;
    assert b == [] ==> n == 0;
    hide Feed, Pieces, Rest;
  }

  /** A call that strays leaves nothing behind. */
  lemma StraysEmpties(b: seq<byte>, ends: bool, mode: Mode, o: Settings)
    requires Returns(b, ends, mode, o) && Strays(b, ends, mode, o)
    ensures ends && CallOutcome(b, ends, mode, o).rest == []
  {
    if mode.Callback? {
      CallbackCount(b, ends, mode.cancels, o);
    }
  }

  lemma TakeLines(b: seq<byte>, o: Settings, later: seq<byte>, k: nat, out: Outcome)
    requires k <= |Pieces(b, o.lf)|
    requires out.lines == Texts(Pieces(b, o.lf)[..k], o.strip, o.lf) && out.rest == Skip(b, o.lf, k)
    ensures TakesSplitPrefix(b, out, o, later)
  {
    SplitTake(b, later, o.lf, k);
    TextsAppend(Pieces(b, o.lf)[..k], Split(out.rest + later, o.lf), o.strip, o.lf);
  }

  /** All lines, what is taken for the tail, and some empty strings are the split exactly when there are no
      empty strings and the tail is right. */
  lemma TakeAllIff(b: seq<byte>, o: Settings, out: Outcome, extra: nat)
    requires out.lines == Texts(Pieces(b, o.lf), o.strip, o.lf) + TailAsRead(b, o.lf) + Empties(extra) && out.rest == []
    ensures TakesSplitPrefix(b, out, o, [])
            <==> extra == 0 && Rest(b, o.lf) <= b
  {
    var lines, tail, rest := Texts(Pieces(b, o.lf), o.strip, o.lf), TailAsRead(b, o.lf), Rest(b, o.lf);
    TailText(b, o);
    TextsAppend(Pieces(b, o.lf), Tail(rest), o.strip, o.lf);
    assert Pieces(b, o.lf) == [] ==> rest == b;
    TailRightIff(b, rest);
    assert Split(out.rest + [], o.lf) == [] && b + [] == b;
    hide Pieces, Rest, TailAsRead, Tail;
    assert out.lines + [] == out.lines;
    PrefixIff(lines, tail, Tail(rest), Empties(extra));
    assert out.lines == Texts(Split(b, o.lf), o.strip, o.lf) ==> out.lines <= Texts(Split(b, o.lf), o.strip, o.lf);
    assert lines + Tail(rest) + [] == lines + Tail(rest);
  }

  /** The callback never runs past the complete lines before the end of the stream. */
  lemma {:induction false} FeedStays(b: seq<byte>, ends: bool, o: Settings, cancels: seq<bool>, i: nat)
    requires i <= |Pieces(b, o.lf)|
    ensures Feed(b, ends, o, cancels, i).0 > |Pieces(b, o.lf)| ==> ends && b != []
    decreases |cancels| - i
  {
    if i < |cancels| && !cancels[i] && i < |Pieces(b, o.lf)| {
      FeedStays(b, ends, o, cancels, i + 1);
    }
  }

  lemma RegroupIff<T>(a: seq<T>, b: seq<T>, x: seq<T>, y: seq<T>, z: seq<T>)
    requires a + y == z
    ensures (a + b) + x == z <==> b + x == y
  {
    assert (a + b) + x == a + (b + x);
    assert (a + (b + x))[|a|..] == b + x && (a + y)[|a|..] == y;
  }

  lemma Reassociate<T>(a: seq<T>, b: seq<T>, c: seq<T>, d: seq<T>)
    ensures (a + b) + (c + d) == a + ((b + c) + d)
  {
  }

  /** After the end of the stream, and with nothing buffered, calls deliver nothing. */
  lemma {:induction false} NothingAfterEnd(tr: seq<Read>, o: Settings)
    requires LineWise([], tr, o) && Input(tr) == []
    ensures Run([], tr, o).lines == [] && Run([], tr, o).rest == []
    decreases |tr|
  {
    if tr != [] {
      var none: seq<byte> := [];
      assert none + tr[0].result.Bytes() == none;
      CallTakesSplitPrefixIff(none, tr[0].result.Ends(), tr[0].mode, o, none);
      NonEmptySplits(Step([], tr[0], o).rest + none, o.lf);
      NothingAfterEnd(tr[1..], o);
    }
  }

  /** What every run keeps: what has been delivered, followed by the canonical split of what is buffered
      and what is still to come, is the canonical split of everything, exactly as long as no call strays. */
  lemma {:induction false} RunRefinesSplitIff(pending: seq<byte>, tr: seq<Read>, o: Settings, later: seq<byte>)
    requires LineWise(pending, tr, o) && EndsOnce(tr)
    requires Ended(tr) ==> later == []
    ensures Run(pending, tr, o).lines + Texts(Split(Run(pending, tr, o).rest + later, o.lf), o.strip, o.lf)
            == Texts(Split(pending + (Input(tr) + later), o.lf), o.strip, o.lf)
            <==> Clean(pending, tr, o)
    decreases |tr|
  {
    if tr == [] {
      assert [] + later == later;
    } else {
      var r, others := tr[0], tr[1..];
      var b, first := pending + r.result.Bytes(), Step(pending, r, o);
      var after := Run(first.rest, others, o);
      var g := Input(others) + later;
      CallTakesSplitPrefixIff(b, r.result.Ends(), r.mode, o, g);
      Reassociate(pending, r.result.Bytes(), Input(others), later);
      if Strays(b, r.result.Ends(), r.mode, o) {
        StraysEmpties(b, r.result.Ends(), r.mode, o);
        NothingAfterEnd(others, o);
      } else {
        RunRefinesSplitIff(first.rest, others, o, later);
        RegroupIff(first.lines, after.lines, Texts(Split(after.rest + later, o.lf), o.strip, o.lf),
          Texts(Split(first.rest + g, o.lf), o.strip, o.lf), Texts(Split(b + g, o.lf), o.strip, o.lf));
      }
    }
  }

  /** A run that has emptied the buffer has delivered the canonical split of its input exactly when no
      call strayed: nothing else about the chunking or the order of the modes leaves a trace. */
  lemma DrainedRunIsSplitIff(tr: seq<Read>, o: Settings)
    requires LineWise([], tr, o) && EndsOnce(tr)
    requires Run([], tr, o).rest == []
    ensures Run([], tr, o).lines == Texts(Split(Input(tr), o.lf), o.strip, o.lf) <==> Clean([], tr, o)
  {
    RunRefinesSplitIff([], tr, o, []);
    var none: seq<byte> := [];
    assert none + (Input(tr) + none) == Input(tr);
    assert none + none == none;
    assert Split(none, o.lf) == [];
  }

  /** Two clean runs over the same bytes deliver the same lines, however the bytes were cut and
      whichever modes were used. */
  lemma ChunkingAndModeDoNotMatter(tr: seq<Read>, tr': seq<Read>, o: Settings)
    requires LineWise([], tr, o) && Clean([], tr, o) && EndsOnce(tr) && Run([], tr, o).rest == []
    requires LineWise([], tr', o) && Clean([], tr', o) && EndsOnce(tr') && Run([], tr', o).rest == []
    requires Input(tr) == Input(tr')
    ensures Run([], tr, o).lines == Run([], tr', o).lines
  {
    DrainedRunIsSplitIff(tr, o);
    DrainedRunIsSplitIff(tr', o);
  }

  predicate AllLine(tr: seq<Read>) {
    tr != [] ==> tr[0].mode.Line? && AllLine(tr[1..])
  }

  predicate AllUncapped(tr: seq<Read>) {
    tr != [] ==> tr[0].mode == Table(0) && AllUncapped(tr[1..])
  }

  /** Single-line reads never meet the misread tail. */
  lemma {:induction false} LineRunsAreClean(pending: seq<byte>, tr: seq<Read>, o: Settings)
    requires AllLine(tr)
    ensures LineWise(pending, tr, o) && Clean(pending, tr, o)
    decreases |tr|
  {
    if tr != [] {
      LineRunsAreClean(Step(pending, tr[0], o).rest, tr[1..], o);
    }
  }

  /** Nor do uncapped table reads, because each leaves no complete line behind. */
  lemma {:induction false} UncappedRunsAreClean(pending: seq<byte>, tr: seq<Read>, o: Settings)
    requires AllUncapped(tr) && Pieces(pending, o.lf) == []
    ensures LineWise(pending, tr, o) && Clean(pending, tr, o)
    decreases |tr|
  {
    if tr != [] {
      var b, ends := pending + tr[0].result.Bytes(), tr[0].result.Ends();
      if ends {
        assert b == pending;
      }
      UncappedLeavesNoLine(b, ends, o);
      UncappedRunsAreClean(Step(pending, tr[0], o).rest, tr[1..], o);
    }
  }

  lemma UncappedLeavesNoLine(b: seq<byte>, ends: bool, o: Settings)
    ensures Pieces(TableOutcome(b, ends, 0, o).rest, o.lf) == []
  {
    SkipAll(b, o.lf);
    RestUndecided(b, o.lf);
  }

  /** At the end of the stream a single-line read reports "not alive" whether or not it has emptied the
      buffer: a caller that stops there has seen everything exactly when at most one line was left. */
  lemma LineAtEndDrainsIff(b: seq<byte>, o: Settings)
    ensures !LineOutcome(b, true, o).alive
    ensures LineOutcome(b, true, o).rest == [] <==> |Split(b, o.lf)| <= 1
  {
    var n := Cut(b, o.lf);
    if n > 0 {
      assert Split(b, o.lf) == [b[..n]] + Split(b[n..], o.lf);
      NonEmptySplits(b[n..], o.lf);
    }
  }

  lemma NonEmptySplits(b: seq<byte>, lf: byte)
    ensures Split(b, lf) == [] <==> b == []
  {
  }

  /** The same for a table read: it reports "not alive" and has emptied the buffer exactly when the cap
      leaves room for everything that is buffered. */
  lemma TableAtEndDrainsIff(b: seq<byte>, cap: nat, o: Settings)
    ensures !TableOutcome(b, true, cap, o).alive
    ensures TableOutcome(b, true, cap, o).rest == [] <==> cap == 0 || |Split(b, o.lf)| <= cap
  {
    var k := TableCount(b, cap, o.lf);
    PiecesSkip(b, o.lf, k);
    NonEmptySplits(Skip(b, o.lf, k), o.lf);
  }

  /** Single-line reads at the end hand out one line of the split after the other, until none is left. */
  lemma {:induction false} LinesDrainAtEnd(pending: seq<byte>, n: nat, o: Settings)
    requires n >= |Split(pending, o.lf)|
    ensures var out := Run(pending, seq(n, i => Read(Line, Eof)), o);
            out.rest == [] && out.lines == Texts(Split(pending, o.lf), o.strip, o.lf)
    decreases n
  {
    var tr := seq(n, i => Read(Line, Eof));
    NonEmptySplits(pending, o.lf);
    if n > 0 {
      assert pending + [] == pending;
      assert tr[1..] == seq(n - 1, i => Read(Line, Eof));
      var first := Step(pending, tr[0], o);
      CallTakesSplitPrefixIff(pending, true, Line, o, []);
      assert first.rest + [] == first.rest;
      assert |first.lines| == 1 || pending == [];
      LinesDrainAtEnd(first.rest, n - 1, o);
    }
  }

  /** Before the end of the stream and with stripping off, no call in any mode loses a byte. */
  lemma CallConserves(b: seq<byte>, mode: Mode, o: Settings)
    requires !o.strip
    ensures var out := CallOutcome(b, false, mode, o); Concat(out.lines) + out.rest == b
  {
    var n := Cut(b, o.lf);
    match mode
    case Raw =>
      assert Concat([b]) == b + Concat([]) == b;
    case Line =>
      assert Concat([b[..n]]) == b[..n] + Concat([]) == b[..n];
      assert b[..n] + b[n..] == b;
    case Table(cap) =>
      TakenConserves(b, o, TableCount(b, cap, o.lf));
    case Callback(cancels) =>
      FeedStays(b, false, o, cancels, 0);
      FedLines(b, false, o, Feed(b, false, o, cancels, 0).0);
      DeliveryOfLines(b, o, Feed(b, false, o, cancels, 0).0);
      TakenConserves(b, o, Feed(b, false, o, cancels, 0).0);
  }

  lemma TakenConserves(b: seq<byte>, o: Settings, k: nat)
    requires !o.strip && k <= |Pieces(b, o.lf)|
    ensures Concat(Texts(Pieces(b, o.lf)[..k], o.strip, o.lf)) + Skip(b, o.lf, k) == b
  {
    SkipCovers(b, o.lf, k);
    assert Texts(Pieces(b, o.lf)[..k], o.strip, o.lf) == Pieces(b, o.lf)[..k];
  }

  /** Before the end, and with stripping off, a run in any mixture of the four modes conserves bytes:
      what was delivered, followed by what is buffered, is what was read. */
  lemma {:induction false} RunConserves(pending: seq<byte>, tr: seq<Read>, o: Settings)
    requires !o.strip && !Ended(tr)
    ensures Concat(Run(pending, tr, o).lines) + Run(pending, tr, o).rest == pending + Input(tr)
    decreases |tr|
  {
    if tr != [] {
      var first := Step(pending, tr[0], o);
      var others := Run(first.rest, tr[1..], o);
      CallConserves(pending + tr[0].result.Bytes(), tr[0].mode, o);
      RunConserves(first.rest, tr[1..], o);
      ConcatAppend(first.lines, others.lines);
      RegroupBytes(Concat(first.lines), Concat(others.lines), others.rest, first.rest, Input(tr[1..]),
        pending, tr[0].result.Bytes());
    }
  }

  lemma RegroupBytes<T>(a: seq<T>, b: seq<T>, r: seq<T>, q: seq<T>, i: seq<T>, p: seq<T>, c: seq<T>)
    requires a + q == p + c && b + r == q + i
    ensures (a + b) + r == p + (c + i)
  {
    assert (a + b) + r == a + (b + r);
    assert a + (q + i) == (a + q) + i;
  }

  /** Every call that comes back leaves room in the buffer, so a request for zero bytes is never made
      and an answer of zero bytes always means the end. */
  lemma CallLeavesRoom(b: seq<byte>, ends: bool, mode: Mode, o: Settings)
    requires |b| <= BUFFER_SIZE && Returns(b, ends, mode, o)
    ensures |CallOutcome(b, ends, mode, o).rest| < BUFFER_SIZE
  {
    match mode
    case Raw =>
    case Line =>
    case Table(cap) =>
      SkipLeavesRoom(b, o.lf, TableCount(b, cap, o.lf));
    case Callback(cancels) =>
      var count := Feed(b, ends, o, cancels, 0).0;
      if count <= |Pieces(b, o.lf)| {
        assert count > 0 || Invoked(b, ends, o, 0) == [];
        SkipLeavesRoom(b, o.lf, count);
      }
  }

  predicate AllReturn(pending: seq<byte>, tr: seq<Read>, o: Settings)
    decreases |tr|
  {
    tr != [] ==>
      && Returns(pending + tr[0].result.Bytes(), tr[0].result.Ends(), tr[0].mode, o)
      && AllReturn(Step(pending, tr[0], o).rest, tr[1..], o)
  }

  /** So the buffer is never full between the calls of a run, in whatever modes. */
  lemma {:induction false} RunLeavesRoom(pending: seq<byte>, tr: seq<Read>, o: Settings)
    requires |pending| < BUFFER_SIZE && RunFits(pending, tr, o) && AllReturn(pending, tr, o)
    ensures |Run(pending, tr, o).rest| < BUFFER_SIZE
    decreases |tr|
  {
    if tr != [] {
      CallLeavesRoom(pending + tr[0].result.Bytes(), tr[0].result.Ends(), tr[0].mode, o);
      RunLeavesRoom(Step(pending, tr[0], o).rest, tr[1..], o);
    }
  }

  lemma SkipLeavesRoom(b: seq<byte>, lf: byte, k: nat)
    requires |b| <= BUFFER_SIZE && (k > 0 || Pieces(b, lf) == [])
    ensures |Skip(b, lf, k)| < BUFFER_SIZE
  {
  }

  /** The canonical split is missed in a run of two table reads capped at two: three empty lines and a
      tail arrive at once, and the read that sees the end hands out a line feed for the tail. */
  lemma CappedTableMisreadsTail()
    ensures var o := Settings(10, false);
            var tr := [Read(Table(2), Data([10, 10, 10, 121])), Read(Table(2), Eof)];
            && RunFits([], tr, o) && EndsOnce(tr)
            && Run([], tr, o) == Outcome([[10], [10], [10], [10]], [], false)
            && Split(Input(tr), 10) == [[10], [10], [10], [121]]
  {
    var o := Settings(10, false);
    var b: seq<byte>, a: seq<byte> := [10, 121], [10, 10, 10, 121];
    var first, last := Read(Table(2), Data(a)), Read(Table(2), Eof);
    EmptyLinesThenTail();
    assert TableOutcome(a, false, 2, o) == Outcome([[10], [10]], b, true);
    assert TableOutcome(b, true, 2, o) == Outcome([[10], [10]], [], false);
    assert [] + a == a && b + [] == b;
    assert [first, last][1..] == [last] && [last][1..] == [];
    assert Input([last]) == [] && Input([first, last]) == a;
    assert Run(b, [last], o) == Outcome([[10], [10]], [], false);
  }

  lemma EmptyLinesThenTail()
    ensures Pieces([10, 121], 10) == [[10]] && Rest([10, 121], 10) == [121]
    ensures Pieces([10, 10, 10, 121], 10) == [[10], [10], [10]] && Rest([10, 10, 10, 121], 10) == [121]
    ensures Skip([10, 10, 10, 121], 10, 2) == [10, 121]
  {
    var c: seq<byte> := [121];
    assert ThroughLf(c, 10) == 0 by { assert c[1..] == []; }
    EmptyLineFirst(c, 10, 0);
    EmptyLineFirst([10] + c, 10, 0);
    EmptyLineFirst([10] + ([10] + c), 10, 1);
    assert [10] + ([10] + ([10] + c)) == [10, 10, 10, 121];
  }

  lemma EmptyLineFirst(s: seq<byte>, lf: byte, k: nat)
    ensures Pieces([lf] + s, lf) == [[lf]] + Pieces(s, lf)
    ensures Rest([lf] + s, lf) == Rest(s, lf)
    ensures Skip([lf] + s, lf, k + 1) == Skip(s, lf, k)
  {
    assert ([lf] + s)[1..] == s && ([lf] + s)[..1] == [lf];
  }

  /** A callback that cancels at its second call only is handed the one line of the stream, and an empty string
      behind it. */
  lemma EmptyStringBehindLastLine()
    ensures var o, mode, b := Settings(10, false), Callback([false, true]), [10 as byte];
            && Fed(b, true, o, Feed(b, true, o, mode.cancels, 0).0) == [Invocation([10], false), Invocation([], true)]
            && Split(b, 10) == [[10]]
  {
    var o, cancels, b := Settings(10, false), [false, true], [10 as byte];
    EmptyLineFirst([], 10, 0);
    assert [10 as byte] + [] == b;
    assert Pieces(b, 10) == [[10]] && Rest(b, 10) == [];
    assert Invoked(b, true, o, 0) == [Invocation([10], false)] && Invoked(b, true, o, 1) == [Invocation([], true)];
    assert Feed(b, true, o, cancels, 1) == (2, true);
    assert Fed(b, true, o, 0) == [] && Fed(b, true, o, 1) == [Invocation([10], false)];
  }

  /** On a tail without a line character, a callback that never cancels is called for ever: no number of
      answers brings the loop to its end. */
  lemma UncancelledCallbackNeverEnds(n: nat)
    ensures var o, b := Settings(10, false), [121 as byte];
            && Run([], [Read(Line, Data(b))], o) == Outcome([], b, true)
            && !Returns(b, true, Callback(seq(n, _ => false)), o)
  {
    var o, b := Settings(10, false), [121 as byte];
    var tr := [Read(Line, Data(b))];
    assert ThroughLf(b, 10) == 0 by { assert b[1..] == []; }
    assert [] + b == b && tr[1..] == [];
    assert Step([], tr[0], o) == Outcome([], b, true);
    NeverEnds(b, o, n, 0);
  }

  lemma {:induction false} NeverEnds(b: seq<byte>, o: Settings, n: nat, i: nat)
    requires b != [] && i <= n
    ensures !Feed(b, true, o, seq(n, _ => false), i).1
    decreases n - i
  {
    if i < n {
      NeverEnds(b, o, n, i + 1);
    }
  }
}
