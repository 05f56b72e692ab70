/** Concrete runs in which the conditions of module LoopInvariants fail and a stream is no longer polled as
    it should be: a descriptor used both ways, a poll set that is full, and a stray reference that is
    released.
    Each starts from an empty loop, so the states are reachable. */
module LostWakeups {
  import opened Common
  import opened LineSplit
  import opened OutQueue
  import opened PollSet
  import opened EventLoop

  lemma {:induction false} ApplyAllAppend(l: Loop, a: seq<Op>, b: seq<Op>)
    ensures ApplyAll(l, a + b) == ApplyAll(ApplyAll(l, a), b)
    decreases |a|
  {
    hide Apply;
    if a == [] {
      assert a + b == b;
    } else {
      assert (a + b)[1..] == a[1..] + b;
      ApplyAllAppend(Apply(l, a[0]), a[1..], b);
    }
  }

  lemma ApplyTwo(l: Loop, a: Op, b: Op)
    ensures ApplyAll(l, [a, b]) == Apply(Apply(l, a), b)
  {
    hide Apply;
    assert [a, b][1..] == [b];
    ApplyOne(Apply(l, a), b);
  }

  lemma ApplyOne(l: Loop, op: Op)
    ensures ApplyAll(l, [op]) == Apply(l, op)
  {
    hide Apply;
    assert [op][1..] == [];
  }

  /** Opening a stream and writing one byte to it. */
  lemma OpenAndWrite(l: Loop, id: nat, fd: int)
    requires id !in l.streams && fd !in l.outs
    ensures var l' := ApplyAll(l, [Open(id, fd, true), Write(id, [[1]], false, 1, false)]);
            var s := Stream(fd, true, [Job([1], 0)], [1], [], false, false, false);
            && l'.streams == l.streams[id := s] && l'.ins == l.ins
            && l'.outs == if |l.outs| < LIMIT_JOBS then l.outs[fd := l.next] else l.outs
  {
    hide Register, Queued, ApplyAll;
    ApplyTwo(l, Open(id, fd, true), Write(id, [[1]], false, 1, false));
    var before := Stream(fd, true, [], [], [], false, false, false);
    var after := before.(jobs := [Job([1], 0)], offered := [1]);
    var a := l.(streams := l.streams[id := before]);
    QueuedByte(before);
    RegisterOuts(a.(streams := a.streams[id := after]), id, fd);
    assert a.streams[id := after] == l.streams[id := after];
  }

  lemma QueuedByte(s: Stream)
    requires s.writable && s.jobs == [] && s.offered == []
    ensures Queued(s, [[1]], false, 1, false) == (s.(jobs := [Job([1], 0)], offered := [1]), true)
  {
    var bufs: seq<seq<byte>> := [[1]];
    assert bufs[1..] == [] && [] + [Job(bufs[0], 0)] == [Job([1], 0)] && [] + bufs[0] == [1];
  }

  lemma RegisterOuts(l: Loop, id: nat, fd: int)
    requires fd !in l.outs
    ensures var l' := Register(l, id, fd);
            && l'.streams == l.streams && l'.ins == l.ins
            && l'.outs == if |l.outs| < LIMIT_JOBS then l.outs[fd := l.next] else l.outs
  {
    assert l.outs - {fd} == l.outs;
  }

  // ------------------------------------------------------------------ a descriptor used both ways

  /** Installing a data handler behind a write loses the wakeup. */
  lemma TwoWayLosesWakeup()
    ensures var l := ApplyAll(EMPTY_LOOP,
                       [Open(0, 5, true), Write(0, [[1]], false, 1, false)] + [DataHandler(0, true, 0)]);
            0 in l.streams && l.streams[0].jobs == [Job([1], 0)] && 5 !in l.outs
  {
    var ops := [Open(0, 5, true), Write(0, [[1]], false, 1, false)];
    var a := ApplyAll(EMPTY_LOOP, ops);
    OpenAndWrite(EMPTY_LOOP, 0, 5);
    ApplyAllAppend(EMPTY_LOOP, ops, [DataHandler(0, true, 0)]);
    hide ApplyAll;
    ApplyOne(a, DataHandler(0, true, 0));
  }

  // ------------------------------------------------------------------ a full poll set

  /** One stream after the other is opened and written to. */
  function Crowd(n: nat): seq<Op> {
    if n == 0 then []
    else Crowd(n - 1) + [Open(n - 1, n, true), Write(n - 1, [[1]], false, 1, false)]
  }

  ghost predicate Crowded(l: Loop, n: nat) {
    && (forall id: nat :: id in l.streams <==> id < n)
    && (forall id :: id in l.streams ==> l.streams[id].jobs == [Job([1], 0)] && l.streams[id].fd == id + 1)
    && (forall fd :: fd in l.outs <==> 1 <= fd <= n && fd <= LIMIT_JOBS)
    && |l.outs| == if n < LIMIT_JOBS then n else LIMIT_JOBS
  }

  lemma {:induction false} CrowdFills(n: nat)
    ensures Crowded(ApplyAll(EMPTY_LOOP, Crowd(n)), n)
    decreases n
  {
    hide ApplyAll;
    if n == 0 {
      assert Crowd(0) == [];
      NoOps();
    } else {
      var a := ApplyAll(EMPTY_LOOP, Crowd(n - 1));
      CrowdFills(n - 1);
      OpenAndWrite(a, n - 1, n);
      SizePlus(a.outs, n, a.next);
      ApplyAllAppend(EMPTY_LOOP, Crowd(n - 1), [Open(n - 1, n, true), Write(n - 1, [[1]], false, 1, false)]);
    }
  }

  lemma NoOps()
    ensures ApplyAll(EMPTY_LOOP, []) == EMPTY_LOOP && Crowded(EMPTY_LOOP, 0)
  {
  }

  /** The 33rd stream that is written to, and every one after it, has a byte to send and is not polled. */
  lemma LateWriterIsNotPolled(n: nat)
    requires n > LIMIT_JOBS
    ensures var l := ApplyAll(EMPTY_LOOP, Crowd(n));
            n - 1 in l.streams && l.streams[n - 1].jobs == [Job([1], 0)] && l.streams[n - 1].fd !in l.outs
  {
    hide ApplyAll, Crowd;
    CrowdFills(n);
    LastOfCrowd(ApplyAll(EMPTY_LOOP, Crowd(n)), n);
  }

  lemma LastOfCrowd(l: Loop, n: nat)
    requires Crowded(l, n) && n > LIMIT_JOBS
    ensures n - 1 in l.streams && l.streams[n - 1].jobs == [Job([1], 0)] && l.streams[n - 1].fd !in l.outs
  {
  }

  // ------------------------------------------------------------------ a tag released by chance

  /** Two readers.  When the first handler is dropped while the uninitialised variable happens to hold the tag
      of the second, the second stream stays polled under a tag that stands for nothing. */
  lemma StaleTagLosesReader()
    ensures var l := ApplyAll(EMPTY_LOOP,
                       [Open(0, 5, false), DataHandler(0, true, 9)] + ([Open(1, 6, false), DataHandler(1, true, 9)]
                       + [DataHandler(0, false, 1)]));
            && 1 in l.streams && l.streams[1].dataHandler
            && 6 in l.ins && !Known(l, l.ins[6])
  {
    hide ApplyAll, Apply;
    var a, b := [Open(0, 5, false), DataHandler(0, true, 9)], [Open(1, 6, false), DataHandler(1, true, 9)];
    var x := ApplyAll(EMPTY_LOOP, a);
    var y := ApplyAll(x, b);
    ApplyTwo(EMPTY_LOOP, a[0], a[1]);
    ApplyTwo(x, b[0], b[1]);
    ApplyAllAppend(EMPTY_LOOP, a, b + [DataHandler(0, false, 1)]);
    ApplyAllAppend(x, b, [DataHandler(0, false, 1)]);
    ApplyOne(y, DataHandler(0, false, 1));
    TwoReaders();
    HandlerDropped(y);
  }

  /** A stream with a data handler and nothing else. */
  function Reader(l: Loop, id: nat, fd: int): Loop {
    Apply(Apply(l, Open(id, fd, false)), DataHandler(id, true, 9))
  }

  lemma ReaderOpens(l: Loop, id: nat, fd: int)
    requires id !in l.streams && fd !in l.ins && l.outs == map[] && |l.ins| < LIMIT_JOBS
    ensures var s := Stream(fd, false, [], [], [], true, false, true);
            Reader(l, id, fd)
            == Loop(l.streams[id := s], l.ins[fd := l.next], map[], l.tags[l.next := id], l.next + 1)
  {
    var none: map<int, int> := map[];
    assert none - {fd} == none && l.ins - {fd} == l.ins;
    var a := Apply(l, Open(id, fd, false));
    assert a.streams[id := a.streams[id].(dataHandler := true, dataRearmed := true)]
        == l.streams[id := Stream(fd, false, [], [], [], true, false, true)];
  }

  lemma TwoReaders()
    ensures var y := Reader(Reader(EMPTY_LOOP, 0, 5), 1, 6);
            && y.outs == map[] && y.ins == map[5 := 0, 6 := 1] && y.tags == map[0 := 0, 1 := 1]
            && 0 in y.streams && y.streams[0].fd == 5 && 1 in y.streams && y.streams[1].dataHandler
  {
    hide Reader;
    ReaderOpens(EMPTY_LOOP, 0, 5);
    var one: map<int, int> := map[5 := 0];
    assert |one| == 1;
    ReaderOpens(Reader(EMPTY_LOOP, 0, 5), 1, 6);
  }

  lemma HandlerDropped(y: Loop)
    requires y.outs == map[] && y.ins == map[5 := 0, 6 := 1] && y.tags == map[0 := 0, 1 := 1]
    requires 0 in y.streams && y.streams[0].fd == 5 && 1 in y.streams && y.streams[1].dataHandler
    ensures var l := Apply(y, DataHandler(0, false, 1));
            1 in l.streams && l.streams[1].dataHandler && 6 in l.ins && !Known(l, l.ins[6])
  {
    assert (y.ins - {5})[6] == 1;
  }
}
