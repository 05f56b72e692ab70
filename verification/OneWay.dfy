/** The discipline under which no wakeup is ever lost: one-way descriptors, few enough streams, tame handlers. */
module OneWay {
  import opened Common
  import opened LineSplit
  import opened OutQueue
  import opened PollSet
  import opened EventLoop
  import opened LoopInvariants

  /** The streams that are written to, or those that are not. */
  function Side(m: map<nat, Stream>, writable: bool): map<nat, Stream> {
    map id | id in m && m[id].writable == writable :: m[id]
  }

  /** What decides about an operation: it opens no stream too many in its direction, gives a data handler only
      to a stream that is not written to, and releases no tag of an entry that stays. */
  predicate TameOp(l: Loop, op: Op) {
    && Plausible(l, op)
    && (op.Open? && op.id !in l.streams ==> |Side(l.streams, op.writable)| < LIMIT_JOBS)
    && (op.DataHandler? && op.id in l.streams ==> !l.streams[op.id].writable)
    && ((op.DataHandler? || op.Close?) && op.id in l.streams ==> Harmless(l, l.streams[op.id].fd, op.stale))
  }

  predicate Closes(op: Op, id: nat) {
    op.Close? && op.id == id
  }

  /** No handler closes its own stream. */
  predicate Spares(script: seq<Op>, id: nat) {
    forall i :: 0 <= i < |script| ==> !Closes(script[i], id)
  }

  predicate TameScript(l: Loop, script: seq<Op>)
    decreases |script|
  {
    script != [] ==> TameOp(l, script[0]) && TameScript(Apply(l, script[0]), script[1..])
  }

  predicate TameEvent(l: Loop, e: Event)
    requires LoopJobsOk(l)
  {
    match e
    case Basic(op) => TameOp(l, op)
    case DataIn(tag, script, keep) =>
      Known(l, tag) && l.streams[l.tags[tag]].dataHandler ==>
        var id := l.tags[tag];
        && TameScript(l.(streams := l.streams[id := l.streams[id].(dataRearmed := false)]), script)
        && Spares(script, id)
    case DataOut(tag, kernel, script) =>
      Known(l, tag) && DrainStream(l, l.tags[tag], kernel).called ==>
        TameScript(DrainStream(l, l.tags[tag], kernel).loop, script) && Spares(script, l.tags[tag])
  }

  /** Each direction has a place for each of its streams; handlers and write entries are where they belong. */
  ghost predicate OneWayLoop(l: Loop) {
    && |Side(l.streams, true)| <= LIMIT_JOBS && |Side(l.streams, false)| <= LIMIT_JOBS
    && (forall id :: id in l.streams && l.streams[id].dataHandler ==> !l.streams[id].writable)
    && (forall id :: id in l.streams && !l.streams[id].writable ==> l.streams[id].fd !in l.outs)
  }

  // ------------------------------------------------------------------ room in the poll set

  function Fds(m: map<nat, Stream>): set<int> {
    set id | id in m :: m[id].fd
  }

  lemma {:induction false} FdsFew(m: map<nat, Stream>)
    ensures |Fds(m)| <= |m|
    decreases |m|
  {
    if m == map[] {
      assert Fds(m) == {};
    } else {
      var id :| id in m;
      var rest := m - {id};
      SizeMinus(m, id);
      FdsFew(rest);
      forall fd | fd in Fds(m)
        ensures fd in Fds(rest) + {m[id].fd}
      {
        var x :| x in m && m[x].fd == fd;
        assert x != id ==> x in rest && rest[x].fd == fd;
      }
      SubsetSize(Fds(m), Fds(rest) + {m[id].fd});
    }
  }

  /** Entries belong to the open streams of one direction, so a stream of that direction that has none finds a
      place while there are no more of them than places. */
  lemma RoomForAll(l: Loop, m: map<int, int>, writable: bool, id: nat)
    requires Own(l, m) && |Side(l.streams, writable)| <= LIMIT_JOBS
    requires forall x :: x in l.streams && l.streams[x].fd in m ==> l.streams[x].writable == writable
    requires id in l.streams && l.streams[id].writable == writable
    ensures HasRoom(m, l.streams[id].fd)
  {
    var fd, side := l.streams[id].fd, Side(l.streams, writable);
    if fd !in m {
      forall f | f in m.Keys
        ensures f in Fds(side) - {fd}
      {
        var x := l.tags[m[f]];
        assert l.streams[x].fd == f && x in side && side[x].fd == f;
      }
      FdsFew(side);
      SubsetSize(m.Keys, Fds(side) - {fd});
      assert id in side && side[id].fd == fd;
      assert fd in Fds(side);
      assert |m| == |m.Keys|;
    }
  }

  // ------------------------------------------------------------------ tame is safe

  lemma TameOpSafe(l: Loop, op: Op)
    requires Inv(l) && OneWayLoop(l) && TameOp(l, op)
    ensures Safe(l, op)
  {
    match op
    case Open(_, _, _) =>
    case Write(id, bufs, table, room, handler) =>
      if id in l.streams && l.streams[id].writable {
        assert Accounts(l.streams[id]);
        QueuedKeeps(l.streams[id], bufs, table, room, handler);
        RoomForAll(l, l.outs, true, id);
      }
    case DataHandler(id, install, stale) =>
      if id in l.streams {
        assert Accounts(l.streams[id]);
        RoomForAll(l, l.ins, false, id);
      }
    case Close(_, _) =>
  }

  lemma {:induction false} QueueAllFlags(s: Stream, bufs: seq<seq<byte>>, room: nat)
    ensures var q := QueueAll(s, bufs, room).0;
            q.fd == s.fd && q.writable == s.writable && q.dataHandler == s.dataHandler
    decreases |bufs|
  {
    if bufs != [] && bufs[0] == [] {
      QueueAllFlags(s, bufs[1..], room);
    } else if bufs != [] && room > 0 {
      QueueAllFlags(s.(jobs := s.jobs + [Job(bufs[0], 0)], offered := s.offered + bufs[0]), bufs[1..], room - 1);
    }
  }

  lemma QueuedFlags(s: Stream, bufs: seq<seq<byte>>, table: bool, room: nat, handler: bool)
    ensures var q := Queued(s, bufs, table, room, handler).0;
            q.fd == s.fd && q.writable == s.writable && q.dataHandler == s.dataHandler
  {
    QueueAllFlags(if handler then s.(writeHandler := true) else s, bufs, room);
  }

  lemma TameOpKeeps(l: Loop, op: Op)
    requires Inv(l) && OneWayLoop(l) && TameOp(l, op)
    ensures OneWayLoop(Apply(l, op))
  {
    hide Apply, OneWayLoop, Side, Inv, Plausible, Harmless;
    if !op.Open? && op.id in l.streams {
      KnownOpKeeps(l, op);
    } else if op.Open? && op.id !in l.streams {
      OpenKeepsOneWay(l, op);
    } else {
      NothingHappens(l, op);
    }
  }

  lemma NothingHappens(l: Loop, op: Op)
    requires if op.Open? then op.id in l.streams else op.id !in l.streams
    ensures Apply(l, op) == l
  {
  }

  lemma OpenKeepsOneWay(l: Loop, op: Op)
    requires Inv(l) && OneWayLoop(l) && TameOp(l, op) && op.Open? && op.id !in l.streams
    ensures OneWayLoop(Apply(l, op))
  {
    hide OneWayLoop, Side, Inv;
    FreshFd(l, op);
    PutKeeps(l, Apply(l, op), op.id, Stream(op.fd, op.writable, [], [], [], false, false, false));
  }

  lemma KnownOpKeeps(l: Loop, op: Op)
    requires Inv(l) && OneWayLoop(l) && TameOp(l, op) && !op.Open? && op.id in l.streams
    ensures OneWayLoop(Apply(l, op))
  {
    hide Apply, Queued, OneWayLoop, Side, Inv, Plausible, Harmless;
    var l', s := Apply(l, op), l.streams[op.id];
    StreamsAfter(l, op);
    OutsAfter(l, op);
    StreamOneWay(l, op.id);
    match op
    case Write(id, bufs, table, room, handler) =>
      QueuedFlags(s, bufs, table, room, handler);
      PutKeeps(l, l', id, Queued(s, bufs, table, room, handler).0);
    case DataHandler(id, install, _) =>
      PutKeeps(l, l', id, s.(dataHandler := install, dataRearmed := true));
    case Close(id, _) => RemoveKeeps(l, l', id);
  }

  /** Only a write adds a write entry, and only for a stream that may be written to. */
  lemma OutsAfter(l: Loop, op: Op)
    requires Inv(l)
    ensures var l' := Apply(l, op);
            if op.Write? && op.id in l.streams && l.streams[op.id].writable
            then l'.outs.Keys <= l.outs.Keys + {l.streams[op.id].fd} else l'.outs.Keys <= l.outs.Keys
  {
    hide Coherent, NoLostWakeup, ArmedIff, Register;
    CountBound(l);
    if op.Write? && op.id in l.streams {
      var s := l.streams[op.id];
      WriteEffect(l, op.id, op.bufs, op.table, op.room, op.handler);
      AccountsOf(l, op.id);
      QueuedKeeps(s, op.bufs, op.table, op.room, op.handler);
    }
  }

  /** The descriptor of a new stream is in no entry. */
  lemma FreshFd(l: Loop, op: Op)
    requires Inv(l) && Plausible(l, op) && op.Open? && op.id !in l.streams
    ensures op.fd !in l.outs
  {
    forall fd | fd in l.outs
      ensures fd != op.fd
    {
      assert l.streams[l.tags[l.outs[fd]]].fd == fd;
    }
  }

  lemma StreamOneWay(l: Loop, id: nat)
    requires Inv(l) && OneWayLoop(l) && id in l.streams
    ensures l.streams[id].dataHandler ==> !l.streams[id].writable
    ensures !l.streams[id].writable ==> l.streams[id].fd !in l.outs
    ensures forall x :: x in l.streams && x != id ==> l.streams[x].fd != l.streams[id].fd
  {
  }

  lemma SidePut(m: map<nat, Stream>, id: nat, s: Stream, writable: bool)
    requires id in m ==> m[id].writable == s.writable
    ensures Side(m[id := s], writable)
            == if s.writable == writable then Side(m, writable)[id := s] else Side(m, writable)
    ensures |Side(m[id := s], writable)|
            == |Side(m, writable)| + if id !in m && s.writable == writable then 1 else 0
  {
    SizePlus(Side(m, writable), id, s);
  }

  lemma SideRemove(m: map<nat, Stream>, id: nat, writable: bool)
    ensures |Side(m - {id}, writable)| <= |Side(m, writable)|
  {
    SizeMinus(Side(m, writable), id);
    assert Side(m - {id}, writable) == Side(m, writable) - {id};
  }

  lemma PutKeeps(l: Loop, l': Loop, id: nat, s: Stream)
    requires OneWayLoop(l) && l'.streams == l.streams[id := s] && (s.dataHandler ==> !s.writable)
    requires if id in l.streams then s.writable == l.streams[id].writable && s.fd == l.streams[id].fd
             else |Side(l.streams, s.writable)| < LIMIT_JOBS && s.fd !in l.outs
    requires l'.outs.Keys <= l.outs.Keys || (s.writable && l'.outs.Keys <= l.outs.Keys + {s.fd})
    requires forall x :: x in l.streams && x != id ==> l.streams[x].fd != s.fd
    ensures OneWayLoop(l')
  {
    hide Side;
    SidePut(l.streams, id, s, true);
    SidePut(l.streams, id, s, false);
    assert forall fd :: fd in l'.outs <==> fd in l'.outs.Keys;
    assert forall fd :: fd in l.outs <==> fd in l.outs.Keys;
  }

  lemma RemoveKeeps(l: Loop, l': Loop, id: nat)
    requires OneWayLoop(l) && l'.streams == l.streams - {id} && l'.outs.Keys <= l.outs.Keys
    ensures OneWayLoop(l')
  {
    hide Side;
    SideRemove(l.streams, id, true);
    SideRemove(l.streams, id, false);
    assert forall fd :: fd in l'.outs <==> fd in l'.outs.Keys;
  }

  /** Only a close takes a stream away, and none changes its direction. */
  lemma StaysOpen(l: Loop, op: Op, own: nat)
    requires own in l.streams && !Closes(op, own)
    ensures own in Apply(l, op).streams && Apply(l, op).streams[own].writable == l.streams[own].writable
  {
    StreamsAfter(l, op);
    hide Apply, Queued;
    if op.Write? && op.id in l.streams {
      QueuedFlags(l.streams[op.id], op.bufs, op.table, op.room, op.handler);
    }
  }

  lemma {:induction false} TameScriptSafe(l: Loop, script: seq<Op>, own: nat)
    requires Inv(l) && OneWayLoop(l) && TameScript(l, script)
    requires own in l.streams && Spares(script, own)
    ensures SafeScript(l, script)
    ensures var l' := ApplyAll(l, script);
            OneWayLoop(l') && own in l'.streams && l'.streams[own].writable == l.streams[own].writable
    decreases |script|
  {
    hide Inv, OneWayLoop, TameOp, Safe, Apply, Plausible, Closes;
    if script != [] {
      assert forall i :: 0 <= i < |script[1..]| ==> script[1..][i] == script[i + 1];
      TameIsPlausible(l, script[0]);
      TameOpSafe(l, script[0]);
      SafeIff(l, script[0]);
      TameOpKeeps(l, script[0]);
      StaysOpen(l, script[0], own);
      TameScriptSafe(Apply(l, script[0]), script[1..], own);
    }
  }

  lemma TameIsPlausible(l: Loop, op: Op)
    requires TameOp(l, op)
    ensures Plausible(l, op)
  {
  }

  lemma FlagKeepsOneWay(l: Loop, id: nat, s: Stream)
    requires OneWayLoop(l) && id in l.streams && s.fd == l.streams[id].fd
    requires s.writable == l.streams[id].writable && (s.dataHandler ==> l.streams[id].dataHandler)
    ensures OneWayLoop(l.(streams := l.streams[id := s]))
  {
    hide Side;
    SidePut(l.streams, id, s, true);
    SidePut(l.streams, id, s, false);
  }

  lemma ReadOnlyIsIdle(l: Loop, id: nat)
    requires Inv(l) && id in l.streams && !l.streams[id].writable
    ensures l.streams[id].jobs == []
  {
    assert Accounts(l.streams[id]);
  }

  lemma TameDataIn(l: Loop, tag: int, script: seq<Op>, keep: bool)
    requires Inv(l) && LoopJobsOk(l) && OneWayLoop(l) && TameEvent(l, DataIn(tag, script, keep))
    ensures SafeEvent(l, DataIn(tag, script, keep)) && OneWayLoop(Handle(l, DataIn(tag, script, keep)))
  {
    if Known(l, tag) && l.streams[l.tags[tag]].dataHandler {
      var id := l.tags[tag];
      var s := l.streams[id].(dataRearmed := false);
      var a := l.(streams := l.streams[id := s]);
      RearmFlagKeeps(l, id);
      FlagKeepsOneWay(l, id, s);
      assert !l.streams[id].writable;
      TameScriptSafe(a, script, id);
      ScriptKeeps(a, script);
      var b := ApplyAll(a, script);
      ReadOnlyIsIdle(b, id);
      FlagKeepsOneWay(b, id, b.streams[id].(dataHandler := false));
      DisarmStreams(b, id, tag);
      hide Inv, OneWayLoop, TameScript, ApplyAll, Disarm;
      OneWaySame(b.(streams := b.streams[id := b.streams[id].(dataHandler := false)]), Disarm(b, id, tag));
    }
  }

  lemma DisarmStreams(l: Loop, id: nat, tag: int)
    requires id in l.streams
    ensures Disarm(l, id, tag).streams == l.streams[id := l.streams[id].(dataHandler := false)]
    ensures Disarm(l, id, tag).outs.Keys <= l.outs.Keys
  {
  }

  lemma OneWaySame(l: Loop, l': Loop)
    requires OneWayLoop(l) && l'.streams == l.streams && l'.outs.Keys <= l.outs.Keys
    ensures OneWayLoop(l')
  {
    assert forall fd :: fd in l'.outs ==> fd in l'.outs.Keys;
  }

  lemma TameDataOut(l: Loop, tag: int, kernel: seq<WriteResult>, script: seq<Op>)
    requires Inv(l) && LoopJobsOk(l) && OneWayLoop(l) && TameEvent(l, DataOut(tag, kernel, script))
    ensures SafeEvent(l, DataOut(tag, kernel, script)) && OneWayLoop(Handle(l, DataOut(tag, kernel, script)))
  {
    hide Inv, OneWayLoop, TameScript, SafeScript, Spares, ApplyAll, DrainStream, DropWrite, LoopJobsOk;
    if Known(l, tag) {
      var id := l.tags[tag];
      var d := DrainStream(l, id, kernel);
      DrainKeeps(l, id, kernel);
      DrainKeepsOneWay(l, id, kernel);
      if d.called {
        TameScriptSafe(d.loop, script, id);
        var b := ApplyAll(d.loop, script);
        FewerOuts(b, b.streams[id].fd);
        OneWaySame(b, DropWrite(b, b.streams[id].fd));
      }
    }
  }

  lemma FewerOuts(l: Loop, fd: int)
    ensures DropWrite(l, fd).outs.Keys <= l.outs.Keys
  {
  }

  lemma DrainKeepsOneWay(l: Loop, id: nat, kernel: seq<WriteResult>)
    requires LoopJobsOk(l) && OneWayLoop(l) && id in l.streams
    ensures OneWayLoop(DrainStream(l, id, kernel).loop) && id in DrainStream(l, id, kernel).loop.streams
  {
    var s := l.streams[id];
    if s.jobs != [] {
      var out := Drain(s.jobs, kernel);
      var drained := s.(jobs := out.jobs, taken := s.taken + out.wire);
      FlagKeepsOneWay(l, id, if out.status == 0 then drained else Settle(drained));
      hide OneWayLoop, Drain;
    }
  }

  lemma TameEventSafe(l: Loop, e: Event)
    requires Inv(l) && LoopJobsOk(l) && OneWayLoop(l) && TameEvent(l, e)
    ensures SafeEvent(l, e) && OneWayLoop(Handle(l, e))
  {
    match e
    case Basic(op) =>
      TameOpSafe(l, op);
      TameOpKeeps(l, op);
    case DataIn(tag, script, keep) => TameDataIn(l, tag, script, keep);
    case DataOut(tag, kernel, script) => TameDataOut(l, tag, kernel, script);
  }

  /** The states a run of tame events can reach. */
  ghost predicate TameReaches(l: Loop, run: seq<Event>, l': Loop)
    decreases |run|
  {
    if run == [] then l' == l
    else LoopJobsOk(l) && TameEvent(l, run[0]) && TameReaches(Handle(l, run[0]), run[1..], l')
  }

  lemma {:induction false} TameRunIsSafe(l: Loop, run: seq<Event>, l': Loop)
    requires Inv(l) && OneWayLoop(l) && TameReaches(l, run, l')
    ensures Reaches(l, run, l')
    decreases |run|
  {
    hide Inv, OneWayLoop, TameEvent, SafeEvent, Handle;
    if run != [] {
      TameEventSafe(l, run[0]);
      EventKeeps(l, run[0]);
      TameRunIsSafe(Handle(l, run[0]), run[1..], l');
    }
  }

  /** No lost wakeup: from an empty loop, with one-way descriptors, at most 32 streams open at a time in each
      direction, no handler that closes its own stream, and no uninitialised variable that holds the tag of
      another stream, every reachable state polls every stream with unsent bytes for writing and exactly the
      streams with a data handler for reading, each under its own tag; whatever the callbacks write, arm,
      open and close. */
  lemma OneWayNeverLosesWakeup(run: seq<Event>, l: Loop, id: nat)
    requires TameReaches(EMPTY_LOOP, run, l) && id in l.streams
    ensures var s := l.streams[id];
            && (s.jobs != [] ==> s.fd in l.outs && l.outs[s.fd] in l.tags && l.tags[l.outs[s.fd]] == id)
            && (s.dataHandler <==> s.fd in l.ins)
            && (s.fd in l.ins ==> l.ins[s.fd] in l.tags && l.tags[l.ins[s.fd]] == id)
  {
    TameRunIsSafe(EMPTY_LOOP, run, l);
    NoLostWakeupFromStart(run, l, id);
  }
}
