/** What a write queues, and that over whole runs the descriptor takes what was queued (`lua/nbio.c`). */
module Delivery {
  import opened LineSplit
  import opened OutQueue
  import opened EventLoop
  import opened LoopInvariants
  import opened WriteCompletion

  // ------------------------------------------------------------------ one write

  /** The buffers one after the other. */
  function Concat(bufs: seq<seq<byte>>): seq<byte> {
    if bufs == [] then [] else bufs[0] + Concat(bufs[1..])
  }

  /** How many buffers there is something to queue of. */
  function Demand(bufs: seq<seq<byte>>): nat {
    if bufs == [] then 0 else (if bufs[0] == [] then 0 else 1) + Demand(bufs[1..])
  }

  /** A job for each buffer that is not empty. */
  function Fresh(bufs: seq<seq<byte>>): seq<Job> {
    if bufs == [] then [] else (if bufs[0] == [] then [] else [Job(bufs[0], 0)]) + Fresh(bufs[1..])
  }

  /** The stream takes writes and the argument of this one is not empty. */
  predicate Acceptable(s: Stream, bufs: seq<seq<byte>>, table: bool) {
    s.writable && (table || (|bufs| == 1 && bufs[0] != []))
  }

  lemma {:induction false} QueueAllIs(s: Stream, bufs: seq<seq<byte>>, room: nat)
    ensures var (q, ok) := QueueAll(s, bufs, room);
            && (ok <==> Demand(bufs) <= room)
            && (ok ==> q == s.(jobs := s.jobs + Fresh(bufs), offered := s.offered + Concat(bufs)))
            && (!ok && |bufs| == 1 ==> q == s)
            && q == s.(jobs := q.jobs, offered := q.offered)
    decreases |bufs|
  {
    if bufs == [] {
      assert s.jobs + [] == s.jobs && s.offered + [] == s.offered;
    } else if bufs[0] == [] {
      assert bufs[0] + Concat(bufs[1..]) == Concat(bufs[1..]) && [] + Fresh(bufs[1..]) == Fresh(bufs[1..]);
      QueueAllIs(s, bufs[1..], room);
    } else if room > 0 {
      var t := s.(jobs := s.jobs + [Job(bufs[0], 0)], offered := s.offered + bufs[0]);
      MoveTwo(s.jobs, [Job(bufs[0], 0)], Fresh(bufs[1..]));
      MoveTwo(s.offered, bufs[0], Concat(bufs[1..]));
      QueueAllIs(t, bufs[1..], room - 1);
    }
  }

  /** A write gets as far as registering the stream exactly when the stream takes writes, the argument is
      acceptable, and every buffer that is not empty finds room.  Then each of those is queued as one job, in order,
      behind what was there.  Otherwise a table that runs out of room takes the whole queue with it, and
      everything else leaves the queue alone.  The handler is stored as soon as the argument is acceptable. */
  lemma QueuedIs(s: Stream, bufs: seq<seq<byte>>, table: bool, room: nat, handler: bool)
    ensures var (q, registers) := Queued(s, bufs, table, room, handler);
            && (registers <==> Acceptable(s, bufs, table) && Demand(bufs) <= room)
            && (registers ==> q.jobs == s.jobs + Fresh(bufs) && q.offered == s.offered + Concat(bufs)
                              && q.taken == s.taken)
            && (!registers && !(table && s.writable) ==>
                  q.jobs == s.jobs && q.offered == s.offered && q.taken == s.taken)
            && (!registers && table && s.writable ==> q.jobs == [] && q.offered == [] && q.taken == [])
            && q.writeHandler == (s.writeHandler || (handler && Acceptable(s, bufs, table)))
            && q == s.(jobs := q.jobs, offered := q.offered, taken := q.taken, writeHandler := q.writeHandler)
  {
    QueueAllIs(if handler then s.(writeHandler := true) else s, bufs, room);
  }

  /** So what is unsent afterwards is what was unsent before, followed by all buffers. */
  lemma {:induction false} FreshUnsent(jobs: seq<Job>, bufs: seq<seq<byte>>)
    requires OnlyHeadBegun(jobs) && JobsOk(jobs)
    ensures var all := jobs + Fresh(bufs);
            && JobsOk(all) && OnlyHeadBegun(all) && |all| == |jobs| + Demand(bufs)
            && Unsent(all) == Unsent(jobs) + Concat(bufs)
    decreases |bufs|
  {
    hide Unsent;
    if bufs == [] {
      assert jobs + [] == jobs && Unsent(jobs) + [] == Unsent(jobs);
    } else if bufs[0] == [] {
      assert bufs[0] + Concat(bufs[1..]) == Concat(bufs[1..]) && [] + Fresh(bufs[1..]) == Fresh(bufs[1..]);
      FreshUnsent(jobs, bufs[1..]);
    } else {
      var one := [Job(bufs[0], 0)];
      UnsentAppend(jobs, bufs[0]);
      FreshUnsent(jobs + one, bufs[1..]);
      MoveTwo(jobs, one, Fresh(bufs[1..]));
      MoveTwo(Unsent(jobs), bufs[0], Concat(bufs[1..]));
    }
  }

  // ------------------------------------------------------------------ one dispatch

  /** A dispatch that does not settle keeps what the descriptor has not taken, and only that. */
  lemma DispatchConserves(l: Loop, id: nat, kernel: seq<WriteResult>)
    requires LoopJobsOk(l) && id in l.streams && l.streams[id].jobs != []
    requires Drain(l.streams[id].jobs, kernel).status == 0
    ensures var s, d := l.streams[id], DrainStream(l, id, kernel);
            var wire := Drain(s.jobs, kernel).wire;
            && id in d.loop.streams && d.loop == l.(streams := l.streams[id := d.loop.streams[id]])
            && d.loop.streams[id].taken == s.taken + wire
            && JobsOk(d.loop.streams[id].jobs)
            && wire + Unsent(d.loop.streams[id].jobs) == Unsent(s.jobs)
            && d.loop.streams[id] == s.(jobs := d.loop.streams[id].jobs, taken := s.taken + wire)
  {
    DrainConserves(l.streams[id].jobs, kernel);
  }

  // ------------------------------------------------------------------ whole runs

  /** What has been offered to one stream, and what its descriptor has taken, since the queue was last dropped; told
      from the operations and the answers of the kernel. */
  datatype Ledger = Ledger(offered: seq<byte>, wire: seq<byte>)

  const BLANK_LEDGER := Ledger([], [])

  function OpEntry(l: Loop, op: Op, id: nat, k: Ledger): Ledger {
    match op
    case Open(x, _, _) => if x == id && id !in l.streams then BLANK_LEDGER else k
    case Write(x, bufs, table, room, _) =>
      if x != id || id !in l.streams || !Acceptable(l.streams[id], bufs, table) then k
      else if Demand(bufs) <= room then k.(offered := k.offered + Concat(bufs))
      else if table then BLANK_LEDGER
      else k
    case DataHandler(_, _, _) => k
    case Close(x, _) => if x == id then BLANK_LEDGER else k
  }

  function ScriptEntry(l: Loop, script: seq<Op>, id: nat, k: Ledger): Ledger
    decreases |script|
  {
    if script == [] then k else ScriptEntry(Apply(l, script[0]), script[1..], id, OpEntry(l, script[0], id, k))
  }

  /** The drain of the stream adds to what the descriptor has taken; one that empties or fails the queue drops it. */
  function DrainEntry(l: Loop, own: nat, kernel: seq<WriteResult>, id: nat, k: Ledger): Ledger
    requires LoopJobsOk(l) && own in l.streams
  {
    if own != id || l.streams[id].jobs == [] then k
    else
      var out := Drain(l.streams[id].jobs, kernel);
      if out.status == 0 then k.(wire := k.wire + out.wire) else BLANK_LEDGER
  }

  function EventEntry(l: Loop, e: Event, id: nat, k: Ledger): Ledger
    requires LoopJobsOk(l)
  {
    match e
    case Basic(op) => OpEntry(l, op, id, k)
    case DataIn(tag, script, _) =>
      if !Known(l, tag) || !l.streams[l.tags[tag]].dataHandler then k
      else
        var own := l.tags[tag];
        ScriptEntry(l.(streams := l.streams[own := l.streams[own].(dataRearmed := false)]), script, id, k)
    case DataOut(tag, kernel, script) =>
      if !Known(l, tag) then k
      else
        var own := l.tags[tag];
        var d, k' := DrainStream(l, own, kernel), DrainEntry(l, own, kernel, id, k);
        if d.called then ScriptEntry(d.loop, script, id, k') else k'
  }

  function RunEntry(l: Loop, run: seq<Event>, id: nat, k: Ledger): Ledger
    requires LoopJobsOk(l)
    decreases |run|
  {
    if run == [] then k
    else
      EventFills(l, run[0], id);
      RunEntry(Handle(l, run[0]), run[1..], id, EventEntry(l, run[0], id, k))
  }

  /** What the descriptor has taken, followed by what is still queued, is what was offered. */
  predicate Balances(l: Loop, id: nat, k: Ledger) {
    id in l.streams ==>
      var jobs := l.streams[id].jobs;
      JobsOk(jobs) && OnlyHeadBegun(jobs) && k.wire + Unsent(jobs) == k.offered
  }

  lemma StreamBalances(l: Loop, id: nat, k: Ledger, l': Loop)
    requires Balances(l, id, k)
    requires id in l'.streams ==> id in l.streams && l'.streams[id].jobs == l.streams[id].jobs
    ensures Balances(l', id, k)
  {
  }

  lemma EmptyBalances(l: Loop, id: nat)
    requires id in l.streams ==> l.streams[id].jobs == []
    ensures Balances(l, id, BLANK_LEDGER)
  {
  }

  lemma WriteBalances(l: Loop, op: Op, id: nat, k: Ledger)
    requires Balances(l, id, k) && op.Write? && op.id == id && id in l.streams
    ensures Balances(Apply(l, op), id, OpEntry(l, op, id, k))
  {
    var s, l' := l.streams[id], Apply(l, op);
    var q := Queued(s, op.bufs, op.table, op.room, op.handler).0;
    QueuedIs(s, op.bufs, op.table, op.room, op.handler);
    FreshUnsent(s.jobs, op.bufs);
    StreamsAfterWrite(l, op);
    hide Apply, Queued, Unsent, OnlyHeadBegun, Fresh, Demand, Concat;
    if Acceptable(s, op.bufs, op.table) && Demand(op.bufs) <= op.room {
      MoveTwo(k.wire, Unsent(s.jobs), Concat(op.bufs));
    } else if op.table && s.writable {
      EmptyBalances(l', id);
    } else {
      StreamBalances(l, id, k, l');
    }
  }

  lemma StreamsAfterWrite(l: Loop, op: Op)
    requires op.Write? && op.id in l.streams
    ensures Apply(l, op).streams
            == l.streams[op.id := Queued(l.streams[op.id], op.bufs, op.table, op.room, op.handler).0]
  {
    hide Queued;
  }

  lemma OpBalances(l: Loop, op: Op, id: nat, k: Ledger)
    requires Balances(l, id, k)
    ensures Balances(Apply(l, op), id, OpEntry(l, op, id, k))
  {
    if op.Write? && op.id == id && id in l.streams {
      WriteBalances(l, op, id, k);
    } else {
      hide Queued, Balances, Apply;
      StreamsAfter(l, op);
      if id in l.streams || id !in Apply(l, op).streams {
        if op.Close? && op.id == id {
          EmptyBalances(Apply(l, op), id);
        } else {
          StreamBalances(l, id, k, Apply(l, op));
        }
      } else {
        EmptyBalances(Apply(l, op), id);
      }
    }
  }

  lemma {:induction false} ScriptBalances(l: Loop, script: seq<Op>, id: nat, k: Ledger)
    requires Balances(l, id, k)
    ensures Balances(ApplyAll(l, script), id, ScriptEntry(l, script, id, k))
    decreases |script|
  {
    hide Apply, OpEntry, Balances;
    if script != [] {
      OpBalances(l, script[0], id, k);
      ScriptBalances(Apply(l, script[0]), script[1..], id, OpEntry(l, script[0], id, k));
    }
  }

  lemma DrainBalances(l: Loop, own: nat, kernel: seq<WriteResult>, id: nat, k: Ledger)
    requires LoopJobsOk(l) && own in l.streams && Balances(l, id, k)
    ensures Balances(DrainStream(l, own, kernel).loop, id, DrainEntry(l, own, kernel, id, k))
  {
    var s, l' := l.streams[own], DrainStream(l, own, kernel).loop;
    hide Unsent, Drain;
    if own != id || s.jobs == [] {
      StreamBalances(l, id, k, l');
    } else if Drain(s.jobs, kernel).status == 0 {
      var out := Drain(s.jobs, kernel);
      DispatchConserves(l, id, kernel);
      DrainShape(s.jobs, kernel);
      MoveTwo(k.wire, out.wire, Unsent(out.jobs));
    } else {
      EmptyBalances(l', id);
    }
  }

  lemma EventBalances(l: Loop, e: Event, id: nat, k: Ledger)
    requires LoopJobsOk(l) && Balances(l, id, k)
    ensures Balances(Handle(l, e), id, EventEntry(l, e, id, k))
  {
    hide Balances, DrainEntry, OpEntry, ScriptEntry, ApplyAll, Apply, DrainStream;
    match e
    case Basic(op) => OpBalances(l, op, id, k);
    case DataIn(tag, script, keep) =>
      if Known(l, tag) && l.streams[l.tags[tag]].dataHandler {
        var own := l.tags[tag];
        var a := l.(streams := l.streams[own := l.streams[own].(dataRearmed := false)]);
        StreamBalances(l, id, k, a);
        ScriptBalances(a, script, id, k);
        StreamBalances(ApplyAll(a, script), id, EventEntry(l, e, id, k), Handle(l, e));
      }
    case DataOut(tag, kernel, script) =>
      if Known(l, tag) {
        var d, k' := DrainStream(l, l.tags[tag], kernel), DrainEntry(l, l.tags[tag], kernel, id, k);
        DrainBalances(l, l.tags[tag], kernel, id, k);
        if d.called {
          ScriptBalances(d.loop, script, id, k');
          StreamBalances(ApplyAll(d.loop, script), id, EventEntry(l, e, id, k), Handle(l, e));
        }
      }
  }

  /** Over any run, with callbacks that write, re-arm, open and close as they please: the bytes a stream's
      descriptor has taken since its queue was last dropped, followed by those still queued, are the bytes offered to
      it since then, in order; each is on the wire once. */
  lemma {:induction false} RunBalances(l: Loop, run: seq<Event>, id: nat, k: Ledger)
    requires LoopJobsOk(l) && Balances(l, id, k)
    ensures Balances(After(l, run), id, RunEntry(l, run, id, k))
    decreases |run|
  {
    hide Balances, Handle, EventEntry, LoopJobsOk;
    if run != [] {
      EventFills(l, run[0], id);
      EventBalances(l, run[0], id, k);
      RunBalances(Handle(l, run[0]), run[1..], id, EventEntry(l, run[0], id, k));
    }
  }

  /** From an empty loop, at whatever point of whatever run a dispatch calls the write handler: it is told success
      exactly when, with what the descriptor takes in this dispatch, every byte offered since the queue was last
      dropped has reached the descriptor. */
  lemma SuccessMeansDelivered(run: seq<Event>, id: nat, kernel: seq<WriteResult>)
    requires id in After(EMPTY_LOOP, run).streams
    ensures var l, k := After(EMPTY_LOOP, run), RunEntry(EMPTY_LOOP, run, id, BLANK_LEDGER);
            var d, out := DrainStream(l, id, kernel), Drain(l.streams[id].jobs, kernel);
            && (d.called <==> l.streams[id].jobs != [] && l.streams[id].writeHandler && out.status != 0)
            && (d.called ==> (d.success <==> k.wire + out.wire == k.offered))
  {
    var l, k := After(EMPTY_LOOP, run), RunEntry(EMPTY_LOOP, run, id, BLANK_LEDGER);
    var jobs := l.streams[id].jobs;
    EmptyBalances(EMPTY_LOOP, id);
    RunBalances(EMPTY_LOOP, run, id, BLANK_LEDGER);
    DrainStatus(jobs, kernel);
    hide Unsent, Drain, After, RunEntry, OnlyHeadBegun;
    SameFront(k.wire, Drain(jobs, kernel).wire, Unsent(jobs));
  }

  lemma SameFront<T>(a: seq<T>, b: seq<T>, c: seq<T>)
    ensures a + b == a + c <==> b == c
  {
    if a + b == a + c {
      assert (a + b)[|a|..] == b && (a + c)[|a|..] == c;
    }
  }
}
