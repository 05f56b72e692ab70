/** When a write handler is called (`alt_nbio_data_out` in `lua/nbio.c`), and what becomes of the poll entry. */
module WriteCompletion {
  import opened LineSplit
  import opened OutQueue
  import opened EventLoop
  import opened LoopInvariants

  // ------------------------------------------------------------------ one dispatch

  /** The write handler sees an empty queue, is told success exactly when every byte queued since the
      last reset reached the descriptor, and is called exactly when the drain of a non-empty queue did
      not stop for want of space. */
  lemma WriteHandlerContract(l: Loop, id: nat, kernel: seq<WriteResult>)
    requires Coherent(l) && LoopJobsOk(l) && id in l.streams
    ensures var s, d := l.streams[id], DrainStream(l, id, kernel);
            && (d.called <==> s.jobs != [] && s.writeHandler && Drain(s.jobs, kernel).status != 0)
            && (d.called ==> d.loop.streams[id].jobs == [])
            && (d.called ==> (d.success <==> s.taken + Drain(s.jobs, kernel).wire == s.offered))
  {
    var s := l.streams[id];
    assert Accounts(s);
    var out := Drain(s.jobs, kernel);
    DrainStatus(s.jobs, kernel);
    DrainConserves(s.jobs, kernel);
    if out.status == 1 {
      assert Unsent(s.jobs) == out.wire;
    } else {
      assert |out.wire| != |Unsent(s.jobs)| by {
        UnsentEmpty(out.jobs);
        assert |out.wire| + |Unsent(out.jobs)| == |Unsent(s.jobs)|;
      }
    }
  }

  /** The dispatch empties or fails a queue that was not empty. */
  predicate Settles(l: Loop, tag: int, kernel: seq<WriteResult>)
    requires LoopJobsOk(l)
  {
    && Known(l, tag) && l.streams[l.tags[tag]].jobs != []
    && Drain(l.streams[l.tags[tag]].jobs, kernel).status != 0
  }

  /** The write entry of a queue that settles goes exactly when there is a write handler and it leaves nothing
      queued: work that it queues itself keeps its entry, and without a handler the entry of the finished
      queue stays for good. */
  lemma WriteEntryGoesIff(l: Loop, tag: int, kernel: seq<WriteResult>, script: seq<Op>)
    requires Inv(l) && LoopJobsOk(l) && SafeEvent(l, DataOut(tag, kernel, script)) && Settles(l, tag, kernel)
    ensures var id, l' := l.tags[tag], Handle(l, DataOut(tag, kernel, script));
            && id in l'.streams
            && (l'.streams[id].fd !in l'.outs <==> l.streams[id].writeHandler && l'.streams[id].jobs == [])
  {
    EventKeeps(l, DataOut(tag, kernel, script));
    if !l.streams[l.tags[tag]].writeHandler {
      Unhandled(l, l.tags[tag], kernel);
    }
  }

  lemma Unhandled(l: Loop, id: nat, kernel: seq<WriteResult>)
    requires Inv(l) && LoopJobsOk(l) && id in l.streams && l.streams[id].jobs != [] && !l.streams[id].writeHandler
    ensures var d := DrainStream(l, id, kernel);
            && !d.called && id in d.loop.streams && d.loop.streams[id].fd == l.streams[id].fd
            && l.streams[id].fd in d.loop.outs
  {
  }

  /** What the write handler queues is what is queued when the dispatch is over. */
  lemma HandlerWorkSurvives(l: Loop, tag: int, kernel: seq<WriteResult>, script: seq<Op>)
    requires Inv(l) && LoopJobsOk(l) && Known(l, tag) && SafeEvent(l, DataOut(tag, kernel, script))
    requires DrainStream(l, l.tags[tag], kernel).called
    ensures var id, l' := l.tags[tag], Handle(l, DataOut(tag, kernel, script));
            var after := ApplyAll(DrainStream(l, id, kernel).loop, script);
            && l'.streams == after.streams && id in l'.streams
            && (l'.streams[id].fd in l'.outs <==> l'.streams[id].jobs != [])
  {
    EventKeeps(l, DataOut(tag, kernel, script));
  }

  // ------------------------------------------------------------------ calls over a run

  /** Whether the event calls the write handler of the stream. */
  function Calls(l: Loop, e: Event, id: nat): nat
    requires LoopJobsOk(l)
  {
    if e.DataOut? && Known(l, e.tag) && l.tags[e.tag] == id && DrainStream(l, id, e.kernel).called then 1 else 0
  }

  /** Whether the operation offers the stream something to send. */
  function Fills(op: Op, id: nat): nat {
    if op.Write? && op.id == id && exists i :: 0 <= i < |op.bufs| && op.bufs[i] != [] then 1 else 0
  }

  function FillsAll(script: seq<Op>, id: nat): nat {
    if script == [] then 0 else Fills(script[0], id) + FillsAll(script[1..], id)
  }

  /** How often the operations that an event carries out offer the stream something to send. */
  function FillsEvent(l: Loop, e: Event, id: nat): nat
    requires LoopJobsOk(l)
  {
    match e
    case Basic(op) => Fills(op, id)
    case DataIn(tag, script, _) =>
      if Known(l, tag) && l.streams[l.tags[tag]].dataHandler then FillsAll(script, id) else 0
    case DataOut(tag, kernel, script) =>
      if Known(l, tag) && DrainStream(l, l.tags[tag], kernel).called then FillsAll(script, id) else 0
  }

  function Pending(l: Loop, id: nat): nat {
    if id in l.streams && l.streams[id].jobs != [] then 1 else 0
  }

  lemma {:induction false} QueueAllFills(s: Stream, bufs: seq<seq<byte>>, room: nat)
    requires JobsOk(s.jobs)
    ensures var q := QueueAll(s, bufs, room).0;
            JobsOk(q.jobs) && (q.jobs == [] || s.jobs != [] || exists i :: 0 <= i < |bufs| && bufs[i] != [])
    decreases |bufs|
  {
    if bufs != [] && bufs[0] == [] {
      QueueAllFills(s, bufs[1..], room);
      assert forall i :: 0 <= i < |bufs[1..]| ==> bufs[1..][i] == bufs[i + 1];
    } else if bufs != [] && room > 0 {
      QueueAllFills(s.(jobs := s.jobs + [Job(bufs[0], 0)], offered := s.offered + bufs[0]), bufs[1..], room - 1);
    }
  }

  lemma QueuedFills(s: Stream, bufs: seq<seq<byte>>, table: bool, room: nat, handler: bool)
    requires JobsOk(s.jobs)
    ensures var q := Queued(s, bufs, table, room, handler).0;
            JobsOk(q.jobs) && (q.jobs == [] || s.jobs != [] || exists i :: 0 <= i < |bufs| && bufs[i] != [])
  {
    QueueAllFills(if handler then s.(writeHandler := true) else s, bufs, room);
  }

  lemma OpFills(l: Loop, op: Op, id: nat)
    requires LoopJobsOk(l)
    ensures LoopJobsOk(Apply(l, op)) && Pending(Apply(l, op), id) <= Pending(l, id) + Fills(op, id)
  {
    hide Apply, Queued;
    StreamsAfter(l, op);
    if op.Write? && op.id in l.streams {
      QueuedFills(l.streams[op.id], op.bufs, op.table, op.room, op.handler);
    }
  }

  lemma {:induction false} ScriptFills(l: Loop, script: seq<Op>, id: nat)
    requires LoopJobsOk(l)
    ensures LoopJobsOk(ApplyAll(l, script))
    ensures Pending(ApplyAll(l, script), id) <= Pending(l, id) + FillsAll(script, id)
    decreases |script|
  {
    hide LoopJobsOk, Apply, Pending, Fills;
    if script != [] {
      OpFills(l, script[0], id);
      ScriptFills(Apply(l, script[0]), script[1..], id);
    }
  }

  lemma StreamPut(l: Loop, id: nat, s: Stream, other: nat)
    requires LoopJobsOk(l) && id in l.streams && JobsOk(s.jobs)
    ensures var l' := l.(streams := l.streams[id := s]);
            && LoopJobsOk(l')
            && Pending(l', other) == if other == id then (if s.jobs != [] then 1 else 0) else Pending(l, other)
  {
  }

  lemma SameStreams(l: Loop, l': Loop, id: nat)
    requires l'.streams == l.streams
    ensures LoopJobsOk(l') == LoopJobsOk(l) && Pending(l', id) == Pending(l, id)
  {
  }

  /** A drain fills nothing, and one that calls the handler has emptied the queue. */
  lemma DrainFills(l: Loop, id: nat, kernel: seq<WriteResult>, other: nat)
    requires LoopJobsOk(l) && id in l.streams
    ensures var d := DrainStream(l, id, kernel);
            && LoopJobsOk(d.loop) && id in d.loop.streams
            && Pending(d.loop, other) + (if other == id && d.called then 1 else 0) <= Pending(l, other)
  {
    var s := l.streams[id];
    if s.jobs != [] {
      var out := Drain(s.jobs, kernel);
      var drained := s.(jobs := out.jobs, taken := s.taken + out.wire);
      StreamPut(l, id, drained, other);
      StreamPut(l, id, Settle(drained), other);
      assert JobsOk(l.streams[id].jobs);
    }
  }

  /** Every call uses up a queue that was filled. */
  lemma EventFills(l: Loop, e: Event, id: nat)
    requires LoopJobsOk(l)
    ensures LoopJobsOk(Handle(l, e))
    ensures Calls(l, e, id) + Pending(Handle(l, e), id) <= Pending(l, id) + FillsEvent(l, e, id)
  {
    match e
    case Basic(op) => OpFills(l, op, id);
    case DataIn(tag, script, keep) => DataInFills(l, tag, script, keep, id);
    case DataOut(tag, kernel, script) => DataOutFills(l, tag, kernel, script, id);
  }

  lemma DataInFills(l: Loop, tag: int, script: seq<Op>, keep: bool, id: nat)
    requires LoopJobsOk(l)
    ensures var e := DataIn(tag, script, keep);
            LoopJobsOk(Handle(l, e)) && Pending(Handle(l, e), id) <= Pending(l, id) + FillsEvent(l, e, id)
  {
    hide LoopJobsOk, Pending, FillsAll, ApplyAll, DropRead;
    if Known(l, tag) && l.streams[l.tags[tag]].dataHandler {
      var own := l.tags[tag];
      JobsOkOf(l, own);
      StreamPut(l, own, l.streams[own].(dataRearmed := false), id);
      PendingOf(l, own);
      var a := DataInCallback(l, tag, script);
      ScriptFills(l.(streams := l.streams[own := l.streams[own].(dataRearmed := false)]), script, id);
      if Unwanted(a, own, keep) {
        JobsOkOf(a, own);
        PendingOf(a, own);
        var b := a.(streams := a.streams[own := a.streams[own].(dataHandler := false)]);
        StreamPut(a, own, a.streams[own].(dataHandler := false), id);
        SameStreams(b, Disarm(a, own, tag), id);
      }
    }
  }

  lemma JobsOkOf(l: Loop, id: nat)
    requires LoopJobsOk(l) && id in l.streams
    ensures JobsOk(l.streams[id].jobs)
  {
  }

  lemma PendingOf(l: Loop, id: nat)
    requires id in l.streams
    ensures Pending(l, id) == if l.streams[id].jobs != [] then 1 else 0
  {
  }

  lemma DataOutFills(l: Loop, tag: int, kernel: seq<WriteResult>, script: seq<Op>, id: nat)
    requires LoopJobsOk(l)
    ensures var e := DataOut(tag, kernel, script);
            && LoopJobsOk(Handle(l, e))
            && Calls(l, e, id) + Pending(Handle(l, e), id) <= Pending(l, id) + FillsEvent(l, e, id)
  {
    hide LoopJobsOk, Pending, FillsAll, ApplyAll, DropWrite, DrainStream;
    if Known(l, tag) {
      var own := l.tags[tag];
      var d := DrainStream(l, own, kernel);
      DrainFills(l, own, kernel, id);
      if d.called {
        var a := ApplyAll(d.loop, script);
        ScriptFills(d.loop, script, id);
        if own in a.streams {
          SameStreams(a, DropWrite(a, a.streams[own].fd), id);
        }
      }
    }
  }

  function CallsRun(l: Loop, run: seq<Event>, id: nat): nat
    requires LoopJobsOk(l)
    decreases |run|
  {
    if run == [] then 0
    else
      EventFills(l, run[0], id);
      Calls(l, run[0], id) + CallsRun(Handle(l, run[0]), run[1..], id)
  }

  function FillsRun(l: Loop, run: seq<Event>, id: nat): nat
    requires LoopJobsOk(l)
    decreases |run|
  {
    if run == [] then 0
    else
      EventFills(l, run[0], id);
      FillsEvent(l, run[0], id) + FillsRun(Handle(l, run[0]), run[1..], id)
  }

  function After(l: Loop, run: seq<Event>): (r: Loop)
    requires LoopJobsOk(l)
    ensures LoopJobsOk(r)
    decreases |run|
  {
    if run == [] then l
    else
      EventFills(l, run[0], 0);
      After(Handle(l, run[0]), run[1..])
  }

  /** Over any run, the write handler of a stream is called at most once for each time that something was
      offered to it, whatever the callbacks do. */
  lemma {:induction false} CallsAreFilled(l: Loop, run: seq<Event>, id: nat)
    requires LoopJobsOk(l)
    ensures CallsRun(l, run, id) + Pending(After(l, run), id) <= Pending(l, id) + FillsRun(l, run, id)
    decreases |run|
  {
    hide LoopJobsOk, Handle, Calls, FillsEvent, Pending;
    if run != [] {
      EventFills(l, run[0], id);
      CallsAreFilled(Handle(l, run[0]), run[1..], id);
    }
  }

  /** Between two calls of the write handler of a stream something was offered to it: by the handler itself
      during the first call, or after it. */
  lemma FilledBetweenCalls(l: Loop, first: Event, run: seq<Event>, second: Event, id: nat)
    requires LoopJobsOk(l) && LoopJobsOk(Handle(l, first)) && Calls(l, first, id) == 1
    requires Calls(After(Handle(l, first), run), second, id) == 1
    ensures FillsEvent(l, first, id) + FillsRun(Handle(l, first), run, id) > 0
  {
    var a := Handle(l, first);
    EventFills(l, first, id);
    CallsAreFilled(a, run, id);
    assert Pending(After(a, run), id) == 1;
    hide Handle, After, FillsRun, FillsEvent;
  }
}
