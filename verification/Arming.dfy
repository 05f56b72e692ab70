/** Which data handler a stream has after a dispatch (`alt_nbio_data_in` in `lua/nbio.c`), and whether it is polled. */
module Arming {
  import opened EventLoop
  import opened LoopInvariants
  import opened Delivery

  /** A stream as far as its data handler goes: whether it has one, and whether one was set since the last dispatch
      began. */
  datatype Armed = Gone | Armed(handler: bool, rearmed: bool)

  function ArmedOf(l: Loop, id: nat): Armed {
    if id in l.streams then Armed(l.streams[id].dataHandler, l.streams[id].dataRearmed) else Gone
  }

  /** What an operation does to it, told from the operation alone. */
  function ArmedBy(a: Armed, op: Op, id: nat): Armed {
    if op.id != id then a
    else
      match op
      case Open(_, _, _) => if a.Gone? then Armed(false, false) else a
      case Write(_, _, _, _, _) => a
      case DataHandler(_, install, _) => if a.Gone? then a else Armed(install, true)
      case Close(_, _) => Gone
  }

  function ArmedByAll(a: Armed, script: seq<Op>, id: nat): Armed
    decreases |script|
  {
    if script == [] then a else ArmedByAll(ArmedBy(a, script[0], id), script[1..], id)
  }

  lemma OpArms(l: Loop, op: Op, id: nat)
    ensures ArmedOf(Apply(l, op), id) == ArmedBy(ArmedOf(l, id), op, id)
  {
    hide Apply;
    StreamsAfter(l, op);
    if op.Write? && op.id in l.streams {
      QueuedIs(l.streams[op.id], op.bufs, op.table, op.room, op.handler);
    }
    hide Queued;
  }

  lemma {:induction false} ScriptArms(l: Loop, script: seq<Op>, id: nat)
    ensures ArmedOf(ApplyAll(l, script), id) == ArmedByAll(ArmedOf(l, id), script, id)
    decreases |script|
  {
    hide Apply, ArmedOf, ArmedBy;
    if script != [] {
      OpArms(l, script[0], id);
      ScriptArms(Apply(l, script[0]), script[1..], id);
    }
  }

  /** What one dispatch of a readable descriptor leaves, told from the operations of the callback and its answer:
      a handler that the callback sets is the handler afterwards, and the old one stays only if the answer asks for
      it. */
  function ArmedAfter(a: Armed, script: seq<Op>, keep: bool, own: bool, id: nat): Armed {
    var b := ArmedByAll(if own && a.Armed? then a.(rearmed := false) else a, script, id);
    if own && b.Armed? && !b.rearmed && !keep then b.(handler := false) else b
  }

  lemma RearmedOff(l: Loop, own: nat, id: nat)
    requires own in l.streams
    ensures var a := l.(streams := l.streams[own := l.streams[own].(dataRearmed := false)]);
            ArmedOf(a, id) == if own == id then Armed(l.streams[id].dataHandler, false) else ArmedOf(l, id)
  {
  }

  lemma DisarmArms(l: Loop, own: nat, tag: int, id: nat)
    requires own in l.streams
    ensures ArmedOf(Disarm(l, own, tag), id)
            == if own == id then Armed(false, l.streams[id].dataRearmed) else ArmedOf(l, id)
  {
    hide DropRead;
  }

  /** That is what the dispatch leaves of every stream; and every stream it keeps is polled for reading exactly if
      it then has a handler. */
  lemma DataInArms(l: Loop, tag: int, script: seq<Op>, keep: bool, id: nat)
    requires LoopJobsOk(l) && Known(l, tag) && l.streams[l.tags[tag]].dataHandler
    ensures var e, own := DataIn(tag, script, keep), l.tags[tag];
            var l' := Handle(l, e);
            && ArmedOf(l', id) == ArmedAfter(ArmedOf(l, id), script, keep, own == id, id)
            && (Inv(l) && SafeEvent(l, e) && id in l'.streams ==>
                  (l'.streams[id].fd in l'.ins <==> ArmedOf(l', id).handler))
  {
    hide ApplyAll, DropRead, SafeEvent, ArmedByAll, Inv, Disarm;
    var own := l.tags[tag];
    var a := l.(streams := l.streams[own := l.streams[own].(dataRearmed := false)]);
    RearmedOff(l, own, id);
    ScriptArms(a, script, id);
    var b := ApplyAll(a, script);
    if Unwanted(b, own, keep) {
      DisarmArms(b, own, tag, id);
    }
    if Inv(l) && SafeEvent(l, DataIn(tag, script, keep)) {
      EventKeeps(l, DataIn(tag, script, keep));
      PolledIff(Handle(l, DataIn(tag, script, keep)), id);
    }
  }

  lemma PolledIff(l: Loop, id: nat)
    requires Inv(l)
    ensures id in l.streams ==> (l.streams[id].fd in l.ins <==> ArmedOf(l, id).handler)
  {
  }

  /** Whether the operation sets a handler of the stream, or closes it. */
  predicate Touches(op: Op, id: nat) {
    op.id == id && (op.DataHandler? || op.Close?)
  }

  lemma {:induction false} UntouchedStays(a: Armed, script: seq<Op>, id: nat)
    requires a.Armed? && forall i :: 0 <= i < |script| ==> !Touches(script[i], id)
    ensures ArmedByAll(a, script, id) == a
    decreases |script|
  {
    if script != [] {
      assert !Touches(script[0], id);
      assert forall i :: 0 <= i < |script[1..]| ==> script[1..][i] == script[i + 1];
      UntouchedStays(a, script[1..], id);
    }
  }

  lemma {:induction false} ArmedByParts(a: Armed, first: seq<Op>, second: seq<Op>, id: nat)
    ensures ArmedByAll(a, first + second, id) == ArmedByAll(ArmedByAll(a, first, id), second, id)
    decreases |first|
  {
    hide ArmedBy;
    if first == [] {
      assert first + second == second;
    } else {
      assert (first + second)[1..] == first[1..] + second;
      ArmedByParts(ArmedBy(a, first[0], id), first[1..], second, id);
    }
  }

  /** A callback that leaves its stream alone keeps the handler exactly when it answers true. */
  lemma AnswerDecides(l: Loop, tag: int, script: seq<Op>, keep: bool)
    requires LoopJobsOk(l) && Known(l, tag) && l.streams[l.tags[tag]].dataHandler
    requires forall i :: 0 <= i < |script| ==> !Touches(script[i], l.tags[tag])
    ensures ArmedOf(Handle(l, DataIn(tag, script, keep)), l.tags[tag]) == Armed(keep, false)
  {
    UntouchedStays(Armed(true, false), script, l.tags[tag]);
    DataInArms(l, tag, script, keep, l.tags[tag]);
    hide Handle;
  }

  /** A handler that the callback sets last, or takes away last, is set or gone afterwards, whatever the
      callback answers. */
  lemma LastHandlerDecides(
    l: Loop, tag: int, first: seq<Op>, install: bool, stale: int, second: seq<Op>, keep: bool)
    requires LoopJobsOk(l) && Known(l, tag) && l.streams[l.tags[tag]].dataHandler
    requires forall i :: 0 <= i < |second| ==> !Touches(second[i], l.tags[tag])
    requires ArmedByAll(Armed(true, false), first, l.tags[tag]).Armed?
    ensures var id := l.tags[tag];
            var script := first + ([DataHandler(id, install, stale)] + second);
            ArmedOf(Handle(l, DataIn(tag, script, keep)), id) == Armed(install, true)
  {
    var id := l.tags[tag];
    var op, a := DataHandler(id, install, stale), ArmedByAll(Armed(true, false), first, id);
    ArmedByParts(Armed(true, false), first, [op] + second, id);
    assert ([op] + second)[1..] == second;
    UntouchedStays(Armed(install, true), second, id);
    assert ArmedByAll(a, [op] + second, id) == ArmedByAll(ArmedBy(a, op, id), second, id);
    hide ArmedByAll, Handle;
    DataInArms(l, tag, first + ([op] + second), keep, id);
  }
}
