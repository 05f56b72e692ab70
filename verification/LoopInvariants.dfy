/** What the operations and dispatches of module EventLoop keep: the invariant behind "no lost wakeup". */
module LoopInvariants {
  import opened Common
  import opened LineSplit
  import opened OutQueue
  import opened PollSet
  import opened EventLoop

  // ------------------------------------------------------------------ what each step keeps

  /** The kernel never hands out a descriptor that is still open. */
  predicate Plausible(l: Loop, op: Op) {
    op.Open? && op.id !in l.streams ==> forall id :: id in l.streams ==> l.streams[id].fd != op.fd
  }

  lemma StreamChanged(l: Loop, id: nat, s: Stream)
    requires Coherent(l) && id in l.streams && s.fd == l.streams[id].fd && Accounts(s)
    ensures Coherent(l.(streams := l.streams[id := s]))
  {
  }

  lemma DropWriteCoherent(l: Loop, fd: int)
    requires Coherent(l)
    ensures Coherent(DropWrite(l, fd))
  {
    SizeMinus(l.outs, fd);
    if fd in l.outs {
      var a := l.(outs := l.outs - {fd});
      assert Coherent(a);
      ReleaseCoherent(a, l.outs[fd]);
    }
  }

  /** A read removal does not release the tag of an entry that stays. */
  predicate Harmless(l: Loop, fd: int, stale: int) {
    fd in l.ins && fd !in l.outs ==>
      (forall f :: f in l.ins && f != fd ==> l.ins[f] != stale) && (forall f :: f in l.outs ==> l.outs[f] != stale)
  }

  lemma DropReadCoherent(l: Loop, fd: int, stale: int)
    requires Coherent(l) && Harmless(l, fd, stale)
    ensures Coherent(DropRead(l, fd, stale))
  {
    SizeMinus(l.ins, fd);
    var a := l.(ins := l.ins - {fd});
    ForgetReadCoherent(l, fd);
    if fd in l.ins && fd !in l.outs {
      ReleaseCoherent(a, stale);
      DropWriteCoherent(a.(tags := a.tags - {stale}), fd);
    } else {
      DropWriteCoherent(a, fd);
    }
    hide Coherent, DropWrite;
  }

  lemma ForgetReadCoherent(l: Loop, fd: int)
    requires Coherent(l)
    ensures Coherent(l.(ins := l.ins - {fd}))
  {
    SizeMinus(l.ins, fd);
  }

  lemma ReleaseCoherent(l: Loop, tag: int)
    requires Coherent(l)
    requires (forall f :: f in l.ins ==> l.ins[f] != tag) && (forall f :: f in l.outs ==> l.outs[f] != tag)
    ensures Coherent(l.(tags := l.tags - {tag}))
  {
  }

  /** Otherwise that entry is left with a tag that is not live any more. */
  lemma HarmfulLeavesDeadTag(l: Loop, l': Loop, fd: int, stale: int)
    requires Coherent(l) && !Harmless(l, fd, stale)
    requires forall f :: f in l.ins && f != fd ==> f in l'.ins && l'.ins[f] == l.ins[f]
    requires forall f :: f in l.outs && f != fd ==> f in l'.outs && l'.outs[f] == l.outs[f]
    requires forall t :: t in l'.tags && t < l.next ==> t != stale
    ensures !Coherent(l')
  {
  }

  lemma AddWriteCoherent(l: Loop, id: nat, fd: int)
    requires Coherent(l) && id in l.streams && l.streams[id].fd == fd && fd !in l.outs
    ensures Coherent(AddWrite(l, id, fd))
  {
    SizePlus(l.outs, fd, l.next);
  }

  lemma ArmCoherent(l: Loop, id: nat, fd: int)
    requires Coherent(l) && id in l.streams && l.streams[id].fd == fd && fd !in l.ins
    ensures Coherent(Arm(l, id, fd))
  {
    hide Own, Known, Accounts;
    var l' := Arm(l, id, fd);
    SizePlus(l.ins, fd, l.next);
    OwnGrows(l, l', l.outs);
    OwnGrows(l, l', l.ins);
    OwnBounds(l, l.outs);
    if |l.ins| < LIMIT_JOBS {
      OwnAdds(l', l.ins, id, fd, l.next);
    }
  }

  lemma OwnBounds(l: Loop, m: map<int, int>)
    requires Own(l, m)
    ensures forall f :: f in m ==> m[f] < l.next
  {
  }

  /** Entries stay owned while streams stay and tags are only added. */
  lemma OwnGrows(l: Loop, l': Loop, m: map<int, int>)
    requires Own(l, m) && l'.streams == l.streams && l'.next >= l.next
    requires forall t :: t in l.tags && t < l.next ==> t in l'.tags && l'.tags[t] == l.tags[t]
    ensures Own(l', m)
  {
  }

  lemma OwnAdds(l: Loop, m: map<int, int>, id: nat, fd: int, tag: int)
    requires Own(l, m) && tag in l.tags && l.tags[tag] == id && tag < l.next
    requires id in l.streams && l.streams[id].fd == fd
    ensures Own(l, m[fd := tag])
  {
  }

  // ------------------------------------------------------------------ one operation

  lemma {:induction false} QueueAllKeeps(s: Stream, bufs: seq<seq<byte>>, room: nat)
    requires Accounts(s) && s.writable
    ensures var q := QueueAll(s, bufs, room).0;
            Accounts(q) && q == s.(jobs := q.jobs, offered := q.offered)
    decreases |bufs|
  {
    if bufs != [] && bufs[0] == [] {
      QueueAllKeeps(s, bufs[1..], room);
    } else if bufs != [] && room > 0 {
      UnsentAppend(s.jobs, bufs[0]);
      MoveTwo(s.taken, Unsent(s.jobs), bufs[0]);
      QueueAllKeeps(s.(jobs := s.jobs + [Job(bufs[0], 0)], offered := s.offered + bufs[0]), bufs[1..], room - 1);
    }
  }

  lemma QueuedKeeps(s: Stream, bufs: seq<seq<byte>>, table: bool, room: nat, handler: bool)
    requires Accounts(s)
    ensures var (q, registers) := Queued(s, bufs, table, room, handler);
            && Accounts(q) && q.fd == s.fd && q.dataHandler == s.dataHandler
            && (!registers ==> q.jobs == s.jobs || q.jobs == [])
  {
    if s.writable && (table || (|bufs| == 1 && bufs[0] != [])) {
      var armed := if handler then s.(writeHandler := true) else s;
      QueueAllKeeps(armed, bufs, room);
      if !table {
        assert bufs[1..] == [];
      }
    }
  }

  /** What decides before an operation: a write that leaves something queued finds room in the poll set;
      handlers are exchanged only while nothing is waiting to be written, with room for the new one; and the
      uninitialised variable does not happen to hold the tag of an entry that stays. */
  predicate Safe(l: Loop, op: Op) {
    match op
    case Open(_, _, _) => true
    case Write(id, bufs, table, room, handler) =>
      id in l.streams ==>
        var (s, registers) := Queued(l.streams[id], bufs, table, room, handler);
        registers && s.jobs != [] ==> HasRoom(l.outs, s.fd)
    case DataHandler(id, install, stale) =>
      id in l.streams ==>
        && l.streams[id].jobs == [] && (install ==> HasRoom(l.ins, l.streams[id].fd))
        && Harmless(l, l.streams[id].fd, stale)
    case Close(id, stale) => id in l.streams ==> Harmless(l, l.streams[id].fd, stale)
  }

  lemma OpenCoherent(l: Loop, id: nat, fd: int, writable: bool)
    requires Coherent(l) && Plausible(l, Open(id, fd, writable))
    ensures Coherent(Apply(l, Open(id, fd, writable)))
  {
  }

  lemma WriteCoherent(l: Loop, id: nat, bufs: seq<seq<byte>>, table: bool, room: nat, handler: bool)
    requires Coherent(l) && id in l.streams
    ensures Coherent(Apply(l, Write(id, bufs, table, room, handler)))
  {
    var s := Queued(l.streams[id], bufs, table, room, handler).0;
    var l' := l.(streams := l.streams[id := s]);
    assert Accounts(l.streams[id]);
    QueuedKeeps(l.streams[id], bufs, table, room, handler);
    StreamChanged(l, id, s);
    hide Coherent, Queued;
    DropWriteCoherent(l', s.fd);
    AddWriteCoherent(DropWrite(l', s.fd), id, s.fd);
  }

  lemma DataHandlerCoherentIff(l: Loop, id: nat, install: bool, stale: int)
    requires Coherent(l) && id in l.streams
    ensures Coherent(Apply(l, DataHandler(id, install, stale))) <==> Harmless(l, l.streams[id].fd, stale)
  {
    var s := l.streams[id].(dataHandler := install, dataRearmed := true);
    var a := l.(streams := l.streams[id := s]);
    AccountsOf(l, id);
    StreamChanged(l, id, s);
    hide Coherent;
    if Harmless(l, s.fd, stale) {
      DropReadCoherent(a, s.fd, stale);
      ArmCoherent(DropRead(a, s.fd, stale), id, s.fd);
    } else {
      DataHandlerLeaves(l, id, install, stale);
      HarmfulLeavesDeadTag(l, Apply(l, DataHandler(id, install, stale)), s.fd, stale);
    }
  }

  lemma AccountsOf(l: Loop, id: nat)
    requires Coherent(l) && id in l.streams
    ensures Accounts(l.streams[id])
  {
  }

  lemma DataHandlerLeaves(l: Loop, id: nat, install: bool, stale: int)
    requires id in l.streams && l.streams[id].fd in l.ins && l.streams[id].fd !in l.outs
    ensures var l', fd := Apply(l, DataHandler(id, install, stale)), l.streams[id].fd;
            && (forall f :: f in l.ins && f != fd ==> f in l'.ins && l'.ins[f] == l.ins[f])
            && (forall f :: f in l.outs && f != fd ==> f in l'.outs && l'.outs[f] == l.outs[f])
            && (forall t :: t in l'.tags && t < l.next ==> t != stale)
  {
  }

  lemma CloseCoherentIff(l: Loop, id: nat, stale: int)
    requires Coherent(l) && id in l.streams
    ensures Coherent(Apply(l, Close(id, stale))) <==> Harmless(l, l.streams[id].fd, stale)
  {
    var fd := l.streams[id].fd;
    var l' := Apply(l, Close(id, stale));
    hide Coherent;
    if Harmless(l, fd, stale) {
      DropReadCoherent(l, fd, stale);
      var a := DropRead(l, fd, stale);
      assert fd !in a.ins && fd !in a.outs;
      assert l' == a.(streams := l.streams - {id});
      RemoveStreamCoherent(a, id);
    } else {
      assert forall t :: t in l'.tags ==> t != stale;
      HarmfulLeavesDeadTag(l, l', fd, stale);
    }
  }

  lemma RemoveStreamCoherent(l: Loop, id: nat)
    requires Coherent(l) && id in l.streams && l.streams[id].fd !in l.ins && l.streams[id].fd !in l.outs
    ensures Coherent(l.(streams := l.streams - {id}))
  {
  }

  lemma UpdateMinus<K, V>(m: map<K, V>, k: K, v: V)
    ensures m[k := v] - {k} == m - {k}
  {
  }

  /** The invariants of the other streams do not notice what happens to one stream and its entries. */
  lemma OthersUnchanged(l: Loop, l': Loop, id: nat)
    requires Inv(l) && id in l.streams && l'.streams - {id} == l.streams - {id}
    requires Coherent(l') && id in l'.streams && l'.streams[id].fd == l.streams[id].fd
    requires forall fd :: fd != l.streams[id].fd ==> (fd in l'.outs <==> fd in l.outs)
    requires forall fd :: fd != l.streams[id].fd ==> (fd in l'.ins <==> fd in l.ins)
    ensures var s := l'.streams[id];
            && (NoLostWakeup(l') <==> (s.jobs != [] ==> s.fd in l'.outs))
            && (ArmedIff(l') <==> (s.dataHandler <==> s.fd in l'.ins))
  {
    forall x | x in l'.streams && x != id
      ensures x in l.streams && l'.streams[x] == l.streams[x] && l.streams[x].fd != l.streams[id].fd
    {
      assert x in l'.streams - {id};
      assert l'.streams[x] == (l'.streams - {id})[x] == (l.streams - {id})[x];
    }
  }

  lemma RegisterEffect(l: Loop, id: nat, fd: int)
    requires |l.outs| <= LIMIT_JOBS
    ensures var l' := Register(l, id, fd);
            && l'.ins == l.ins && l'.streams == l.streams
            && l'.outs.Keys == if HasRoom(l.outs, fd) then l.outs.Keys + {fd} else l.outs.Keys
  {
    var m := l.outs - {fd};
    SizeMinus(l.outs, fd);
    assert m.Keys == l.outs.Keys - {fd} && m[fd := l.next].Keys == m.Keys + {fd};
  }

  /** A write touches its own stream and the write entry of its descriptor only. */
  lemma WriteEffect(l: Loop, id: nat, bufs: seq<seq<byte>>, table: bool, room: nat, handler: bool)
    requires id in l.streams && |l.outs| <= LIMIT_JOBS
    ensures var l', s := Apply(l, Write(id, bufs, table, room, handler)), l.streams[id];
            var (q, registers) := Queued(s, bufs, table, room, handler);
            && l'.ins == l.ins && l'.streams == l.streams[id := q]
            && l'.outs.Keys == if registers && HasRoom(l.outs, q.fd) then l.outs.Keys + {q.fd} else l.outs.Keys
  {
    var q := Queued(l.streams[id], bufs, table, room, handler).0;
    RegisterEffect(l.(streams := l.streams[id := q]), id, q.fd);
    hide Register, Queued;
  }

  lemma OutsUnchanged(m: map<int, int>, m': map<int, int>, fd: int)
    requires m'.Keys == m.Keys || m'.Keys == m.Keys + {fd}
    ensures forall g :: g != fd ==> (g in m' <==> g in m)
  {
    assert forall g :: g in m'.Keys <==> g in m';
  }

  lemma WriteWakes(l: Loop, id: nat, bufs: seq<seq<byte>>, table: bool, room: nat, handler: bool)
    requires Inv(l) && id in l.streams
    ensures var l' := Apply(l, Write(id, bufs, table, room, handler));
            var q := Queued(l.streams[id], bufs, table, room, handler).0;
            Coherent(l') && ArmedIff(l') && (NoLostWakeup(l') <==> (q.jobs != [] ==> q.fd in l'.outs.Keys))
  {
    var l', s := Apply(l, Write(id, bufs, table, room, handler)), l.streams[id];
    assert Accounts(s) && (s.dataHandler <==> s.fd in l.ins);
    WriteCoherent(l, id, bufs, table, room, handler);
    WriteEffect(l, id, bufs, table, room, handler);
    QueuedKeeps(s, bufs, table, room, handler);
    hide Apply, Queued, Coherent, Accounts, NoLostWakeup, ArmedIff;
    var q := Queued(s, bufs, table, room, handler).0;
    UpdateMinus(l.streams, id, q);
    OutsUnchanged(l.outs, l'.outs, q.fd);
    OthersUnchanged(l, l', id);
  }

  /** From a state that keeps the invariant, a write keeps it exactly when what it leaves queued finds
      room in the poll set. */
  lemma WriteKeepsIff(l: Loop, id: nat, bufs: seq<seq<byte>>, table: bool, room: nat, handler: bool)
    requires Inv(l) && id in l.streams
    ensures var op := Write(id, bufs, table, room, handler); Inv(Apply(l, op)) <==> Safe(l, op)
  {
    var s := l.streams[id];
    assert Accounts(s) && |l.outs| <= LIMIT_JOBS && (s.jobs != [] ==> s.fd in l.outs);
    WriteWakes(l, id, bufs, table, room, handler);
    WriteEffect(l, id, bufs, table, room, handler);
    QueuedKeeps(s, bufs, table, room, handler);
    hide Apply, Queued, Coherent, Accounts, NoLostWakeup, ArmedIff;
    assert s.fd in l.outs <==> s.fd in l.outs.Keys;
  }

  lemma DataHandlerEffect(l: Loop, id: nat, install: bool, stale: int)
    requires id in l.streams && |l.ins| <= LIMIT_JOBS
    ensures var l', s := Apply(l, DataHandler(id, install, stale)), l.streams[id];
            && l'.streams == l.streams[id := s.(dataHandler := install, dataRearmed := true)]
            && l'.outs == l.outs - {s.fd}
            && l'.ins == (if install && HasRoom(l.ins, s.fd) then (l.ins - {s.fd})[s.fd := l.next]
                          else l.ins - {s.fd})
  {
    hide DropRead, Arm;
    var s := l.streams[id];
    var l' := DropRead(l.(streams := l.streams[id := s.(dataHandler := install, dataRearmed := true)]), s.fd, stale);
    SizeMinus(l.ins, s.fd);
    ArmEffect(l', id, s.fd);
  }

  lemma ArmEffect(l: Loop, id: nat, fd: int)
    ensures var l' := Arm(l, id, fd);
            && l'.streams == l.streams && l'.outs == l.outs
            && l'.ins == if |l.ins| < LIMIT_JOBS then l.ins[fd := l.next] else l.ins
  {
  }

  /** A change of the data handler keeps the invariant exactly when nothing is waiting to be written, a new
      handler finds room in the poll set, and no other entry's tag is released. */
  lemma DataHandlerKeepsIff(l: Loop, id: nat, install: bool, stale: int)
    requires Inv(l) && id in l.streams
    ensures Inv(Apply(l, DataHandler(id, install, stale))) <==> Safe(l, DataHandler(id, install, stale))
  {
    DataHandlerCoherentIff(l, id, install, stale);
    if Harmless(l, l.streams[id].fd, stale) {
      DataHandlerWakesIff(l, id, install, stale);
    }
    hide Coherent, Apply, NoLostWakeup, ArmedIff, Harmless;
  }

  lemma DataHandlerWakesIff(l: Loop, id: nat, install: bool, stale: int)
    requires Inv(l) && id in l.streams && Coherent(Apply(l, DataHandler(id, install, stale)))
    ensures var l' := Apply(l, DataHandler(id, install, stale));
            NoLostWakeup(l') && ArmedIff(l')
            <==> l.streams[id].jobs == [] && (install ==> HasRoom(l.ins, l.streams[id].fd))
  {
    hide Apply, Coherent;
    var l', s := Apply(l, DataHandler(id, install, stale)), l.streams[id];
    CountBound(l);
    DataHandlerEffect(l, id, install, stale);
    UpdateMinus(l.streams, id, l'.streams[id]);
    OthersUnchanged(l, l', id);
  }

  lemma CountBound(l: Loop)
    requires Coherent(l)
    ensures |l.ins| <= LIMIT_JOBS && |l.outs| <= LIMIT_JOBS
  {
  }

  lemma OpenOthers(l: Loop, id: nat, fd: int, writable: bool)
    requires id !in l.streams && fd !in l.ins
    requires NoLostWakeup(l) && ArmedIff(l)
    ensures var l' := Apply(l, Open(id, fd, writable)); NoLostWakeup(l') && ArmedIff(l')
  {
  }

  lemma OpenKeeps(l: Loop, id: nat, fd: int, writable: bool)
    requires Inv(l) && Plausible(l, Open(id, fd, writable))
    ensures Inv(Apply(l, Open(id, fd, writable)))
  {
    OpenCoherent(l, id, fd, writable);
    if id !in l.streams {
      assert fd !in l.ins;
      OpenOthers(l, id, fd, writable);
    }
  }

  lemma CloseEffect(l: Loop, id: nat, stale: int)
    requires id in l.streams
    ensures var l', fd := Apply(l, Close(id, stale)), l.streams[id].fd;
            && l'.streams == l.streams - {id}
            && l'.outs.Keys == l.outs.Keys - {fd} && l'.ins.Keys == l.ins.Keys - {fd}
  {
  }

  lemma CloseOthers(l: Loop, l': Loop, id: nat)
    requires id in l.streams && l'.streams == l.streams - {id}
    requires l'.outs.Keys == l.outs.Keys - {l.streams[id].fd} && l'.ins.Keys == l.ins.Keys - {l.streams[id].fd}
    requires forall x :: x in l.streams && x != id ==> l.streams[x].fd != l.streams[id].fd
    requires NoLostWakeup(l) && ArmedIff(l)
    ensures NoLostWakeup(l') && ArmedIff(l')
  {
  }

  /** A close keeps the invariant exactly when no other entry's tag is released. */
  lemma CloseKeepsIff(l: Loop, id: nat, stale: int)
    requires Inv(l) && id in l.streams
    ensures Inv(Apply(l, Close(id, stale))) <==> Safe(l, Close(id, stale))
  {
    CloseCoherentIff(l, id, stale);
    CloseEffect(l, id, stale);
    CloseOthers(l, Apply(l, Close(id, stale)), id);
  }

  /** Exactly the safe operations keep the invariant. */
  lemma SafeIff(l: Loop, op: Op)
    requires Inv(l) && Plausible(l, op)
    ensures Inv(Apply(l, op)) <==> Safe(l, op)
  {
    match op
    case Open(id, fd, writable) => OpenKeeps(l, id, fd, writable);
    case Write(id, bufs, table, room, handler) =>
      if id in l.streams {
        WriteKeepsIff(l, id, bufs, table, room, handler);
      }
    case DataHandler(id, install, stale) =>
      if id in l.streams {
        DataHandlerKeepsIff(l, id, install, stale);
      }
    case Close(id, stale) =>
      if id in l.streams {
        CloseKeepsIff(l, id, stale);
      }
  }

  /** What an operation does to the streams: it adds one, takes one away, or changes one that stays
      writable if it was. */
  lemma StreamsAfter(l: Loop, op: Op)
    ensures var m, m' := l.streams, Apply(l, op).streams;
            match op
            case Open(id, fd, w) => m' == if id in m then m else m[id := Stream(fd, w, [], [], [], false, false, false)]
            case Write(id, bufs, table, room, handler) =>
              m' == if id in m then m[id := Queued(m[id], bufs, table, room, handler).0] else m
            case DataHandler(id, install, _) =>
              m' == if id in m then m[id := m[id].(dataHandler := install, dataRearmed := true)] else m
            case Close(id, _) => m' == m - {id}
  {
    hide Queued;
    assert op.Close? && op.id !in l.streams ==> l.streams - {op.id} == l.streams;
  }

  // ------------------------------------------------------------------ scripts and dispatch

  predicate SafeScript(l: Loop, script: seq<Op>)
    decreases |script|
  {
    script != [] ==>
      Plausible(l, script[0]) && Safe(l, script[0]) && SafeScript(Apply(l, script[0]), script[1..])
  }

  lemma {:induction false} ScriptKeeps(l: Loop, script: seq<Op>)
    requires Inv(l) && SafeScript(l, script)
    ensures Inv(ApplyAll(l, script))
    decreases |script|
  {
    hide Inv;
    if script != [] {
      SafeIff(l, script[0]);
      ScriptKeeps(Apply(l, script[0]), script[1..]);
    }
  }

  /** A reference, once handed out, never comes to stand for another stream. */
  predicate TagKept(l: Loop, l': Loop, tag: int) {
    l.next <= l'.next && (tag < l.next && tag in l'.tags ==> tag in l.tags && l'.tags[tag] == l.tags[tag])
  }

  lemma DropWriteTags(l: Loop, fd: int, tag: int)
    ensures TagKept(l, DropWrite(l, fd), tag)
  {
  }

  lemma RegisterTags(l: Loop, id: nat, fd: int, tag: int)
    ensures TagKept(l, Register(l, id, fd), tag)
  {
    DropWriteTags(l, fd, tag);
    hide DropWrite;
  }

  lemma DropReadTags(l: Loop, fd: int, stale: int, tag: int)
    ensures TagKept(l, DropRead(l, fd, stale), tag)
  {
  }

  lemma ApplyTags(l: Loop, op: Op, tag: int)
    ensures TagKept(l, Apply(l, op), tag)
  {
    hide Register, DropWrite, DropRead, Queued;
    match op
    case Open(_, _, _) =>
    case Write(id, bufs, table, room, handler) =>
      if id in l.streams {
        var s := Queued(l.streams[id], bufs, table, room, handler).0;
        RegisterTags(l.(streams := l.streams[id := s]), id, s.fd, tag);
      }
    case DataHandler(id, install, stale) =>
      if id in l.streams {
        var s := l.streams[id].(dataHandler := install, dataRearmed := true);
        DropReadTags(l.(streams := l.streams[id := s]), s.fd, stale, tag);
      }
    case Close(id, stale) =>
      if id in l.streams {
        CloseTags(l.(streams := l.streams - {id}), l.streams[id].fd, stale, tag);
      }
  }

  lemma CloseTags(l: Loop, fd: int, stale: int, tag: int)
    ensures TagKept(l, DropWrite(DropRead(l, fd, stale), fd), tag)
  {
    hide DropRead, DropWrite;
    DropReadTags(l, fd, stale, tag);
    DropWriteTags(DropRead(l, fd, stale), fd, tag);
  }

  lemma {:induction false} ApplyAllTags(l: Loop, script: seq<Op>, tag: int)
    ensures TagKept(l, ApplyAll(l, script), tag)
    decreases |script|
  {
    if script != [] {
      ApplyTags(l, script[0], tag);
      hide Apply;
      ApplyAllTags(Apply(l, script[0]), script[1..], tag);
    }
  }

  lemma DisarmCoherent(l: Loop, id: nat, tag: int)
    requires Coherent(l) && id in l.streams
    requires tag in l.tags ==> l.tags[tag] == id
    ensures Coherent(Disarm(l, id, tag))
  {
    var s := l.streams[id].(dataHandler := false);
    AccountsOf(l, id);
    StreamChanged(l, id, s);
    OwnTagHarmless(l, id, tag);
    hide Coherent, DropRead;
    DropReadCoherent(l.(streams := l.streams[id := s]), s.fd, tag);
  }

  lemma OwnTagHarmless(l: Loop, id: nat, tag: int)
    requires Coherent(l) && id in l.streams && (tag in l.tags ==> l.tags[tag] == id)
    ensures Harmless(l, l.streams[id].fd, tag)
  {
  }

  /** The disarming after a data handler that was not wanted any more keeps the invariant exactly when the
      stream has nothing waiting to be written. */
  lemma DisarmKeepsIff(l: Loop, id: nat, tag: int)
    requires Inv(l) && id in l.streams
    requires tag in l.tags ==> l.tags[tag] == id
    ensures Inv(Disarm(l, id, tag)) <==> l.streams[id].jobs == []
  {
    var l', s := Disarm(l, id, tag), l.streams[id];
    DisarmCoherent(l, id, tag);
    assert l'.streams == l.streams[id := s.(dataHandler := false)];
    assert l'.ins == l.ins - {s.fd} && l'.outs == l.outs - {s.fd};
    hide Disarm, Coherent;
    UpdateMinus(l.streams, id, l'.streams[id]);
    OthersUnchanged(l, l', id);
  }

  /** Draining a stream keeps the invariant, and so does forgetting its write entry once its queue is
      empty. */
  lemma DrainKeeps(l: Loop, id: nat, kernel: seq<WriteResult>)
    requires Inv(l) && id in l.streams
    ensures Inv(DrainStream(l, id, kernel).loop)
  {
    var s := l.streams[id];
    assert Accounts(s);
    var out := Drain(s.jobs, kernel);
    var drained := s.(jobs := out.jobs, taken := s.taken + out.wire);
    var s' := if out.status == 0 then drained else Settle(drained);
    DrainedAccounts(s, kernel);
    StreamChanged(l, id, s');
    var l' := l.(streams := l.streams[id := s']);
    var d := DrainStream(l, id, kernel);
    hide Coherent, Accounts, Drain, Unsent;
    if s.jobs != [] {
      assert d.loop == l';
      UpdateMinus(l.streams, id, s');
      OthersUnchanged(l, l', id);
    }
  }

  lemma DrainedAccounts(s: Stream, kernel: seq<WriteResult>)
    requires Accounts(s)
    ensures var out := Drain(s.jobs, kernel);
            var drained := s.(jobs := out.jobs, taken := s.taken + out.wire);
            Accounts(drained) && Accounts(Settle(drained)) && (out.status > 0 ==> out.jobs == [])
  {
    var out := Drain(s.jobs, kernel);
    DrainStatus(s.jobs, kernel);
    DrainConserves(s.jobs, kernel);
    MoveTwo(s.taken, out.wire, Unsent(out.jobs));
    assert [] + s.taken[..0] == s.taken[..0];
  }

  lemma ForgetKeeps(l: Loop, id: nat)
    requires Inv(l) && id in l.streams && l.streams[id].jobs == []
    ensures Inv(DropWrite(l, l.streams[id].fd))
  {
    DropWriteCoherent(l, l.streams[id].fd);
    var l' := DropWrite(l, l.streams[id].fd);
    assert l'.streams == l.streams && l'.ins == l.ins && l'.outs == l.outs - {l.streams[id].fd};
    hide Coherent, DropWrite;
    OthersUnchanged(l, l', id);
  }

  /** The conditions of `Safe` for the operations of a callback, no close of the stream by its own handler,
      and nothing waiting to be written when a data handler is dropped. */
  predicate SafeEvent(l: Loop, e: Event)
    requires LoopJobsOk(l)
  {
    match e
    case Basic(op) => Plausible(l, op) && Safe(l, op)
    case DataIn(tag, script, keep) =>
      Known(l, tag) && l.streams[l.tags[tag]].dataHandler ==>
        var id := l.tags[tag];
        var l' := DataInCallback(l, tag, script);
        && SafeScript(l.(streams := l.streams[id := l.streams[id].(dataRearmed := false)]), script)
        && id in l'.streams
        && (Unwanted(l', id, keep) ==> l'.streams[id].jobs == [])
    case DataOut(tag, kernel, script) =>
      Known(l, tag) ==>
        var id := l.tags[tag];
        var d := DrainStream(l, id, kernel);
        d.called ==> SafeScript(d.loop, script) && id in ApplyAll(d.loop, script).streams
  }

  lemma RearmFlagKeeps(l: Loop, id: nat)
    requires Inv(l) && id in l.streams
    ensures Inv(l.(streams := l.streams[id := l.streams[id].(dataRearmed := false)]))
  {
    var s := l.streams[id].(dataRearmed := false);
    assert Accounts(l.streams[id]);
    StreamChanged(l, id, s);
    hide Coherent;
    UpdateMinus(l.streams, id, s);
    OthersUnchanged(l, l.(streams := l.streams[id := s]), id);
  }

  lemma EventKeeps(l: Loop, e: Event)
    requires Inv(l) && LoopJobsOk(l) && SafeEvent(l, e)
    ensures Inv(Handle(l, e))
  {
    hide Inv;
    match e
    case Basic(op) => SafeIff(l, op);
    case DataIn(tag, script, keep) =>
      if Known(l, tag) && l.streams[l.tags[tag]].dataHandler {
        var id := l.tags[tag];
        var a := l.(streams := l.streams[id := l.streams[id].(dataRearmed := false)]);
        RearmFlagKeeps(l, id);
        ScriptKeeps(a, script);
        ApplyAllTags(a, script, tag);
        TagBound(l, tag);
        if Unwanted(ApplyAll(a, script), id, keep) {
          DisarmKeepsIff(ApplyAll(a, script), id, tag);
        }
      }
    case DataOut(tag, kernel, script) =>
      if Known(l, tag) {
        var id := l.tags[tag];
        var d := DrainStream(l, id, kernel);
        DrainKeeps(l, id, kernel);
        if d.called {
          ScriptKeeps(d.loop, script);
          if ApplyAll(d.loop, script).streams[id].jobs == [] {
            ForgetKeeps(ApplyAll(d.loop, script), id);
          }
        }
      }
  }

  lemma TagBound(l: Loop, tag: int)
    requires Inv(l) && tag in l.tags
    ensures tag < l.next
  {
  }

  // ------------------------------------------------------------------ whole runs

  /** The states a run of safe events can reach. */
  ghost predicate Reaches(l: Loop, run: seq<Event>, l': Loop)
    decreases |run|
  {
    if run == [] then l' == l
    else LoopJobsOk(l) && SafeEvent(l, run[0]) && Reaches(Handle(l, run[0]), run[1..], l')
  }

  /** No lost wakeup: after any run of writes, handler changes, closes and dispatches, with callbacks that
      write, re-arm and close in turn, every stream with unsent bytes is polled for writing under its own
      tag, and every stream is polled for reading exactly when it has a data handler. */
  lemma {:induction false} RunKeeps(l: Loop, run: seq<Event>, l': Loop)
    requires Inv(l) && Reaches(l, run, l')
    ensures Inv(l')
    decreases |run|
  {
    hide Inv;
    if run != [] {
      EventKeeps(l, run[0]);
      RunKeeps(Handle(l, run[0]), run[1..], l');
    }
  }

  lemma NoLostWakeupFromStart(run: seq<Event>, l: Loop, id: nat)
    requires Reaches(EMPTY_LOOP, run, l) && id in l.streams
    ensures var s := l.streams[id];
            && (s.jobs != [] ==> s.fd in l.outs && l.outs[s.fd] in l.tags && l.tags[l.outs[s.fd]] == id)
            && (s.dataHandler <==> s.fd in l.ins)
            && (s.fd in l.ins ==> l.ins[s.fd] in l.tags && l.tags[l.ins[s.fd]] == id)
  {
    RunKeeps(EMPTY_LOOP, run, l);
  }
}
