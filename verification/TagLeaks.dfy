/** Exactly which registry references to streams are left behind, held by no poll entry (`lua/nbio.c`).
    The poll set carries them as tags.
    Releasing one is up to whoever removes its entry, and the removal of a read entry does not say which it
    was. */
module TagLeaks {
  import opened Common
  import opened LineSplit
  import opened PollSet
  import opened EventLoop
  import opened LoopInvariants

  /** The tags that the entries of one direction carry. */
  function Carried(m: map<int, int>): set<int> {
    set f | f in m :: m[f]
  }

  /** The live tags that no entry of the poll set carries: nothing will ever release them. */
  function Idle(l: Loop): set<int> {
    l.tags.Keys - Carried(l.ins) - Carried(l.outs)
  }

  /** Entries of one direction carry different tags. */
  lemma CarriedMinus(l: Loop, m: map<int, int>, fd: int)
    requires Own(l, m)
    ensures Carried(m - {fd}) == Carried(m) - if fd in m then {m[fd]} else {}
  {
    var n := m - {fd};
    assert forall f :: f in m && f != fd ==> f in n && n[f] == m[f];
    assert forall f, g :: f in m && g in m && m[f] == m[g] ==>
        f == l.streams[l.tags[m[f]]].fd == l.streams[l.tags[m[g]]].fd == g;
  }

  lemma CarriedPlus(m: map<int, int>, fd: int, t: int)
    requires fd !in m
    ensures Carried(m[fd := t]) == Carried(m) + {t}
  {
    var n := m[fd := t];
    assert forall f :: f in m ==> f in n && n[f] == m[f];
    assert n[fd] == t;
  }

  lemma CarriedFacts(l: Loop)
    requires Coherent(l)
    ensures Carried(l.ins) <= l.tags.Keys && Carried(l.outs) <= l.tags.Keys && Carried(l.ins) !! Carried(l.outs)
    ensures l.next !in l.tags.Keys && l.next !in Carried(l.ins) && l.next !in Carried(l.outs)
    ensures forall fd :: fd in l.ins ==> l.ins[fd] in Carried(l.ins)
    ensures forall fd :: fd in l.outs ==> l.outs[fd] in Carried(l.outs)
  {
  }

  lemma KeysMinus(m: map<int, nat>, t: int)
    ensures (m - {t}).Keys == m.Keys - {t}
  {
  }

  lemma KeysPlus(m: map<int, nat>, t: int, id: nat)
    ensures m[t := id].Keys == m.Keys + {t}
  {
  }

  lemma OwnBoth(l: Loop)
    requires Coherent(l)
    ensures Own(l, l.ins) && Own(l, l.outs) && |l.ins| <= LIMIT_JOBS && |l.outs| <= LIMIT_JOBS
  {
  }

  lemma NoEntry(m: map<int, int>, fd: int)
    requires fd !in m
    ensures m - {fd} == m
  {
  }

  /** The tag of a write entry goes with the entry. */
  lemma DropWriteIdle(l: Loop, fd: int)
    requires Coherent(l)
    ensures Idle(DropWrite(l, fd)) == Idle(l)
  {
    hide Coherent, Own, Carried;
    CarriedFacts(l);
    OwnBoth(l);
    CarriedMinus(l, l.outs, fd);
    if fd in l.outs {
      KeysMinus(l.tags, l.outs[fd]);
    } else {
      NoEntry(l.outs, fd);
    }
  }

  /** The tag of a read entry stays when the entry goes, and `stale` is released in its place if there is no write
      entry. */
  function ReadRemoval(l: Loop, fd: int, stale: int): set<int> {
    if fd !in l.ins then Idle(l)
    else if fd in l.outs then Idle(l) + {l.ins[fd]}
    else Idle(l) + {l.ins[fd]} - {stale}
  }

  /** What a read removal leaves for the removal of the write entry. */
  function ReadForgotten(l: Loop, fd: int, stale: int): Loop {
    l.(ins := l.ins - {fd}, tags := if fd in l.ins && fd !in l.outs then l.tags - {stale} else l.tags)
  }

  lemma ForgottenIdle(l: Loop, fd: int, stale: int)
    requires Coherent(l)
    ensures Idle(ReadForgotten(l, fd, stale)) == ReadRemoval(l, fd, stale)
  {
    hide Coherent, Own, Carried;
    if fd in l.ins {
      CarriedFacts(l);
      OwnBoth(l);
      CarriedMinus(l, l.ins, fd);
      var keys, ins, outs := l.tags.Keys, Carried(l.ins), Carried(l.outs);
      if fd in l.outs {
        OneBack(keys, ins, outs, l.ins[fd]);
      } else {
        KeysMinus(l.tags, stale);
        OneForAnother(keys, ins, outs, l.ins[fd], stale);
      }
    } else {
      NoEntry(l.ins, fd);
    }
  }

  lemma OneBack(keys: set<int>, ins: set<int>, outs: set<int>, t: int)
    requires t in ins && ins <= keys && ins !! outs
    ensures keys - (ins - {t}) - outs == (keys - ins - outs) + {t}
  {
  }

  lemma OneForAnother(keys: set<int>, ins: set<int>, outs: set<int>, t: int, stale: int)
    requires t in ins && ins <= keys && ins !! outs
    ensures (keys - {stale}) - (ins - {t}) - outs == (keys - ins - outs) + {t} - {stale}
  {
  }

  lemma DropReadIdle(l: Loop, fd: int, stale: int)
    requires Coherent(l) && Harmless(l, fd, stale)
    ensures Idle(DropRead(l, fd, stale)) == ReadRemoval(l, fd, stale)
  {
    hide Coherent, DropWrite, Idle, ReadRemoval, Harmless;
    ForgottenIdle(l, fd, stale);
    StaleReleased(l, fd, stale);
    DropWriteIdle(ReadForgotten(l, fd, stale), fd);
  }

  lemma StaleReleased(l: Loop, fd: int, stale: int)
    requires Coherent(l) && Harmless(l, fd, stale)
    ensures Coherent(ReadForgotten(l, fd, stale))
  {
    ForgetReadCoherent(l, fd);
    if fd in l.ins && fd !in l.outs {
      ReleaseCoherent(l.(ins := l.ins - {fd}), stale);
    }
    hide Coherent;
  }

  /** The tag of a new write entry stays behind exactly when the poll set is full. */
  lemma AddWriteIdle(l: Loop, id: nat, fd: int)
    requires Coherent(l) && fd !in l.outs
    ensures Idle(AddWrite(l, id, fd)) == Idle(l) + if |l.outs| < LIMIT_JOBS then {} else {l.next}
  {
    hide Coherent, Own, Carried;
    CarriedFacts(l);
    CarriedPlus(l.outs, fd, l.next);
    KeysPlus(l.tags, l.next, id);
  }

  lemma ArmIdle(l: Loop, id: nat, fd: int)
    requires Coherent(l) && fd !in l.ins
    ensures Idle(Arm(l, id, fd)) == Idle(l)
  {
    hide Coherent, Own, Carried;
    CarriedFacts(l);
    CarriedPlus(l.ins, fd, l.next);
    KeysPlus(l.tags, l.next, id);
  }

  /** The references left behind after an operation. */
  function IdleAfter(l: Loop, op: Op): set<int> {
    match op
    case Open(_, _, _) => Idle(l)
    case Write(id, bufs, table, room, handler) =>
      if id !in l.streams then Idle(l)
      else
        var (s, registers) := Queued(l.streams[id], bufs, table, room, handler);
        Idle(l) + if registers && !HasRoom(l.outs, s.fd) then {l.next} else {}
    case DataHandler(id, _, stale) =>
      if id in l.streams then ReadRemoval(l, l.streams[id].fd, stale) else Idle(l)
    case Close(id, stale) =>
      if id in l.streams then ReadRemoval(l, l.streams[id].fd, stale) else Idle(l)
  }

  /** Every operation leaves behind exactly the reference of a write entry that found no room, or that of a read
      entry that went while another reference, or none, was released for it. */
  lemma OpIdle(l: Loop, op: Op)
    requires Coherent(l)
    requires (op.DataHandler? || op.Close?) && op.id in l.streams ==> Harmless(l, l.streams[op.id].fd, op.stale)
    ensures Idle(Apply(l, op)) == IdleAfter(l, op)
  {
    match op
    case Open(_, _, _) =>
    case Write(id, bufs, table, room, handler) =>
      if id in l.streams {
        WriteIdle(l, id, bufs, table, room, handler);
      }
    case DataHandler(id, install, stale) =>
      if id in l.streams {
        HandlerIdle(l, id, install, stale);
      }
    case Close(id, stale) =>
      if id in l.streams {
        CloseIdle(l, id, stale);
      }
  }

  lemma RegisterIdle(l: Loop, id: nat, fd: int)
    requires Coherent(l)
    ensures Idle(Register(l, id, fd)) == Idle(l) + if HasRoom(l.outs, fd) then {} else {l.next}
  {
    hide Coherent, Carried, DropWrite, AddWrite;
    OwnBoth(l);
    DropWriteCoherent(l, fd);
    DropWriteIdle(l, fd);
    AddWriteIdle(DropWrite(l, fd), id, fd);
    SizeMinus(l.outs, fd);
  }

  lemma WriteIdle(l: Loop, id: nat, bufs: seq<seq<byte>>, table: bool, room: nat, handler: bool)
    requires Coherent(l) && id in l.streams
    ensures var op := Write(id, bufs, table, room, handler); Idle(Apply(l, op)) == IdleAfter(l, op)
  {
    hide Coherent, Queued, Accounts, Carried, Register, HasRoom;
    var (s, registers) := Queued(l.streams[id], bufs, table, room, handler);
    AccountsOf(l, id);
    QueuedKeeps(l.streams[id], bufs, table, room, handler);
    StreamChanged(l, id, s);
    RegisterIdle(l.(streams := l.streams[id := s]), id, s.fd);
  }

  lemma HandlerIdle(l: Loop, id: nat, install: bool, stale: int)
    requires Coherent(l) && id in l.streams && Harmless(l, l.streams[id].fd, stale)
    ensures Idle(Apply(l, DataHandler(id, install, stale))) == ReadRemoval(l, l.streams[id].fd, stale)
  {
    hide Coherent, Accounts, DropRead, Arm, Carried;
    var s := l.streams[id].(dataHandler := install, dataRearmed := true);
    var a := l.(streams := l.streams[id := s]);
    AccountsOf(l, id);
    StreamChanged(l, id, s);
    DropReadIdle(a, s.fd, stale);
    DropReadCoherent(a, s.fd, stale);
    ArmIdle(DropRead(a, s.fd, stale), id, s.fd);
  }

  lemma CloseIdle(l: Loop, id: nat, stale: int)
    requires Coherent(l) && id in l.streams && Harmless(l, l.streams[id].fd, stale)
    ensures Idle(Apply(l, Close(id, stale))) == ReadRemoval(l, l.streams[id].fd, stale)
  {
    var fd := l.streams[id].fd;
    DropReadIdle(l, fd, stale);
    var a := DropRead(l, fd, stale);
    var l' := Apply(l, Close(id, stale));
    assert l'.ins == a.ins && l'.outs == a.outs && l'.tags == a.tags;
  }

  /** When a data handler is dropped after its dispatch, the tag that was dispatched is released in place of the read
      entry's own: they are the same, so nothing is left behind, exactly when the stream is not polled for
      writing. */
  lemma DisarmLeaksIff(l: Loop, id: nat)
    requires Coherent(l) && id in l.streams && l.streams[id].fd in l.ins
    ensures var fd := l.streams[id].fd;
            Idle(Disarm(l, id, l.ins[fd])) == Idle(l) <==> fd !in l.outs
  {
    hide Coherent, Accounts, DropRead, Carried, Harmless;
    var fd, s := l.streams[id].fd, l.streams[id].(dataHandler := false);
    var a := l.(streams := l.streams[id := s]);
    AccountsOf(l, id);
    StreamChanged(l, id, s);
    CarriedFacts(l);
    OwnTag(l, fd);
    OwnTagHarmless(a, id, l.ins[fd]);
    DropReadIdle(a, fd, l.ins[fd]);
  }

  lemma OwnTag(l: Loop, fd: int)
    requires Coherent(l) && fd in l.ins
    ensures forall id :: id in l.streams && l.streams[id].fd == fd ==> l.tags[l.ins[fd]] == id
  {
  }
}
