/** Requests for child windows (`lua/tui_lua.c`): eight slots in a bit mask, and replies matched by slot number. */
module Requests {
  import opened Common

  const SLOTS: nat := 8
  const REQ_COOKIE: bv32 := 0xfeed
  const NOREF: int := -2

  // ------------------------------------------------------------------ bits

  function BitOf(i: nat): bv8
    requires i < SLOTS
  {
    match i
    case 0 => 1
    case 1 => 2
    case 2 => 4
    case 3 => 8
    case 4 => 16
    case 5 => 32
    case 6 => 64
    case 7 => 128
  }

  predicate Taken(mask: bv8, i: nat)
    requires i < SLOTS
  {
    mask & BitOf(i) != 0
  }

  function Busy(mask: bv8): set<nat> {
    set i: nat | i < SLOTS && Taken(mask, i)
  }

  /** The slot number as it goes over the wire, and back. */
  function WireId(slot: nat): bv32
    requires slot < SLOTS
  {
    (slot as bv32) ^ REQ_COOKIE
  }

  function SlotOf(id: bv32): nat {
    (id ^ REQ_COOKIE) as nat
  }

  lemma XorTwice(x: bv32, c: bv32)
    ensures (x ^ c) ^ c == x
  {
  }

  lemma SlotOfWireId(slot: nat)
    requires slot < SLOTS
    ensures SlotOf(WireId(slot)) == slot
  {
    XorTwice(slot as bv32, REQ_COOKIE);
  }

  lemma WireIdOfSlot(id: bv32)
    requires SlotOf(id) < SLOTS
    ensures WireId(SlotOf(id)) == id
  {
    XorTwice(id, REQ_COOKIE);
  }

  lemma SetBit(mask: bv8, i: nat, j: nat)
    requires i < SLOTS && j < SLOTS
    ensures Taken(mask | BitOf(i), j) <==> Taken(mask, j) || i == j
    ensures Taken(mask & !BitOf(i), j) <==> Taken(mask, j) && i != j
  {
  }

  lemma BusyChanges(mask: bv8, i: nat)
    requires i < SLOTS
    ensures Busy(mask | BitOf(i)) == Busy(mask) + {i}
    ensures Busy(mask & !BitOf(i)) == Busy(mask) - {i}
  {
    forall j: nat | j < SLOTS
      ensures Taken(mask | BitOf(i), j) <==> Taken(mask, j) || i == j
      ensures Taken(mask & !BitOf(i), j) <==> Taken(mask, j) && i != j
    {
      SetBit(mask, i, j);
    }
  }

  lemma FullMask(mask: bv8)
    ensures mask == 255 <==> forall i: nat :: i < SLOTS ==> Taken(mask, i)
  {
    if forall i: nat :: i < SLOTS ==> Taken(mask, i) {
      assert Taken(mask, 0) && Taken(mask, 1) && Taken(mask, 2) && Taken(mask, 3);
      assert Taken(mask, 4) && Taken(mask, 5) && Taken(mask, 6) && Taken(mask, 7);
    }
  }

  // ------------------------------------------------------------------ the ledger

  /** The requests as a table from slot to closure reference, the live references, the closures run so
      far, those of refused requests, and the number granted. */
  datatype Ledger = Ledger(
    outstanding: map<nat, int>, live: set<int>, ran: seq<int>, refused: set<int>, granted: nat, next: int)

  datatype Event =
    | Request
    | Reply(id: bv32, handlers: bool)

  /** The lowest free slot, or the number of slots. */
  function LowestFree(m: map<nat, int>, i: nat): (r: nat)
    requires i <= SLOTS
    ensures i <= r <= SLOTS && (forall j :: i <= j < r ==> j in m) && (r < SLOTS ==> r !in m)
    decreases SLOTS - i
  {
    if i < SLOTS && i in m then LowestFree(m, i + 1) else i
  }

  function Grant(l: Ledger, slot: nat): Ledger {
    l.(outstanding := l.outstanding[slot := l.next], live := l.live + {l.next},
       granted := l.granted + 1, next := l.next + 1)
  }

  function Refuse(l: Ledger): Ledger {
    l.(live := l.live + {l.next}, refused := l.refused + {l.next}, next := l.next + 1)
  }

  function Consume(l: Ledger, slot: nat): Ledger
    requires slot in l.outstanding
  {
    var cb := l.outstanding[slot];
    l.(outstanding := l.outstanding - {slot}, live := l.live - {cb}, ran := l.ran + [cb])
  }

  /** The closure is referenced before the mask is looked at, so a refused request keeps its reference. */
  function Handle(l: Ledger, e: Event): Ledger {
    match e
    case Request =>
      var slot := LowestFree(l.outstanding, 0);
      if slot == SLOTS then Refuse(l) else Grant(l, slot)
    case Reply(id, handlers) =>
      var slot := SlotOf(id);
      if !handlers || slot >= SLOTS || slot !in l.outstanding then l else Consume(l, slot)
  }

  /** Slots are in range and hold different references, none of them that of a refused request. */
  ghost predicate SlotsSound(l: Ledger) {
    && (forall i :: i in l.outstanding ==> i < SLOTS && l.outstanding[i] < l.next && l.outstanding[i] !in l.refused)
    && (forall i, j :: i in l.outstanding && j in l.outstanding && i != j ==> l.outstanding[i] != l.outstanding[j])
    && (forall r :: r in l.refused ==> r < l.next)
  }

  /** The live references are those of the outstanding and of the refused requests. */
  ghost predicate LiveSound(l: Ledger) {
    l.live == l.refused + l.outstanding.Values
  }

  /** No closure has run twice, and none that has run is still referenced. */
  ghost predicate RanSound(l: Ledger) {
    && (forall i, j :: 0 <= i < j < |l.ran| ==> l.ran[i] != l.ran[j])
    && (forall i :: 0 <= i < |l.ran| ==> l.ran[i] !in l.live && l.ran[i] < l.next)
  }

  /** Every granted request is either outstanding or has run its closure. */
  ghost predicate CountSound(l: Ledger) {
    l.granted == |l.ran| + |l.outstanding|
  }

  ghost predicate Sound(l: Ledger) {
    SlotsSound(l) && LiveSound(l) && RanSound(l) && CountSound(l)
  }

  const NO_REQUESTS := Ledger(map[], {}, [], {}, 0, 0)

  lemma ValuesPlus<K, V>(m: map<K, V>, k: K, v: V)
    requires k !in m
    ensures m[k := v].Values == m.Values + {v}
  {
    var m' := m[k := v];
    assert m'[k] == v;
    forall x | x in m.Values
      ensures x in m'.Values
    {
      var y :| y in m && m[y] == x;
      assert m'[y] == x;
    }
  }

  lemma ValuesMinus<K, V>(m: map<K, V>, k: K)
    requires k in m && forall j :: j in m && j != k ==> m[j] != m[k]
    ensures (m - {k}).Values == m.Values - {m[k]}
  {
    var m' := m - {k};
    forall x | x in m.Values && x != m[k]
      ensures x in m'.Values
    {
      var y :| y in m && m[y] == x;
      assert y in m' && m'[y] == x;
    }
  }

  lemma GrantSlots(l: Ledger, slot: nat)
    requires SlotsSound(l) && slot < SLOTS
    ensures SlotsSound(Grant(l, slot))
  {
  }

  lemma GrantRan(l: Ledger, slot: nat)
    requires RanSound(l)
    ensures RanSound(Grant(l, slot))
  {
  }

  lemma GrantSound(l: Ledger, slot: nat)
    requires Sound(l) && slot < SLOTS && slot !in l.outstanding
    ensures Sound(Grant(l, slot))
  {
    GrantSlots(l, slot);
    GrantRan(l, slot);
    GrantLive(l, slot);
    SizePlus(l.outstanding, slot, l.next);
    hide SlotsSound, RanSound, LiveSound;
  }

  lemma GrantLive(l: Ledger, slot: nat)
    requires LiveSound(l) && slot !in l.outstanding
    ensures LiveSound(Grant(l, slot))
  {
    ValuesPlus(l.outstanding, slot, l.next);
    assert (l.refused + l.outstanding.Values) + {l.next} == l.refused + (l.outstanding.Values + {l.next});
  }

  lemma RefuseSlots(l: Ledger)
    requires SlotsSound(l)
    ensures SlotsSound(Refuse(l))
  {
  }

  lemma RefuseRan(l: Ledger)
    requires RanSound(l)
    ensures RanSound(Refuse(l))
  {
  }

  lemma RefuseSound(l: Ledger)
    requires Sound(l)
    ensures Sound(Refuse(l))
  {
    RefuseSlots(l);
    RefuseRan(l);
    RefuseLive(l);
    hide SlotsSound, RanSound, LiveSound;
  }

  lemma RefuseLive(l: Ledger)
    requires LiveSound(l)
    ensures LiveSound(Refuse(l))
  {
  }

  lemma ConsumeSlots(l: Ledger, slot: nat)
    requires SlotsSound(l) && slot in l.outstanding
    ensures SlotsSound(Consume(l, slot))
  {
  }

  lemma ConsumeLive(l: Ledger, slot: nat)
    requires SlotsSound(l) && LiveSound(l) && slot in l.outstanding
    ensures LiveSound(Consume(l, slot)) && l.outstanding[slot] in l.live
  {
    ValuesMinus(l.outstanding, slot);
    assert l.outstanding[slot] in l.outstanding.Values;
  }

  lemma ConsumeRan(l: Ledger, slot: nat)
    requires RanSound(l) && slot in l.outstanding && l.outstanding[slot] in l.live && l.outstanding[slot] < l.next
    ensures RanSound(Consume(l, slot))
  {
  }

  lemma ConsumeSound(l: Ledger, slot: nat)
    requires Sound(l) && slot in l.outstanding
    ensures Sound(Consume(l, slot))
  {
    ConsumeSlots(l, slot);
    ConsumeLive(l, slot);
    ConsumeRan(l, slot);
    SizeMinus(l.outstanding, slot);
  }

  lemma EventSound(l: Ledger, e: Event)
    requires Sound(l)
    ensures Sound(Handle(l, e))
  {
    hide Sound, SlotOf;
    match e
    case Request =>
      var slot := LowestFree(l.outstanding, 0);
      if slot == SLOTS {
        RefuseSound(l);
      } else {
        GrantSound(l, slot);
      }
    case Reply(id, handlers) =>
      if handlers && SlotOf(id) < SLOTS && SlotOf(id) in l.outstanding {
        ConsumeSound(l, SlotOf(id));
      }
  }

  function Run(l: Ledger, es: seq<Event>): Ledger
    decreases |es|
  {
    if es == [] then l else Run(Handle(l, es[0]), es[1..])
  }

  /** For any order of requests and replies with arbitrary ids. */
  lemma {:induction false} RunSound(l: Ledger, es: seq<Event>)
    requires Sound(l)
    ensures Sound(Run(l, es))
    decreases |es|
  {
    if es != [] {
      EventSound(l, es[0]);
      RunSound(Handle(l, es[0]), es[1..]);
    }
  }

  lemma AtMostEight(l: Ledger)
    requires Sound(l)
    ensures |l.outstanding| <= SLOTS
  {
    hide Sound;
    SlotsInRange(l);
    EightSlots(l.outstanding);
  }

  lemma SlotsInRange(l: Ledger)
    requires Sound(l)
    ensures forall i :: i in l.outstanding ==> i < SLOTS
  {
  }

  lemma EightSlots(m: map<nat, int>)
    requires forall i :: i in m ==> i < SLOTS
    ensures |m| <= SLOTS
  {
    BelowSize(m.Keys, SLOTS);
    assert |m| == |m.Keys|;
  }

  lemma {:induction false} BelowSize(s: set<nat>, n: nat)
    requires forall i :: i in s ==> i < n
    ensures |s| <= n
    decreases n
  {
    if n == 0 {
      assert s == {};
    } else {
      BelowSize(s - {n - 1}, n - 1);
      assert n - 1 !in s ==> s - {n - 1} == s;
    }
  }

  /** From the start on: at most eight outstanding requests, in distinct slots, and granted requests are
      those whose closure has run, once each, plus those outstanding. */
  lemma ProtocolFromStart(es: seq<Event>)
    ensures var l := Run(NO_REQUESTS, es); Sound(l) && |l.outstanding| <= SLOTS
  {
    assert Sound(NO_REQUESTS);
    RunSound(NO_REQUESTS, es);
    AtMostEight(Run(NO_REQUESTS, es));
  }

  lemma IdsMatch(id: bv32)
    ensures forall slot: nat :: slot < SLOTS ==> (WireId(slot) == id <==> SlotOf(id) == slot)
  {
    forall slot: nat | slot < SLOTS
      ensures WireId(slot) == id <==> SlotOf(id) == slot
    {
      SlotOfWireId(slot);
      if SlotOf(id) == slot {
        WireIdOfSlot(id);
      }
    }
  }

  /** A reply is accepted exactly when its id is the one an outstanding request was sent with; it then runs
      that request's closure and no other, and any other id changes nothing. */
  lemma ReplyMatchesIff(l: Ledger, id: bv32, handlers: bool)
    requires Sound(l)
    ensures Handle(l, Reply(id, handlers)) != l
            <==> handlers && exists slot :: slot in l.outstanding && slot < SLOTS && WireId(slot) == id
    ensures forall slot :: slot in l.outstanding && slot < SLOTS && WireId(slot) == id && handlers ==>
              && Handle(l, Reply(id, handlers)).ran == l.ran + [l.outstanding[slot]]
              && Handle(l, Reply(id, handlers)).outstanding == l.outstanding - {slot}
  {
    IdsMatch(id);
    hide SlotOf, WireId, Sound, LowestFree;
    var l' := Handle(l, Reply(id, handlers));
    if handlers && SlotOf(id) < SLOTS && SlotOf(id) in l.outstanding {
      assert |l'.ran| == |l.ran| + 1;
    }
  }

  /** A request leaves no reference behind exactly when a slot is free. */
  lemma RefusedLeaksIff(l: Ledger)
    requires Sound(l)
    ensures Handle(l, Request).refused == l.refused <==> exists i: nat :: i < SLOTS && i !in l.outstanding
  {
    var slot := LowestFree(l.outstanding, 0);
    if slot == SLOTS {
      assert l.next in Refuse(l).refused && l.next !in l.refused;
    }
  }

  /** After that many requests without a reply, each has a slot of its own. */
  lemma {:induction false} RequestsFillSlots(n: nat)
    requires n <= SLOTS
    ensures var l := Run(NO_REQUESTS, seq(n, _ => Request));
            (forall i :: i in l.outstanding <==> 0 <= i < n) && l.next == n && l.refused == {}
    decreases n
  {
    hide Handle;
    if n > 0 {
      var es := seq(n - 1, _ => Request);
      RequestsFillSlots(n - 1);
      var l := Run(NO_REQUESTS, es);
      assert seq(n, _ => Request) == es + [Request];
      RunAppend(NO_REQUESTS, es, [Request]);
      RunOne(l);
      GrantsNext(l, n - 1);
    }
  }

  lemma GrantsNext(l: Ledger, n: nat)
    requires n < SLOTS && (forall i :: i in l.outstanding <==> 0 <= i < n) && l.next == n && l.refused == {}
    ensures var l' := Handle(l, Request);
            (forall i :: i in l'.outstanding <==> 0 <= i < n + 1) && l'.next == n + 1 && l'.refused == {}
  {
    assert LowestFree(l.outstanding, 0) == n;
  }

  lemma {:induction false} RunAppend(l: Ledger, a: seq<Event>, b: seq<Event>)
    ensures Run(l, a + b) == Run(Run(l, a), b)
    decreases |a|
  {
    hide Handle;
    if a == [] {
      assert a + b == b;
    } else {
      assert (a + b)[1..] == a[1..] + b;
      RunAppend(Handle(l, a[0]), a[1..], b);
    }
  }

  lemma RunOne(l: Ledger)
    ensures Run(l, [Request]) == Handle(l, Request)
  {
    hide Handle;
    assert [Request][1..] == [];
  }

  /** The ninth request in a row is refused, and its reference is never released. */
  lemma NinthRequestLeaks()
    ensures Run(NO_REQUESTS, seq(9, _ => Request)).refused == {8}
  {
    var es := seq(8, _ => Request);
    RequestsFillSlots(8);
    assert seq(9, _ => Request) == es + [Request];
    RunAppend(NO_REQUESTS, es, [Request]);
    RunOne(Run(NO_REQUESTS, es));
  }

  // ------------------------------------------------------------------ the window's fields

  /** The mask and the array of references hold the table of outstanding requests. */
  ghost predicate Agree(mask: bv8, pending: seq<int>, m: map<nat, int>)
    requires |pending| == SLOTS
  {
    m.Keys == Busy(mask) && forall i: nat :: i < SLOTS && i in m ==> pending[i] == m[i]
  }

  lemma AgreeBits(mask: bv8, pending: seq<int>, m: map<nat, int>, i: nat)
    requires |pending| == SLOTS && Agree(mask, pending, m) && i < SLOTS
    ensures (Taken(mask, i) <==> i in m) && (i in m ==> pending[i] == m[i])
  {
    assert i in Busy(mask) <==> Taken(mask, i);
  }

  lemma AgreeFull(mask: bv8, pending: seq<int>, m: map<nat, int>)
    requires |pending| == SLOTS && Agree(mask, pending, m)
    ensures mask == 255 <==> LowestFree(m, 0) == SLOTS
  {
    FullMask(mask);
    forall i: nat | i < SLOTS
      ensures Taken(mask, i) <==> i in m
    {
      AgreeBits(mask, pending, m, i);
    }
  }

  /** `ffs(~mask) - 1`, searched from bit `i` on. */
  function FirstClear(mask: bv8, i: nat): nat
    requires i <= SLOTS
    decreases SLOTS - i
  {
    if i < SLOTS && Taken(mask, i) then FirstClear(mask, i + 1) else i
  }

  lemma {:induction false} FirstClearIsLowestFree(mask: bv8, pending: seq<int>, m: map<nat, int>, i: nat)
    requires |pending| == SLOTS && Agree(mask, pending, m) && i <= SLOTS
    ensures FirstClear(mask, i) == LowestFree(m, i)
    decreases SLOTS - i
  {
    hide Agree, Taken;
    if i < SLOTS {
      AgreeBits(mask, pending, m, i);
      FirstClearIsLowestFree(mask, pending, m, i + 1);
    }
  }

  lemma AgreeSet(mask: bv8, pending: seq<int>, m: map<nat, int>, i: nat, ref: int)
    requires |pending| == SLOTS && Agree(mask, pending, m) && i < SLOTS
    ensures Agree(mask | BitOf(i), pending[i := ref], m[i := ref])
  {
    BusyChanges(mask, i);
    assert m[i := ref].Keys == m.Keys + {i};
  }

  lemma AgreeClear(mask: bv8, pending: seq<int>, m: map<nat, int>, i: nat)
    requires |pending| == SLOTS && Agree(mask, pending, m) && i < SLOTS
    ensures Agree(mask & !BitOf(i), pending[i := NOREF], m - {i})
  {
    BusyChanges(mask, i);
    assert (m - {i}).Keys == m.Keys - {i};
  }

  class PendingRequests {
    var pendingMask: bv8
    const pending: array<int>
    ghost var ledger: Ledger

    ghost predicate Valid()
      reads this, pending
    {
      pending.Length == SLOTS && Agree(pendingMask, pending[..], ledger.outstanding)
    }

    constructor ()
      ensures Valid() && ledger == NO_REQUESTS && fresh(pending)
    {
      pendingMask, ledger := 0, NO_REQUESTS;
      pending := new int[SLOTS](_ => NOREF);
    }

    /** `new_window`: `ref` is the closure reference taken on entry. */
    method RequestWindow(ref: int) returns (granted: bool, id: bv32)
      requires Valid() && ref == ledger.next
      modifies this, pending
      ensures Valid() && ledger == Handle(old(ledger), Request)
      ensures granted <==> LowestFree(old(ledger).outstanding, 0) < SLOTS
      ensures granted ==> id == WireId(LowestFree(old(ledger).outstanding, 0))
    {
      hide Agree, Taken, BitOf, WireId, FirstClear, LowestFree;
      ghost var m := ledger.outstanding;
      AgreeFull(pendingMask, pending[..], m);
      if pendingMask == 255 {
        ledger := Handle(ledger, Request);
        return false, 0;
      }
      FirstClearIsLowestFree(pendingMask, pending[..], m, 0);
      var bitind := FirstClear(pendingMask, 0);
      AgreeSet(pendingMask, pending[..], m, bitind, ref);
      pending[bitind] := ref;
      pendingMask := pendingMask | BitOf(bitind);
      ledger := Handle(ledger, Request);
      return true, WireId(bitind);
    }

    /** `on_subwindow` up to the call of the closure: `cb` is the closure to run. */
    method OnSubwindow(id: bv32, handlers: bool) returns (accepted: bool, cb: int)
      requires Valid()
      modifies this, pending
      ensures Valid() && ledger == Handle(old(ledger), Reply(id, handlers))
      ensures accepted ==> ledger.ran == old(ledger).ran + [cb]
      ensures !accepted ==> ledger == old(ledger) && pendingMask == old(pendingMask)
    {
      hide Agree, Taken, BitOf, SlotOf;
      var slot := SlotOf(id);
      ghost var m := ledger.outstanding;
      ledger := Handle(ledger, Reply(id, handlers));
      if !handlers || slot >= SLOTS {
        return false, NOREF;
      }
      AgreeBits(pendingMask, pending[..], m, slot);
      if !Taken(pendingMask, slot) {
        return false, NOREF;
      }
      AgreeClear(pendingMask, pending[..], m, slot);
      cb := pending[slot];
      pending[slot] := NOREF;
      pendingMask := pendingMask & !BitOf(slot);
      return true, cb;
    }
  }
}
