/** Who holds the registry references of a window's widgets (`lua/tui_lua.c`), with callbacks that change them. */
module Widgets {
  import opened Common

  datatype Mode = Normal | ListWnd | BufWnd | Readline

  /** The Lua registry: references are fresh when handed out.  `lost` are the live ones that were
      overwritten, and `faulty` records a release of a reference that is not live. */
  datatype Registry = Registry(live: set<int>, released: set<int>, lost: set<int>, next: int, faulty: bool)

  /** The fields of a window that hold references; `verify` and `filter` live in the widget's own data, which
      a window without a widget does not have. */
  datatype Wnd = Wnd(
    open: bool, mode: Mode, closure: Option<int>, state: Option<int>,
    verify: Option<int>, filter: Option<int>, tuiState: Option<int>)

  datatype World = World(w: Wnd, r: Registry)

  /** What a script or a callback may call.  `setup` is what the callbacks run during the setup of a
      readline do. */
  datatype Op =
    | CallReadline(verify: bool, filter: bool, setup: seq<Op>)
    | CallListView
    | CallBufferView
    | CallRevert
    | CallClose

  datatype Event =
    | Direct(op: Op)
    | Completes(script: seq<Op>)

  // ------------------------------------------------------------------ the operations

  function Ref(r: Registry): Registry {
    r.(live := r.live + {r.next}, next := r.next + 1)
  }

  /** `tui_lunref`: nothing for "no reference". */
  function Unref(r: Registry, ref: Option<int>): Registry {
    if ref.None? then r
    else if ref.value in r.live then r.(live := r.live - {ref.value}, released := r.released + {ref.value})
    else r.(faulty := true)
  }

  /** Releasing what is not live is the fault that is recorded, and the only one; a fault is never forgotten. */
  lemma FaultIff(r: Registry, ref: Option<int>)
    ensures Unref(r, ref).faulty <==> r.faulty || (ref.Some? && ref.value !in r.live)
    ensures ref.Some? ==> ref.value !in Unref(r, ref).live
  {
  }

  /** The field that held `ref` is written over. */
  function Lose(r: Registry, ref: Option<int>): Registry {
    if ref.None? then r else r.(lost := r.lost + {ref.value})
  }

  function DropVerify(x: World): World {
    World(x.w.(verify := None), Unref(x.r, x.w.verify))
  }

  function DropFilter(x: World): World {
    World(x.w.(filter := None), Unref(x.r, x.w.filter))
  }

  function DropClosure(x: World): World {
    World(x.w.(closure := None), Unref(x.r, x.w.closure))
  }

  function DropState(x: World): World {
    World(x.w.(state := None), Unref(x.r, x.w.state))
  }

  function DropTui(x: World): World {
    World(x.w.(tuiState := None), Unref(x.r, x.w.tuiState))
  }

  /** `revert`: the references of a readline first, then those every widget has. */
  function Revert(x: World): World {
    var y := if x.w.mode.Readline? then DropFilter(DropVerify(x)) else x;
    DropState(DropClosure(y.(w := y.w.(mode := Normal))))
  }

  function TakeVerify(x: World, wanted: bool): World {
    if wanted then World(x.w.(verify := Some(x.r.next)), Ref(x.r)) else x
  }

  function TakeFilter(x: World, wanted: bool): World {
    if wanted then World(x.w.(filter := Some(x.r.next)), Ref(x.r)) else x
  }

  function TakeClosure(x: World, mode: Mode): World {
    World(x.w.(closure := Some(x.r.next), mode := mode), Ref(x.r))
  }

  /** The state reference is stored without a look at what the field holds. */
  function TakeState(x: World): World {
    World(x.w.(state := Some(x.r.next)), Ref(Lose(x.r, x.w.state)))
  }

  function BeginReadline(x: World, verify: bool, filter: bool): World {
    TakeClosure(TakeFilter(TakeVerify(Revert(x), verify), filter), Readline)
  }

  /** `tuiclose`, as far as references go. */
  function Close(x: World): World {
    var y := Revert(x);
    DropTui(y.(w := y.w.(open := false)))
  }

  function Exec(x: World, op: Op): World
    decreases op
  {
    match op
    case CallReadline(verify, filter, setup) =>
      if !x.w.open then x else TakeState(ExecAll(BeginReadline(x, verify, filter), setup))
    case CallListView =>
      if !x.w.open || !x.w.mode.Normal? then x else TakeState(TakeClosure(Revert(x), ListWnd))
    case CallBufferView =>
      if !x.w.open || !x.w.mode.Normal? then x else TakeState(TakeClosure(Revert(x), BufWnd))
    case CallRevert => if !x.w.open then x else Revert(x)
    case CallClose =>
      if !x.w.open then x else Close(x)
  }

  function ExecAll(x: World, ops: seq<Op>): World
    decreases ops
  {
    if ops == [] then x else ExecAll(Exec(x, ops[0]), ops[1..])
  }

  /** `callback_revert`: closure and state are set aside, the widget is reverted, the callback runs, and only
      then are the two released. */
  function Complete(x: World, script: seq<Op>): World {
    if x.w.mode.Normal? then x
    else
      var closure, state := x.w.closure, x.w.state;
      var y := ExecAll(Revert(x.(w := x.w.(closure := None, state := None))), script);
      y.(r := Unref(Unref(y.r, closure), state))
  }

  function Handle(x: World, e: Event): World {
    match e
    case Direct(op) => Exec(x, op)
    case Completes(script) => Complete(x, script)
  }

  // ------------------------------------------------------------------ ownership

  /** Every place that can hold a reference: the fields of the window, and the two that a running
      completion has set aside. */
  function Holders(w: Wnd, closure: Option<int>, state: Option<int>): seq<Option<int>> {
    [w.closure, w.state, w.verify, w.filter, w.tuiState, closure, state]
  }

  /** Live references are exactly those held, each held once, and those lost; every reference ever handed
      out is live or has been released; nothing was released twice. */
  ghost predicate Exact(r: Registry, h: seq<Option<int>>) {
    && !r.faulty && 0 <= r.next
    && (forall i, j :: 0 <= i < j < |h| && h[i].Some? && h[j].Some? ==> h[i] != h[j])
    && (forall i :: 0 <= i < |h| && h[i].Some? ==> h[i].value in r.live && h[i].value !in r.lost)
    && (forall x :: x in r.live && x !in r.lost ==> exists i :: 0 <= i < |h| && h[i] == Some(x))
    && r.lost <= r.live
    && r.live !! r.released
    && (forall x :: 0 <= x < r.next <==> x in r.live + r.released)
  }

  lemma RefExact(r: Registry, h: seq<Option<int>>, i: nat)
    requires Exact(r, h) && i < |h| && h[i].None?
    ensures Exact(Ref(r), h[i := Some(r.next)])
  {
    var h', r' := h[i := Some(r.next)], Ref(r);
    assert r.next !in r.live + r.released;
    assert forall k :: 0 <= k < |h| && h[k].Some? ==> h[k].value in r.live + r.released;
    forall x | x in r'.live && x !in r'.lost
      ensures exists k :: 0 <= k < |h'| && h'[k] == Some(x)
    {
      if x == r.next {
        assert h'[i] == Some(x);
      } else {
        var k :| 0 <= k < |h| && h[k] == Some(x);
        assert h'[k] == Some(x);
      }
    }
  }

  lemma UnrefExact(r: Registry, h: seq<Option<int>>, i: nat)
    requires Exact(r, h) && i < |h|
    ensures Exact(Unref(r, h[i]), h[i := None])
  {
    var h', r' := h[i := None], Unref(r, h[i]);
    assert r'.live + r'.released == r.live + r.released;
    forall x | x in r'.live && x !in r'.lost
      ensures exists k :: 0 <= k < |h'| && h'[k] == Some(x)
    {
      var k :| 0 <= k < |h| && h[k] == Some(x);
      assert k != i ==> h'[k] == Some(x);
    }
  }

  /** A reference is written over. */
  lemma LoseExact(r: Registry, h: seq<Option<int>>, i: nat)
    requires Exact(r, h) && i < |h|
    ensures Exact(Lose(r, h[i]), h[i := None])
    ensures |Lose(r, h[i]).lost| == |r.lost| + if h[i].Some? then 1 else 0
  {
    var h', r' := h[i := None], Lose(r, h[i]);
    forall x | x in r'.live && x !in r'.lost
      ensures exists k :: 0 <= k < |h'| && h'[k] == Some(x)
    {
      var k :| 0 <= k < |h| && h[k] == Some(x);
      assert h'[k] == Some(x);
    }
  }

  /** A reference changes hands. */
  lemma MoveExact(r: Registry, h: seq<Option<int>>, i: nat, j: nat)
    requires Exact(r, h) && i < |h| && j < |h| && i != j && h[j].None?
    ensures Exact(r, h[j := h[i]][i := None])
  {
    var h' := h[j := h[i]][i := None];
    forall x | x in r.live && x !in r.lost
      ensures exists k :: 0 <= k < |h'| && h'[k] == Some(x)
    {
      var k :| 0 <= k < |h| && h[k] == Some(x);
      assert h'[if k == i then j else k] == Some(x);
    }
  }

  /** The window's fields and the references set aside are exact, and only a readline has callbacks of its
      own. */
  ghost predicate Owned(x: World, closure: Option<int>, state: Option<int>) {
    && Exact(x.r, Holders(x.w, closure, state))
    && (!x.w.mode.Readline? ==> x.w.verify.None? && x.w.filter.None?)
  }

  lemma DropsOwned(x: World, c: Option<int>, s: Option<int>)
    requires Exact(x.r, Holders(x.w, c, s))
    ensures Exact(DropVerify(x).r, Holders(DropVerify(x).w, c, s))
    ensures Exact(DropFilter(x).r, Holders(DropFilter(x).w, c, s))
    ensures Exact(DropClosure(x).r, Holders(DropClosure(x).w, c, s))
    ensures Exact(DropState(x).r, Holders(DropState(x).w, c, s))
  {
    hide Exact, Unref;
    var h := Holders(x.w, c, s);
    UnrefExact(x.r, h, 2);
    UnrefExact(x.r, h, 3);
    UnrefExact(x.r, h, 0);
    UnrefExact(x.r, h, 1);
    assert Holders(DropVerify(x).w, c, s) == h[2 := None];
    assert Holders(DropFilter(x).w, c, s) == h[3 := None];
    assert Holders(DropClosure(x).w, c, s) == h[0 := None];
    assert Holders(DropState(x).w, c, s) == h[1 := None];
  }

  /** Reverting releases what the widget holds and nothing else. */
  lemma RevertOwned(x: World, c: Option<int>, s: Option<int>)
    requires Owned(x, c, s)
    ensures var y := Revert(x);
            && Owned(y, c, s) && y.w.mode.Normal? && y.w.open == x.w.open && y.w.tuiState == x.w.tuiState
            && y.w.closure.None? && y.w.state.None? && y.w.verify.None? && y.w.filter.None?
  {
    hide Exact, Unref;
    var y := x;
    if x.w.mode.Readline? {
      DropsOwned(x, c, s);
      DropsOwned(DropVerify(x), c, s);
      y := DropFilter(DropVerify(x));
    }
    var z := y.(w := y.w.(mode := Normal));
    assert Holders(z.w, c, s) == Holders(y.w, c, s);
    DropsOwned(z, c, s);
    DropsOwned(DropClosure(z), c, s);
  }

  lemma TakesOwned(x: World, c: Option<int>, s: Option<int>, mode: Mode)
    requires Exact(x.r, Holders(x.w, c, s))
    ensures x.w.verify.None? ==> Exact(TakeVerify(x, true).r, Holders(TakeVerify(x, true).w, c, s))
    ensures x.w.filter.None? ==> Exact(TakeFilter(x, true).r, Holders(TakeFilter(x, true).w, c, s))
    ensures x.w.closure.None? ==> Exact(TakeClosure(x, mode).r, Holders(TakeClosure(x, mode).w, c, s))
  {
    hide Exact, Ref;
    var h := Holders(x.w, c, s);
    if x.w.verify.None? { RefExact(x.r, h, 2); }
    if x.w.filter.None? { RefExact(x.r, h, 3); }
    if x.w.closure.None? { RefExact(x.r, h, 0); }
    assert Holders(TakeVerify(x, true).w, c, s) == h[2 := Some(x.r.next)];
    assert Holders(TakeFilter(x, true).w, c, s) == h[3 := Some(x.r.next)];
    assert Holders(TakeClosure(x, mode).w, c, s) == h[0 := Some(x.r.next)];
  }

  /** Storing the state reference keeps the accounts, and loses a reference exactly when the field still
      holds one. */
  lemma TakeStateOwned(x: World, c: Option<int>, s: Option<int>)
    requires Owned(x, c, s)
    ensures Owned(TakeState(x), c, s)
    ensures |TakeState(x).r.lost| == |x.r.lost| + if x.w.state.Some? then 1 else 0
  {
    var h := Holders(x.w, c, s);
    LoseExact(x.r, h, 1);
    RefExact(Lose(x.r, h[1]), h[1 := None], 1);
    hide Exact, Ref, Lose;
    assert Holders(TakeState(x).w, c, s) == h[1 := None][1 := Some(x.r.next)];
  }

  lemma BeginOwned(x: World, c: Option<int>, s: Option<int>, verify: bool, filter: bool)
    requires Owned(x, c, s)
    ensures var y := BeginReadline(x, verify, filter);
            Owned(y, c, s) && y.w.mode.Readline? && y.w.state.None? && y.w.open == x.w.open
  {
    RevertOwned(x, c, s);
    hide Revert, Exact, Unref, Ref;
    var a := Revert(x);
    TakesOwned(a, c, s, Readline);
    var b := TakeVerify(a, verify);
    TakesOwned(b, c, s, Readline);
    var d := TakeFilter(b, filter);
    TakesOwned(d, c, s, Readline);
  }

  // ------------------------------------------------------------------ what a setup leaves installed

  /** A window without its references: open, mode, and whether the state field is taken. */
  datatype Outline = Outline(open: bool, mode: Mode, taken: bool)

  function OutlineOf(w: Wnd): Outline {
    Outline(w.open, w.mode, w.state.Some?)
  }

  function OutlineExec(o: Outline, op: Op): Outline
    decreases op
  {
    match op
    case CallReadline(_, _, setup) =>
      if !o.open then o else OutlineAll(Outline(true, Readline, false), setup).(taken := true)
    case CallListView => if !o.open || !o.mode.Normal? then o else Outline(true, ListWnd, true)
    case CallBufferView => if !o.open || !o.mode.Normal? then o else Outline(true, BufWnd, true)
    case CallRevert => if !o.open then o else Outline(true, Normal, false)
    case CallClose => if !o.open then o else Outline(false, Normal, false)
  }

  function OutlineAll(o: Outline, ops: seq<Op>): Outline
    decreases ops
  {
    if ops == [] then o else OutlineAll(OutlineExec(o, ops[0]), ops[1..])
  }

  /** How many references an operation loses: one for each readline whose setup callbacks leave another
      widget installed. */
  function LostBy(o: Outline, op: Op): nat
    decreases op
  {
    if !op.CallReadline? || !o.open then 0
    else
      var begun := Outline(true, Readline, false);
      LostByAll(begun, op.setup) + if OutlineAll(begun, op.setup).taken then 1 else 0
  }

  function LostByAll(o: Outline, ops: seq<Op>): nat
    decreases ops
  {
    if ops == [] then 0 else LostBy(o, ops[0]) + LostByAll(OutlineExec(o, ops[0]), ops[1..])
  }

  function OutlineHandle(o: Outline, e: Event): Outline {
    match e
    case Direct(op) => OutlineExec(o, op)
    case Completes(script) => if o.mode.Normal? then o else OutlineAll(Outline(o.open, Normal, false), script)
  }

  function LostByEvent(o: Outline, e: Event): nat {
    match e
    case Direct(op) => LostBy(o, op)
    case Completes(script) => if o.mode.Normal? then 0 else LostByAll(Outline(o.open, Normal, false), script)
  }

  function LostByRun(o: Outline, run: seq<Event>): nat
    decreases |run|
  {
    if run == [] then 0 else LostByEvent(o, run[0]) + LostByRun(OutlineHandle(o, run[0]), run[1..])
  }

  function OutlineRun(o: Outline, run: seq<Event>): Outline
    decreases |run|
  {
    if run == [] then o else OutlineRun(OutlineHandle(o, run[0]), run[1..])
  }

  // ------------------------------------------------------------------ windows closed by a setup

  /** The operation is a readline whose setup callbacks close the window. */
  predicate ClosesInSetup(o: Outline, op: Op) {
    op.CallReadline? && o.open && !OutlineAll(Outline(true, Readline, false), op.setup).open
  }

  predicate AnyClosesInSetup(o: Outline, ops: seq<Op>)
    decreases |ops|
  {
    ops != [] && (ClosesInSetup(o, ops[0]) || AnyClosesInSetup(OutlineExec(o, ops[0]), ops[1..]))
  }

  predicate EventClosesInSetup(o: Outline, e: Event) {
    match e
    case Direct(op) => ClosesInSetup(o, op)
    case Completes(script) => !o.mode.Normal? && AnyClosesInSetup(Outline(o.open, Normal, false), script)
  }

  /** Somewhere in the run a readline has its window closed by its own setup callbacks. */
  predicate RunClosesInSetup(o: Outline, run: seq<Event>)
    decreases |run|
  {
    run != [] && (EventClosesInSetup(o, run[0]) || RunClosesInSetup(OutlineHandle(o, run[0]), run[1..]))
  }

  /** A closed window has no widget. */
  predicate Possible(o: Outline) {
    !o.open ==> o.mode.Normal?
  }

  lemma {:induction false} ClosedStays(o: Outline, ops: seq<Op>)
    requires !o.open
    ensures OutlineAll(o, ops) == o && !AnyClosesInSetup(o, ops)
    decreases |ops|
  {
    if ops != [] {
      ClosedStays(o, ops[1..]);
    }
  }

  lemma {:induction false} ExecPossible(o: Outline, op: Op)
    requires Possible(o)
    ensures Possible(OutlineExec(o, op))
    decreases op
  {
    if op.CallReadline? && o.open {
      AllPossible(Outline(true, Readline, false), op.setup);
    }
  }

  lemma {:induction false} AllPossible(o: Outline, ops: seq<Op>)
    requires Possible(o)
    ensures Possible(OutlineAll(o, ops))
    decreases ops
  {
    if ops != [] {
      ExecPossible(o, ops[0]);
      AllPossible(OutlineExec(o, ops[0]), ops[1..]);
    }
  }

  /** A window is closed with its state field taken exactly when a setup closed it. */
  lemma {:induction false} AllClosedTakenIff(o: Outline, ops: seq<Op>)
    requires o.open
    ensures var o' := OutlineAll(o, ops);
            if o'.open then !AnyClosesInSetup(o, ops) else (o'.taken <==> AnyClosesInSetup(o, ops))
    decreases |ops|
  {
    if ops != [] {
      var a := OutlineExec(o, ops[0]);
      if a.open {
        AllClosedTakenIff(a, ops[1..]);
      } else {
        ClosedStays(a, ops[1..]);
      }
    }
  }

  lemma {:induction false} RunStaysClosed(o: Outline, run: seq<Event>)
    requires Possible(o) && !o.open
    ensures OutlineRun(o, run) == o && !RunClosesInSetup(o, run)
    decreases |run|
  {
    if run != [] {
      RunStaysClosed(o, run[1..]);
    }
  }

  lemma {:induction false} RunClosedTakenIff(o: Outline, run: seq<Event>)
    requires o.open
    ensures var o' := OutlineRun(o, run);
            if o'.open then !RunClosesInSetup(o, run) else (o'.taken <==> RunClosesInSetup(o, run))
    decreases |run|
  {
    if run != [] {
      var e, a := run[0], OutlineHandle(o, run[0]);
      match e {
        case Direct(op) => ExecPossible(o, op);
        case Completes(script) =>
          AllPossible(Outline(o.open, Normal, false), script);
          AllClosedTakenIff(Outline(o.open, Normal, false), script);
      }
      if a.open {
        RunClosedTakenIff(a, run[1..]);
      } else {
        RunStaysClosed(a, run[1..]);
      }
    }
  }

  lemma RevertOutline(x: World)
    ensures OutlineOf(Revert(x).w) == Outline(x.w.open, Normal, false)
  {
  }

  lemma {:induction false} ExecOutline(x: World, op: Op)
    ensures OutlineOf(Exec(x, op).w) == OutlineExec(OutlineOf(x.w), op)
    decreases op
  {
    hide Unref, Ref;
    RevertOutline(x);
    if op.CallReadline? && x.w.open {
      ExecAllOutline(BeginReadline(x, op.verify, op.filter), op.setup);
    }
  }

  lemma {:induction false} ExecAllOutline(x: World, ops: seq<Op>)
    ensures OutlineOf(ExecAll(x, ops).w) == OutlineAll(OutlineOf(x.w), ops)
    decreases ops
  {
    if ops != [] {
      ExecOutline(x, ops[0]);
      ExecAllOutline(Exec(x, ops[0]), ops[1..]);
    }
  }

  /** The callbacks of a setup that cannot change the widget: views are refused while a readline is installed. */
  lemma {:induction false} ViewsRefused(x: World, ops: seq<Op>)
    requires x.w.mode.Readline? && forall i :: 0 <= i < |ops| ==> ops[i].CallListView? || ops[i].CallBufferView?
    ensures ExecAll(x, ops) == x
    decreases |ops|
  {
    if ops != [] {
      assert Exec(x, ops[0]) == x;
      assert forall i :: 0 <= i < |ops[1..]| ==> ops[1..][i] == ops[i + 1];
      ViewsRefused(x, ops[1..]);
    }
  }

  /** A readline whose setup leaves it alone holds exactly the callbacks it was given, its closure and its state, each
      under a reference of its own that has never been handed out before. */
  lemma ReadlineHolds(x: World, verify: bool, filter: bool, setup: seq<Op>)
    requires Owned(x, None, None) && x.w.open
    requires forall i :: 0 <= i < |setup| ==> setup[i].CallListView? || setup[i].CallBufferView?
    ensures var y := Exec(x, CallReadline(verify, filter, setup));
            && y.w.open && y.w.mode.Readline? && Owned(y, None, None)
            && (y.w.verify.Some? <==> verify) && (y.w.filter.Some? <==> filter)
            && y.w.closure.Some? && y.w.state.Some? && y.r.lost == x.r.lost
            && forall i :: 0 <= i < 4 && Holders(y.w, None, None)[i].Some? ==>
                 Holders(y.w, None, None)[i].value >= x.r.next
  {
    RevertOwned(x, None, None);
    RevertNext(x);
    BeginOwned(x, None, None, verify, filter);
    ExecOwned(x, CallReadline(verify, filter, setup), None, None);
    var z := BeginReadline(x, verify, filter);
    hide Owned, Exact, Revert;
    BeginTakes(Revert(x), verify, filter);
    ViewsRefused(z, setup);
  }

  lemma RevertNext(x: World)
    ensures Revert(x).r.next == x.r.next && Revert(x).r.lost == x.r.lost
  {
  }

  lemma BeginTakes(a: World, verify: bool, filter: bool)
    requires a.w.verify.None? && a.w.filter.None?
    ensures var z := TakeClosure(TakeFilter(TakeVerify(a, verify), filter), Readline);
            && (z.w.verify.Some? <==> verify) && (z.w.filter.Some? <==> filter) && z.w.closure.Some?
            && (verify ==> z.w.verify.value >= a.r.next) && (filter ==> z.w.filter.value >= a.r.next)
            && z.w.closure.value >= a.r.next && z.r.next > a.r.next && z.r.lost == a.r.lost
            && z.w.state == a.w.state && z.w.open == a.w.open
  {
  }

  /** A closed window holds at most a state reference. */
  predicate ShutOff(w: Wnd) {
    !w.open ==> w.mode.Normal? && w.closure.None? && w.verify.None? && w.filter.None? && w.tuiState.None?
  }

  lemma {:induction false} ExecShutOff(x: World, op: Op)
    requires ShutOff(x.w) && (!x.w.mode.Readline? ==> x.w.verify.None? && x.w.filter.None?)
    ensures var w := Exec(x, op).w; ShutOff(w) && (!w.mode.Readline? ==> w.verify.None? && w.filter.None?)
    decreases op
  {
    hide Unref, Ref, Lose;
    if op.CallReadline? && x.w.open {
      ExecAllShutOff(BeginReadline(x, op.verify, op.filter), op.setup);
    }
  }

  lemma {:induction false} ExecAllShutOff(x: World, ops: seq<Op>)
    requires ShutOff(x.w) && (!x.w.mode.Readline? ==> x.w.verify.None? && x.w.filter.None?)
    ensures var w := ExecAll(x, ops).w; ShutOff(w) && (!w.mode.Readline? ==> w.verify.None? && w.filter.None?)
    decreases ops
  {
    if ops != [] {
      ExecShutOff(x, ops[0]);
      hide Exec;
      ExecAllShutOff(Exec(x, ops[0]), ops[1..]);
    }
  }

  // ------------------------------------------------------------------ every step and every run

  /** The accounts are in order, and `n` more references are lost than before. */
  ghost predicate Loses(x: World, y: World, n: nat, c: Option<int>, s: Option<int>) {
    Owned(y, c, s) && |y.r.lost| == |x.r.lost| + n
  }

  lemma LostStays(x: World, mode: Mode, verify: bool, filter: bool)
    ensures Revert(x).r.lost == x.r.lost && TakeClosure(x, mode).r.lost == x.r.lost
    ensures BeginReadline(x, verify, filter).r.lost == x.r.lost
  {
  }

  lemma InstallOwned(x: World, c: Option<int>, s: Option<int>, mode: Mode)
    requires Owned(x, c, s) && !mode.Readline?
    ensures Loses(x, TakeState(TakeClosure(Revert(x), mode)), 0, c, s)
  {
    RevertOwned(x, c, s);
    LostStays(x, mode, false, false);
    hide Revert, Exact, Unref, Ref;
    var y := Revert(x);
    TakesOwned(y, c, s, mode);
    TakeStateOwned(TakeClosure(y, mode), c, s);
  }

  lemma CloseOwned(x: World, c: Option<int>, s: Option<int>)
    requires Owned(x, c, s) && x.w.open
    ensures Loses(x, Close(x), 0, c, s) && !Close(x).r.faulty
    ensures c.None? && s.None? ==> Close(x).r.live == x.r.lost
  {
    RevertOwned(x, c, s);
    LostStays(x, Normal, false, false);
    var y := Revert(x);
    hide Exact, Revert, DropTui;
    var a := y.(w := y.w.(open := false));
    assert Holders(a.w, c, s) == Holders(y.w, c, s);
    DropTuiOwned(a, c, s);
  }

  lemma DropTuiOwned(x: World, c: Option<int>, s: Option<int>)
    requires Exact(x.r, Holders(x.w, c, s))
    ensures var y := DropTui(x);
            && Exact(y.r, Holders(y.w, c, s)) && y.r.lost == x.r.lost && !y.r.faulty && y.w.open == x.w.open
            && y.w == x.w.(tuiState := None)
    ensures x.w.closure.None? && x.w.state.None? && x.w.verify.None? && x.w.filter.None? && c.None? && s.None? ==>
              DropTui(x).r.live == x.r.lost
  {
    var h, y := Holders(x.w, c, s), DropTui(x);
    var left := h[4 := None];
    UnrefExact(x.r, h, 4);
    UnrefStays(x.r, x.w.tuiState);
    StillSound(y.r, left);
    hide Exact, Unref;
    assert Holders(y.w, c, s) == left;
    if forall i :: 0 <= i < 7 ==> left[i].None? {
      NobodyHolds(y.r, left);
    }
  }

  lemma UnrefStays(r: Registry, ref: Option<int>)
    ensures Unref(r, ref).lost == r.lost
  {
  }

  lemma StillSound(r: Registry, h: seq<Option<int>>)
    requires Exact(r, h)
    ensures !r.faulty
  {
  }

  lemma NobodyHolds(r: Registry, h: seq<Option<int>>)
    requires Exact(r, h) && forall i :: 0 <= i < |h| ==> h[i].None?
    ensures r.live == r.lost
  {
    assert forall x, i :: 0 <= i < |h| ==> h[i] != Some(x);
    assert forall x :: x in r.live ==> x in r.lost;
  }

  lemma {:induction false} ExecOwned(x: World, op: Op, c: Option<int>, s: Option<int>)
    requires Owned(x, c, s)
    ensures Loses(x, Exec(x, op), LostBy(OutlineOf(x.w), op), c, s)
    decreases op
  {
    LostStays(x, Normal, false, false);
    hide Owned, Revert;
    if x.w.open {
      match op
      case CallReadline(verify, filter, setup) =>
        var y := BeginReadline(x, verify, filter);
        BeginOwned(x, c, s, verify, filter);
        LostStays(x, Normal, verify, filter);
        ExecAllOwned(y, setup, c, s);
        ExecAllOutline(y, setup);
        hide ExecAll, BeginReadline;
        TakeStateOwned(ExecAll(y, setup), c, s);
      case CallListView => InstallOwned(x, c, s, ListWnd);
      case CallBufferView => InstallOwned(x, c, s, BufWnd);
      case CallRevert => RevertOwned(x, c, s);
      case CallClose => CloseOwned(x, c, s);
    }
  }

  lemma {:induction false} ExecAllOwned(x: World, ops: seq<Op>, c: Option<int>, s: Option<int>)
    requires Owned(x, c, s)
    ensures Loses(x, ExecAll(x, ops), LostByAll(OutlineOf(x.w), ops), c, s)
    decreases ops
  {
    hide Owned;
    if ops != [] {
      ExecOwned(x, ops[0], c, s);
      ExecOutline(x, ops[0]);
      ExecAllOwned(Exec(x, ops[0]), ops[1..], c, s);
    }
  }

  /** A readline loses a reference exactly when the callbacks of its setup, in a row or nested, leave
      another widget behind. */
  lemma ReadlineLosesIff(x: World, verify: bool, filter: bool, setup: seq<Op>)
    requires Owned(x, None, None) && x.w.open
    ensures var begun := Outline(true, Readline, false);
            Exec(x, CallReadline(verify, filter, setup)).r.lost == x.r.lost
            <==> LostByAll(begun, setup) == 0 && !OutlineAll(begun, setup).taken
  {
    var op := CallReadline(verify, filter, setup);
    ExecOwned(x, op, None, None);
    ExecLostGrows(x, op);
    SubsetSize(x.r.lost, Exec(x, op).r.lost);
  }

  lemma {:induction false} ExecLostGrows(x: World, op: Op)
    ensures x.r.lost <= Exec(x, op).r.lost
    decreases op
  {
    LostStays(x, ListWnd, false, false);
    LostStays(Revert(x), ListWnd, false, false);
    LostStays(Revert(x), BufWnd, false, false);
    hide Revert, TakeClosure;
    if op.CallReadline? && x.w.open {
      LostStays(x, Normal, op.verify, op.filter);
      ExecAllLostGrows(BeginReadline(x, op.verify, op.filter), op.setup);
    }
  }

  lemma {:induction false} ExecAllLostGrows(x: World, ops: seq<Op>)
    ensures x.r.lost <= ExecAll(x, ops).r.lost
    decreases ops
  {
    if ops != [] {
      ExecLostGrows(x, ops[0]);
      hide Exec;
      ExecAllLostGrows(Exec(x, ops[0]), ops[1..]);
    }
  }

  /** A completed widget gives up its references exactly once, whatever its callback installs or reverts. */
  lemma CompleteOwned(x: World, script: seq<Op>)
    requires Owned(x, None, None)
    ensures Loses(x, Complete(x, script), LostByEvent(OutlineOf(x.w), Completes(script)), None, None)
    ensures OutlineOf(Complete(x, script).w) == OutlineHandle(OutlineOf(x.w), Completes(script))
  {
    if !x.w.mode.Normal? {
      var c, s := x.w.closure, x.w.state;
      var h := Holders(x.w, None, None);
      var a := x.(w := x.w.(closure := None, state := None));
      MoveExact(x.r, h, 0, 5);
      MoveExact(x.r, h[5 := c][0 := None], 1, 6);
      assert Holders(a.w, c, s) == h[5 := c][0 := None][6 := s][1 := None];
      assert Owned(a, c, s);
      LostStays(a, Normal, false, false);
      RevertOutline(a);
      ExecAllOutline(Revert(a), script);
      hide Exact, Unref, Revert, ExecAll, LostByAll, OutlineAll;
      RevertOwned(a, c, s);
      var y := ExecAll(Revert(a), script);
      ExecAllOwned(Revert(a), script, c, s);
      ReleasesTwo(y, c, s);
    }
  }

  /** The two references set aside are released at the end. */
  lemma ReleasesTwo(y: World, c: Option<int>, s: Option<int>)
    requires Owned(y, c, s)
    ensures Loses(y, y.(r := Unref(Unref(y.r, c), s)), 0, None, None)
  {
    var k := Holders(y.w, c, s);
    UnrefExact(y.r, k, 5);
    UnrefExact(Unref(y.r, c), k[5 := None], 6);
    hide Exact;
    assert Holders(y.w, None, None) == k[5 := None][6 := None];
  }

  function RunAll(x: World, run: seq<Event>): World
    decreases |run|
  {
    if run == [] then x else RunAll(Handle(x, run[0]), run[1..])
  }

  lemma {:induction false} RunOwned(x: World, run: seq<Event>)
    requires Owned(x, None, None)
    ensures Loses(x, RunAll(x, run), LostByRun(OutlineOf(x.w), run), None, None)
    decreases |run|
  {
    hide Owned, Exec, Complete, LostBy, LostByAll, OutlineExec, OutlineAll;
    if run != [] {
      match run[0] {
        case Direct(op) =>
          ExecOwned(x, op, None, None);
          ExecOutline(x, op);
        case Completes(script) => CompleteOwned(x, script);
      }
      RunOwned(Handle(x, run[0]), run[1..]);
    }
  }

  lemma {:induction false} RunShutOff(x: World, run: seq<Event>)
    requires ShutOff(x.w) && (!x.w.mode.Readline? ==> x.w.verify.None? && x.w.filter.None?)
    ensures ShutOff(RunAll(x, run).w) && OutlineOf(RunAll(x, run).w) == OutlineRun(OutlineOf(x.w), run)
    decreases |run|
  {
    hide Exec, ExecAll, OutlineExec, OutlineAll, ShutOff;
    if run != [] {
      match run[0] {
        case Direct(op) =>
          ExecShutOff(x, op);
          ExecOutline(x, op);
        case Completes(script) => CompleteShutOff(x, script);
      }
      RunShutOff(Handle(x, run[0]), run[1..]);
    }
  }

  lemma CompleteShutOff(x: World, script: seq<Op>)
    requires ShutOff(x.w) && (!x.w.mode.Readline? ==> x.w.verify.None? && x.w.filter.None?)
    ensures var w := Complete(x, script).w; ShutOff(w) && (!w.mode.Readline? ==> w.verify.None? && w.filter.None?)
    ensures OutlineOf(Complete(x, script).w) == OutlineHandle(OutlineOf(x.w), Completes(script))
  {
    hide Unref, ExecAll, OutlineAll;
    if !x.w.mode.Normal? {
      var a := Revert(x.(w := x.w.(closure := None, state := None)));
      ExecAllShutOff(a, script);
      ExecAllOutline(a, script);
    }
  }

  /** What a closed window still keeps alive is what is lost, and its state reference if it has one. */
  lemma ClosedKeeps(x: World)
    requires Owned(x, None, None) && ShutOff(x.w) && !x.w.open
    ensures x.r.live == x.r.lost <==> x.w.state.None?
    ensures x.w.state.Some? ==> x.r.live == x.r.lost + {x.w.state.value}
  {
    var h := Holders(x.w, None, None);
    assert forall i :: 0 <= i < 7 && i != 1 ==> h[i].None?;
    assert h[1] == x.w.state;
    OnlyHolder(x.r, h, 1);
  }

  lemma OnlyHolder(r: Registry, h: seq<Option<int>>, i: nat)
    requires Exact(r, h) && i < |h| && forall k :: 0 <= k < |h| && k != i ==> h[k].None?
    ensures if h[i].Some? then r.live == r.lost + {h[i].value} && h[i].value !in r.lost else r.live == r.lost
  {
    forall x | x in r.live && x !in r.lost
      ensures h[i] == Some(x)
    {
      var k :| 0 <= k < |h| && h[k] == Some(x);
    }
  }

  /** A window as it is opened: one reference, to itself. */
  const OPENED_WINDOW := World(Wnd(true, Normal, None, None, None, None, Some(0)), Registry({0}, {}, {}, 1, false))

  lemma OpenedOwned()
    ensures Owned(OPENED_WINDOW, None, None)
  {
    assert Holders(OPENED_WINDOW.w, None, None)[4] == Some(0);
  }

  /** Over any run from the opening of a window, with callbacks that install, revert and close as they
      please: no reference is released twice or while a field still holds it; live references are those in
      the fields and the lost ones; and there are exactly as many lost ones as there were readlines whose
      setup left another widget installed.  Closing an open window releases everything else; and a window
      that is closed keeps nothing else alive exactly when no readline had it closed by its own setup. */
  lemma LinearOwnership(run: seq<Event>)
    ensures var x, o := RunAll(OPENED_WINDOW, run), OutlineOf(OPENED_WINDOW.w);
            && Owned(x, None, None) && |x.r.lost| == LostByRun(o, run)
            && (x.w.open ==> Exec(x, CallClose).r.live == x.r.lost && !Exec(x, CallClose).r.faulty)
            && (!x.w.open ==> (x.r.live == x.r.lost <==> !RunClosesInSetup(o, run)))
  {
    hide RunAll, Holders, Owned, LostByRun, RunClosesInSetup, OutlineRun;
    var x, o := RunAll(OPENED_WINDOW, run), OutlineOf(OPENED_WINDOW.w);
    OpenedOwned();
    RunOwned(OPENED_WINDOW, run);
    RunShutOff(OPENED_WINDOW, run);
    RunClosedTakenIff(o, run);
    if x.w.open {
      CloseOwned(x, None, None);
    } else {
      ClosedKeeps(x);
    }
  }

  /** A readline whose setup closes the window leaves its state reference to a window that refuses everything:
      whatever comes after, nothing releases it. */
  lemma SetupThatClosesLeaks(run: seq<Event>)
    ensures var x := RunAll(OPENED_WINDOW, [Direct(CallReadline(false, false, [CallClose]))] + run);
            !x.w.open && x.r.live == {2} && x.r.lost == {}
  {
    var op := CallReadline(false, false, [CallClose]);
    var y := Exec(OPENED_WINDOW, op);
    CloseInSetup();
    assert ([Direct(op)] + run)[1..] == run;
    hide Exec;
    RefusesAll(y, run);
  }

  lemma CloseInSetup()
    ensures var y := Exec(OPENED_WINDOW, CallReadline(false, false, [CallClose]));
            !y.w.open && y.w.mode.Normal? && y.r.live == {2} && y.r.lost == {}
  {
    var a := BeginReadline(OPENED_WINDOW, false, false);
    var b := Exec(a, CallClose);
    assert [CallClose][1..] == [];
    assert ExecAll(a, [CallClose]) == ExecAll(b, []) == b;
    assert a.w.closure == Some(1) && a.r == Registry({0, 1}, {}, {}, 2, false);
    assert b.r.live == {} && b.w.state.None? && b.r.lost == {} && b.r.next == 2;
  }

  lemma {:induction false} RefusesAll(x: World, run: seq<Event>)
    requires !x.w.open && x.w.mode.Normal?
    ensures RunAll(x, run) == x
    decreases |run|
  {
    if run != [] {
      RefusesAll(x, run[1..]);
    }
  }

  /** A readline whose setup reverts and installs a list view loses the state reference of the list view. */
  lemma ReadlineOverListViewLeaks()
    ensures Exec(OPENED_WINDOW, CallReadline(false, false, [CallRevert, CallListView])).r.lost == {3}
  {
    var setup := [CallRevert, CallListView];
    var a := BeginReadline(OPENED_WINDOW, false, false);
    var b := Exec(a, CallRevert);
    var c := Exec(b, CallListView);
    assert setup[1..] == [CallListView] && setup[1..][1..] == [];
    assert ExecAll(a, setup) == ExecAll(b, setup[1..]) == ExecAll(c, []) == c;
    assert a.w.closure == Some(1) && a.r.next == 2 && a.r.lost == {};
    assert c.w.state == Some(3) && c.r.lost == {};
  }
}
