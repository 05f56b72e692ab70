/** The table of child windows of a window (`lua/tui_lua.c`): two parallel arrays, compacted in lockstep. */
module WindowTable {

  const SEGMENT_LIMIT: nat := 64

  /** One index of the two arrays; 0 is the null pointer. */
  datatype Slot = Slot(ctx: int, meta: int)

  const EMPTY_SLOT := Slot(0, 0)

  /** The arrays as one sequence of pairs, and the number of children. */
  datatype Table = Table(slots: seq<Slot>, n: nat)

  predicate Sized(t: Table) {
    |t.slots| == SEGMENT_LIMIT
  }

  /** The children counted fit the arrays. */
  predicate TableOk(t: Table) {
    Sized(t) && t.n < SEGMENT_LIMIT
  }

  /** The pairs whose context is set, in order. */
  function Kept(s: seq<Slot>): (r: seq<Slot>)
    ensures |r| <= |s|
  {
    if s == [] then [] else (if s[0].ctx != 0 then [s[0]] else []) + Kept(s[1..])
  }

  function Repeat(x: Slot, n: nat): (r: seq<Slot>)
    ensures |r| == n && forall i :: 0 <= i < n ==> r[i] == x
  {
    seq(n, _ => x)
  }

  /** `compact`: the children without the holes, then everything behind them, then as many times the pair
      that is read from behind the arrays as there were holes. */
  function Compact(t: Table, behind: Slot): (r: Table)
    requires TableOk(t)
    ensures TableOk(r)
  {
    Table(Partly(t.slots, behind, t.n + 1), |Kept(t.slots[1..t.n + 1])|)
  }

  /** Slot `i` is gone and what lies behind the arrays has come in at the end. */
  function Shifted(s: seq<Slot>, i: nat, behind: Slot): seq<Slot>
    requires i < |s|
  {
    s[..i] + s[i + 1..] + [behind]
  }

  /** The arrays once the first `j - 1` children have been looked at. */
  function Partly(s: seq<Slot>, behind: Slot, j: nat): (r: seq<Slot>)
    requires 1 <= j <= |s|
    ensures |r| == |s| && r[0] == s[0]
  {
    var kept := Kept(s[1..j]);
    [s[0]] + kept + s[j..] + Repeat(behind, j - 1 - |kept|)
  }

  /** The first slot with no context, or the number of slots. */
  function FirstFree(s: seq<Slot>): (i: nat)
    ensures i <= |s| && (forall j :: 0 <= j < i ==> s[j].ctx != 0) && (i < |s| ==> s[i].ctx == 0)
  {
    if s == [] || s[0].ctx == 0 then 0 else 1 + FirstFree(s[1..])
  }

  /** A child arrives: it takes the first free slot, if there is one. */
  function Arrive(t: Table, child: Slot): Table
    requires Sized(t)
  {
    var i := FirstFree(t.slots);
    if i < SEGMENT_LIMIT then Table(t.slots[i := child], t.n + 1) else t
  }

  /** Null both pointers at the given positions, sparing the window itself. */
  function Clear(s: seq<Slot>, bad: set<nat>): (r: seq<Slot>)
    ensures |r| == |s| && forall i :: 0 <= i < |s| ==> r[i] == if i in bad then EMPTY_SLOT else s[i]
  {
    seq(|s|, i requires 0 <= i < |s| => if i in bad then EMPTY_SLOT else s[i])
  }

  /** `run_sub_bitmap`. */
  function DropBad(t: Table, bad: set<nat>, behind: Slot): (r: Table)
    requires TableOk(t)
    ensures TableOk(r)
  {
    Compact(Table(Clear(t.slots, bad - {0}), t.n), behind)
  }

  /** Where a child is registered among the first `n`, if it is. */
  function FindMeta(s: seq<Slot>, n: nat, i: nat, meta: int): (r: set<nat>)
    requires n < |s|
    ensures forall j :: j in r ==> i <= j <= n && s[j].meta == meta
    decreases n + 1 - i
  {
    if i > n then {} else if s[i].meta == meta then {i} else FindMeta(s, n, i + 1, meta)
  }

  /** The part of `close` that deregisters a child from its parent. */
  function CloseChild(t: Table, meta: int, behind: Slot): (r: Table)
    requires TableOk(t)
    ensures TableOk(r)
  {
    DropBad(t, FindMeta(t.slots, t.n, 1, meta), behind)
  }

  // ------------------------------------------------------------------ the arrays

  class Window {
    const subs: array<int>
    const submeta: array<int>
    const parent: int
    var nSubs: nat

    ghost predicate Valid()
      reads this
    {
      subs.Length == submeta.Length == SEGMENT_LIMIT && subs != submeta
    }

    ghost function Slots(): (s: seq<Slot>)
      requires subs.Length == submeta.Length
      reads subs, submeta
      ensures |s| == subs.Length && forall i :: 0 <= i < |s| ==> s[i] == Slot(subs[i], submeta[i])
    {
      seq(subs.Length,
        i requires 0 <= i < subs.Length == submeta.Length reads subs, submeta => Slot(subs[i], submeta[i]))
    }

    ghost function View(): Table
      requires Valid()
      reads this, subs, submeta
    {
      Table(Slots(), nSubs)
    }

    /** What lies behind the two arrays in the window structure: the first entry of the second array, and
        the parent field. */
    ghost function Behind(): Slot
      requires Valid()
      reads this, submeta
    {
      Slot(submeta[0], parent)
    }

    constructor (ctx: int, self: int, parent: int)
      ensures Valid() && fresh(subs) && fresh(submeta) && this.parent == parent
      ensures View() == Table([Slot(ctx, self)] + Repeat(EMPTY_SLOT, SEGMENT_LIMIT - 1), 0)
    {
      subs := new int[SEGMENT_LIMIT](i => if i == 0 then ctx else 0);
      submeta := new int[SEGMENT_LIMIT](i => if i == 0 then self else 0);
      this.parent, nSubs := parent, 0;
    }

    /** `compact`: each hole is closed by moving everything behind it one place down, including one word
        from behind each array. */
    method CompactInPlace()
      requires Valid() && nSubs < SEGMENT_LIMIT
      modifies this`nSubs, subs, submeta
      ensures Valid() && View() == Compact(old(View()), old(Behind()))
    {
      hide Partly, Kept, Repeat, Shifted;
      ghost var t, behind := View(), Behind();
      var i: nat := 1;
      ghost var j: nat := 1;
      StartCompact(t.slots, behind);
      while i < nSubs + 1
        invariant 1 <= i <= j <= t.n + 1 && nSubs == t.n - (j - i) && Behind() == behind
        invariant i == 1 + |Kept(t.slots[1..j])|
        invariant Slots() == Partly(t.slots, behind, j)
        decreases nSubs + 1 - i
      {
        PartlyNext(t.slots, behind, j);
        if subs[i] != 0 {
          i := i + 1;
        } else {
          CloseHole(i);
          nSubs := nSubs - 1;
        }
        j := j + 1;
      }
    }

    /** The two memory moves. */
    method CloseHole(i: nat)
      requires Valid() && 1 <= i < SEGMENT_LIMIT
      modifies subs, submeta
      ensures Slots() == Shifted(old(Slots()), i, old(Behind())) && Behind() == old(Behind())
    {
      ShiftLeft(submeta, i, parent);
      ShiftLeft(subs, i, submeta[0]);
    }

    /** A new child takes the first free slot. */
    method Register(ctx: int, meta: int) returns (ok: bool)
      requires Valid() && ctx != 0
      modifies this`nSubs, subs, submeta
      ensures Valid() && View() == Arrive(old(View()), Slot(ctx, meta))
      ensures ok <==> FirstFree(old(Slots())) < SEGMENT_LIMIT
    {
      ghost var s := Slots();
      var i := 0;
      while i < SEGMENT_LIMIT
        invariant i <= SEGMENT_LIMIT && View() == old(View())
        invariant forall k :: 0 <= k < i ==> s[k].ctx != 0
      {
        if subs[i] == 0 {
          FirstFreeIs(s, i);
          subs[i], submeta[i] := ctx, meta;
          nSubs := nSubs + 1;
          assert Slots() == s[i := Slot(ctx, meta)];
          return true;
        }
        i := i + 1;
      }
      return false;
    }

    /** `run_sub_bitmap`: the set bits are the positions of the contexts that were reported bad. */
    method RunSubBitmap(bitmap: set<nat>)
      requires Valid() && nSubs < SEGMENT_LIMIT && forall p :: p in bitmap ==> p < SEGMENT_LIMIT
      modifies this`nSubs, subs, submeta
      ensures Valid() && View() == DropBad(old(View()), bitmap, old(Behind()))
    {
      var bits := bitmap;
      ghost var s := Slots();
      while bits != {}
        invariant bits <= bitmap && Valid() && nSubs == old(nSubs)
        invariant Slots() == Clear(s, bitmap - bits - {0})
        decreases bits
      {
        var pos :| pos in bits;
        bits := bits - {pos};
        if pos != 0 {
          subs[pos], submeta[pos] := 0, 0;
        }
      }
      assert bitmap - {} - {0} == bitmap - {0};
      CompactInPlace();
    }

    /** The part of `close` that takes a child off its parent's table. */
    method Deregister(meta: int)
      requires Valid() && nSubs < SEGMENT_LIMIT
      modifies this`nSubs, subs, submeta
      ensures Valid() && View() == CloseChild(old(View()), meta, old(Behind()))
    {
      ghost var s := Slots();
      var i := 1;
      ghost var found: set<nat> := {};
      while i < nSubs + 1
        invariant 1 <= i <= nSubs + 1 && Valid() && View() == old(View())
        invariant FindMeta(s, nSubs, 1, meta) == FindMeta(s, nSubs, i, meta)
      {
        if submeta[i] == meta {
          submeta[i], subs[i] := 0, 0;
          found := {i};
          break;
        }
        i := i + 1;
      }
      assert FindMeta(s, nSubs, 1, meta) == found;
      assert Slots() == Clear(s, found - {0});
      CompactInPlace();
    }
  }

  method ShiftLeft(a: array<int>, i: nat, behind: int)
    requires i < a.Length
    modifies a
    ensures forall k :: 0 <= k < a.Length ==>
              a[k] == if k < i then old(a[k]) else if k + 1 < a.Length then old(a[k + 1]) else behind
  {
    forall k | i <= k < a.Length {
      a[k] := if k + 1 < a.Length then a[k + 1] else behind;
    }
  }

  lemma StartCompact(s: seq<Slot>, behind: Slot)
    requires |s| > 1
    ensures Partly(s, behind, 1) == s && Kept(s[1..1]) == []
  {
    assert [s[0]] + s[1..] == s;
  }

  lemma {:induction false} KeptAppend(a: seq<Slot>, b: seq<Slot>)
    ensures Kept(a + b) == Kept(a) + Kept(b)
  {
    if a == [] {
      assert a + b == b;
    } else {
      assert (a + b)[1..] == a[1..] + b;
      KeptAppend(a[1..], b);
    }
  }

  lemma KeptPush(s: seq<Slot>, j: nat)
    requires 1 <= j < |s|
    ensures Kept(s[1..j + 1]) == Kept(s[1..j]) + if s[j].ctx != 0 then [s[j]] else []
  {
    KeptAppend(s[1..j], [s[j]]);
    assert s[1..j + 1] == s[1..j] + [s[j]];
    assert [s[j]][1..] == [];
  }

  /** Looking at one more child either keeps the arrays as they are or closes one hole. */
  lemma PartlyNext(s: seq<Slot>, behind: Slot, j: nat)
    requires 1 <= j < |s|
    ensures var i := 1 + |Kept(s[1..j])|;
            var now, next := Partly(s, behind, j), Partly(s, behind, j + 1);
            && i < |s| && now[i] == s[j]
            && next == (if s[j].ctx != 0 then now else Shifted(now, i, behind))
            && 1 + |Kept(s[1..j + 1])| == (if s[j].ctx != 0 then i + 1 else i)
  {
    hide Kept, Repeat, Shifted, Partly;
    KeptPush(s, j);
    var kept := Kept(s[1..j]);
    PartlyParts([s[0]], kept, s, j, Repeat(behind, j - 1 - |kept|), behind);
    RepeatPush(behind, j - 1 - |kept|);
    assert kept + [] == kept;
    PartlyIs(s, behind, j);
    PartlyIs(s, behind, j + 1);
  }

  lemma PartlyIs(s: seq<Slot>, behind: Slot, j: nat)
    requires 1 <= j <= |s|
    ensures var kept := Kept(s[1..j]);
            Partly(s, behind, j) == [s[0]] + kept + s[j..] + Repeat(behind, j - 1 - |kept|)
  {
  }

  lemma PartlyParts(a: seq<Slot>, kept: seq<Slot>, s: seq<Slot>, j: nat, r: seq<Slot>, behind: Slot)
    requires j < |s|
    ensures a + (kept + [s[j]]) + s[j + 1..] + r == a + kept + s[j..] + r
    ensures (a + kept + s[j..] + r)[|a| + |kept|] == s[j]
    ensures Shifted(a + kept + s[j..] + r, |a| + |kept|, behind) == a + kept + s[j + 1..] + (r + [behind])
  {
    assert s[j..] == [s[j]] + s[j + 1..];
    KeepStep(a, kept, s[j], s[j + 1..], r);
    HoleStep(a + kept, s[j], s[j + 1..], r, behind);
  }

  lemma KeepStep(a: seq<Slot>, kept: seq<Slot>, x: Slot, tail: seq<Slot>, r: seq<Slot>)
    ensures a + (kept + [x]) + tail + r == a + kept + ([x] + tail) + r
    ensures (a + kept + ([x] + tail) + r)[|a| + |kept|] == x
  {
  }

  lemma HoleStep(a: seq<Slot>, x: Slot, tail: seq<Slot>, r: seq<Slot>, b: Slot)
    ensures Shifted(a + ([x] + tail) + r, |a|, b) == a + tail + (r + [b])
  {
  }

  lemma RepeatPush(x: Slot, m: nat)
    ensures Repeat(x, m) + [x] == Repeat(x, m + 1)
  {
  }

  lemma {:induction false} FirstFreeIs(s: seq<Slot>, i: nat)
    requires i <= |s| && (forall j :: 0 <= j < i ==> s[j].ctx != 0) && (i < |s| ==> s[i].ctx == 0)
    ensures FirstFree(s) == i
  {
    if i > 0 {
      FirstFreeIs(s[1..], i - 1);
    }
  }

  // ------------------------------------------------------------------ whole lifetimes

  /** The children a window has now, in arrival order, and how many have ever been registered with it. */
  datatype Family = Family(live: seq<Slot>, ever: nat)

  /** What the window can be asked to do with its table. */
  datatype TableOp =
    | Arrival(child: Slot)
    | ChildCloses(meta: int)
    | ReportedBad(bad: set<nat>)

  /** The table of a window with `f.live` children: they follow the window itself in arrival order; of the
      other slots, those never used are empty, and one for each child that has left holds what lies
      behind the arrays. */
  function Layout(self: Slot, behind: Slot, f: Family): (t: Table)
    requires |f.live| <= f.ever < SEGMENT_LIMIT
    ensures TableOk(t) && t.n == |f.live| && t.slots[0] == self
  {
    var empties, gone := Repeat(EMPTY_SLOT, SEGMENT_LIMIT - 1 - f.ever), Repeat(behind, f.ever - |f.live|);
    Table([self] + f.live + empties + gone, |f.live|)
  }

  ghost predicate FamilyOk(f: Family) {
    |f.live| <= f.ever < SEGMENT_LIMIT && forall i :: 0 <= i < |f.live| ==> f.live[i].ctx != 0
  }

  function Apply(t: Table, op: TableOp, behind: Slot): Table
    requires TableOk(t)
  {
    match op
    case Arrival(child) => Arrive(t, child)
    case ChildCloses(meta) => CloseChild(t, meta, behind)
    case ReportedBad(bad) => DropBad(t, bad, behind)
  }

  /** The children at the positions in `bad`, where the first child has position 1, leave. */
  function Leave(live: seq<Slot>, bad: set<nat>): seq<Slot> {
    Kept(Clear([EMPTY_SLOT] + live, bad - {0}))
  }

  /** The same steps on the list of children.  Only so many children as the table has slots are ever taken
      in, over the whole life of the window. */
  function Evolve(f: Family, op: TableOp): Family {
    match op
    case Arrival(child) =>
      if f.ever + 1 < SEGMENT_LIMIT then Family(f.live + [child], f.ever + 1) else f
    case ChildCloses(meta) => Family(Leave(f.live, FindMeta([EMPTY_SLOT] + f.live, |f.live|, 1, meta)), f.ever)
    case ReportedBad(bad) => Family(Leave(f.live, bad), f.ever)
  }

  lemma {:induction false} FirstFreeSkips(a: seq<Slot>, b: seq<Slot>)
    requires forall i :: 0 <= i < |a| ==> a[i].ctx != 0
    ensures FirstFree(a + b) == |a| + FirstFree(b)
  {
    if a == [] {
      assert a + b == b;
    } else {
      assert (a + b)[1..] == a[1..] + b;
      FirstFreeSkips(a[1..], b);
    }
  }

  lemma {:induction false} KeptAll(s: seq<Slot>)
    requires forall i :: 0 <= i < |s| ==> s[i].ctx != 0
    ensures Kept(s) == s
  {
    if s != [] {
      KeptAll(s[1..]);
    }
  }

  lemma {:induction false} KeptSet(s: seq<Slot>)
    ensures forall i :: 0 <= i < |Kept(s)| ==> Kept(s)[i].ctx != 0
  {
    if s != [] {
      KeptSet(s[1..]);
    }
  }

  lemma ArrivalKeepsLayout(self: Slot, behind: Slot, f: Family, child: Slot)
    requires FamilyOk(f) && self.ctx != 0 && behind.ctx != 0 && child.ctx != 0
    ensures FamilyOk(Evolve(f, Arrival(child)))
    ensures Arrive(Layout(self, behind, f), child) == Layout(self, behind, Evolve(f, Arrival(child)))
  {
    hide Layout, Repeat, FirstFree;
    var free, gone := SEGMENT_LIMIT - 1 - f.ever, f.ever - |f.live|;
    var used := [self] + f.live;
    var tail := Repeat(EMPTY_SLOT, free) + Repeat(behind, gone);
    LayoutIs(self, behind, f);
    MoveBehind(used, Repeat(EMPTY_SLOT, free), Repeat(behind, gone));
    FirstFreeSkips(used, tail);
    FirstFreeBehind(behind, free, gone);
    if free > 0 {
      FirstTaken(self, f.live, child, free, Repeat(behind, gone));
      LayoutIs(self, behind, Evolve(f, Arrival(child)));
    }
  }

  lemma MoveBehind<T>(a: seq<T>, b: seq<T>, c: seq<T>)
    ensures a + b + c == a + (b + c)
  {
  }

  lemma FirstFreeBehind(behind: Slot, free: nat, gone: nat)
    requires behind.ctx != 0
    ensures var tail := Repeat(EMPTY_SLOT, free) + Repeat(behind, gone);
            FirstFree(tail) == if free > 0 then 0 else gone
  {
    var tail := Repeat(EMPTY_SLOT, free) + Repeat(behind, gone);
    FirstFreeIs(tail, if free > 0 then 0 else gone);
  }

  lemma FirstTaken(self: Slot, live: seq<Slot>, child: Slot, free: nat, gone: seq<Slot>)
    requires free > 0
    ensures ([self] + live + (Repeat(EMPTY_SLOT, free) + gone))[1 + |live| := child]
            == [self] + (live + [child]) + Repeat(EMPTY_SLOT, free - 1) + gone
  {
  }

  /** What `bad` does to the whole table is what it does to the children. */
  lemma DropKeepsLayout(self: Slot, behind: Slot, f: Family, bad: set<nat>)
    requires FamilyOk(f) && forall p :: p in bad ==> p <= |f.live|
    ensures FamilyOk(Family(Leave(f.live, bad), f.ever))
    ensures DropBad(Layout(self, behind, f), bad, behind)
            == Layout(self, behind, Family(Leave(f.live, bad), f.ever))
  {
    var n, live' := |f.live|, Leave(f.live, bad);
    var t := Layout(self, behind, f);
    var cleared := Clear(t.slots, bad - {0});
    var empties, gone := Repeat(EMPTY_SLOT, SEGMENT_LIMIT - 1 - f.ever), Repeat(behind, f.ever - n);
    LayoutParts(self, behind, f);
    ClearParts(t.slots, f.live, bad - {0});
    KeptSet(cleared[1..n + 1]);
    assert t.slots[n + 1..] == empties + gone;
    hide Layout, Clear, Kept;
    assert gone + Repeat(behind, n - |live'|) == Repeat(behind, f.ever - |live'|);
    AppendFour([self] + live', empties, gone, Repeat(behind, n - |live'|));
    LayoutIs(self, behind, Family(live', f.ever));
  }

  lemma LayoutIs(self: Slot, behind: Slot, f: Family)
    requires |f.live| <= f.ever < SEGMENT_LIMIT
    ensures Layout(self, behind, f)
            == Table([self] + f.live + Repeat(EMPTY_SLOT, SEGMENT_LIMIT - 1 - f.ever)
                     + Repeat(behind, f.ever - |f.live|), |f.live|)
  {
  }

  lemma LayoutParts(self: Slot, behind: Slot, f: Family)
    requires |f.live| <= f.ever < SEGMENT_LIMIT
    ensures var t, n := Layout(self, behind, f), |f.live|;
            && t.slots[1..n + 1] == f.live
            && t.slots[n + 1..] == Repeat(EMPTY_SLOT, SEGMENT_LIMIT - 1 - f.ever) + Repeat(behind, f.ever - n)
  {
  }

  lemma ClearParts(s: seq<Slot>, live: seq<Slot>, bad: set<nat>)
    requires |live| < |s| && s[1..|live| + 1] == live && 0 !in bad && forall p :: p in bad ==> p <= |live|
    ensures Clear(s, bad)[0] == s[0] && Clear(s, bad)[|live| + 1..] == s[|live| + 1..]
    ensures Kept(Clear(s, bad)[1..|live| + 1]) == Kept(Clear([EMPTY_SLOT] + live, bad))
  {
    var mine := Clear([EMPTY_SLOT] + live, bad);
    assert forall i :: 1 <= i <= |live| ==> s[i] == s[1..|live| + 1][i - 1];
    assert mine[1..] == Clear(s, bad)[1..|live| + 1];
    assert mine[0].ctx == 0;
  }

  lemma AppendFour<T>(a: seq<T>, b: seq<T>, c: seq<T>, d: seq<T>)
    ensures a + (b + c) + d == a + b + (c + d)
  {
  }

  lemma {:induction false} FindMetaSame(s: seq<Slot>, t: seq<Slot>, n: nat, i: nat, meta: int)
    requires n < |s| && n < |t| && 1 <= i && forall j :: 1 <= j <= n ==> s[j] == t[j]
    ensures FindMeta(s, n, i, meta) == FindMeta(t, n, i, meta)
    decreases n + 1 - i
  {
    if i <= n {
      FindMetaSame(s, t, n, i + 1, meta);
    }
  }

  /** An operation the environment can bring about: real children, and reports about contexts that were
      passed to the poll. */
  predicate Sensible(f: Family, op: TableOp) {
    match op
    case Arrival(child) => child.ctx != 0
    case ChildCloses(_) => true
    case ReportedBad(bad) => forall p :: p in bad ==> p <= |f.live|
  }

  lemma StepKeepsLayout(self: Slot, behind: Slot, f: Family, op: TableOp)
    requires FamilyOk(f) && self.ctx != 0 && behind.ctx != 0 && Sensible(f, op)
    ensures FamilyOk(Evolve(f, op))
    ensures Apply(Layout(self, behind, f), op, behind) == Layout(self, behind, Evolve(f, op))
  {
    match op
    case Arrival(child) => ArrivalKeepsLayout(self, behind, f, child);
    case ChildCloses(meta) =>
      FindMetaSame([EMPTY_SLOT] + f.live, Layout(self, behind, f).slots, |f.live|, 1, meta);
      DropKeepsLayout(self, behind, f, FindMeta([EMPTY_SLOT] + f.live, |f.live|, 1, meta));
    case ReportedBad(bad) => DropKeepsLayout(self, behind, f, bad);
  }

  function RunTable(t: Table, ops: seq<TableOp>, behind: Slot): (r: Table)
    requires TableOk(t)
    ensures TableOk(r)
    decreases |ops|
  {
    if ops == [] || !TableOk(Apply(t, ops[0], behind)) then t
    else RunTable(Apply(t, ops[0], behind), ops[1..], behind)
  }

  function RunFamily(f: Family, ops: seq<TableOp>): Family
    decreases |ops|
  {
    if ops == [] then f else RunFamily(Evolve(f, ops[0]), ops[1..])
  }

  ghost predicate SensibleRun(f: Family, ops: seq<TableOp>)
    decreases |ops|
  {
    ops != [] ==> Sensible(f, ops[0]) && SensibleRun(Evolve(f, ops[0]), ops[1..])
  }

  /** After any run of arrivals, closes and bad-context reports the table is the layout of its family: the
      window itself, then exactly the live registered children in arrival order. */
  lemma {:induction false} TableRefinesFamily(self: Slot, behind: Slot, f: Family, ops: seq<TableOp>)
    requires FamilyOk(f) && self.ctx != 0 && behind.ctx != 0 && SensibleRun(f, ops)
    ensures FamilyOk(RunFamily(f, ops))
    ensures RunTable(Layout(self, behind, f), ops, behind) == Layout(self, behind, RunFamily(f, ops))
    decreases |ops|
  {
    if ops != [] {
      StepKeepsLayout(self, behind, f, ops[0]);
      TableRefinesFamily(self, behind, Evolve(f, ops[0]), ops[1..]);
    }
  }

  /** The slots behind the children are all empty exactly when no child has ever left: each one that left
      has pulled a word in from behind the arrays. */
  lemma LaterSlotsEmptyIff(self: Slot, behind: Slot, f: Family)
    requires FamilyOk(f) && behind.ctx != 0
    ensures var t := Layout(self, behind, f);
            (forall i :: t.n < i < SEGMENT_LIMIT ==> t.slots[i].ctx == 0) <==> f.ever == |f.live|
  {
    var t := Layout(self, behind, f);
    if f.ever > |f.live| {
      assert t.slots[SEGMENT_LIMIT - 1] == behind;
    }
  }

  /** An arrival is registered exactly while fewer children have ever been registered than the table has
      slots for, however many of them are still there. */
  lemma RegisteredIff(self: Slot, behind: Slot, f: Family, child: Slot)
    requires FamilyOk(f) && self.ctx != 0 && behind.ctx != 0 && child.ctx != 0
    ensures Arrive(Layout(self, behind, f), child).n == |f.live| + 1 <==> f.ever < SEGMENT_LIMIT - 1
  {
    ArrivalKeepsLayout(self, behind, f, child);
  }

  /** A child arrives and closes again: the last slot is taken ever after. */
  lemma OneChildLeavesMark(self: Slot, behind: Slot, child: Slot)
    requires self.ctx != 0 && behind.ctx != 0 && child.ctx != 0
    ensures var t := RunTable(Layout(self, behind, Family([], 0)), [Arrival(child), ChildCloses(child.meta)], behind);
            t.n == 0 && t.slots[SEGMENT_LIMIT - 1] == behind
  {
    ChildrenComeAndGo(self, behind, child, 1);
    var ops := [Arrival(child), ChildCloses(child.meta)];
    assert Rounds(child, 0) == [] && Rounds(child, 1) == ops + [] == ops;
    hide RunTable;
  }

  function Rounds(child: Slot, n: nat): seq<TableOp> {
    if n == 0 then [] else [Arrival(child), ChildCloses(child.meta)] + Rounds(child, n - 1)
  }

  lemma RoundOfFamily(child: Slot, ever: nat)
    requires child.ctx != 0 && ever + 1 < SEGMENT_LIMIT
    ensures var f := Evolve(Family([], ever), Arrival(child));
            f == Family([child], ever + 1) && Evolve(f, ChildCloses(child.meta)) == Family([], ever + 1)
  {
    var live := [child];
    assert [] + [child] == live;
    assert FindMeta([EMPTY_SLOT] + live, 1, 1, child.meta) == {1};
    LeaveIsFilter(live, {1}, 1);
    assert live[..1] == live;
    assert Staying(live, {1}, 1) == Staying(live, {1}, 0) == [];
  }

  lemma {:induction false} RoundsOfFamily(child: Slot, ever: nat, n: nat)
    requires child.ctx != 0 && ever + n < SEGMENT_LIMIT
    ensures var f := Family([], ever);
            SensibleRun(f, Rounds(child, n)) && RunFamily(f, Rounds(child, n)) == Family([], ever + n)
    decreases n
  {
    if n > 0 {
      var f, ops := Family([], ever), Rounds(child, n);
      var g := Evolve(f, Arrival(child));
      RoundOfFamily(child, ever);
      RoundsOfFamily(child, ever + 1, n - 1);
      hide Evolve;
      assert ops[0] == Arrival(child) && ops[1..][0] == ChildCloses(child.meta);
      assert ops[1..][1..] == Rounds(child, n - 1);
      assert RunFamily(f, ops) == RunFamily(g, ops[1..]);
      assert SensibleRun(g, ops[1..]);
    }
  }

  lemma ChildrenComeAndGo(self: Slot, behind: Slot, child: Slot, n: nat)
    requires self.ctx != 0 && behind.ctx != 0 && child.ctx != 0 && 0 < n < SEGMENT_LIMIT
    ensures var t := RunTable(Layout(self, behind, Family([], 0)), Rounds(child, n), behind);
            t == Layout(self, behind, Family([], n)) && t.n == 0 && t.slots[SEGMENT_LIMIT - 1] == behind
  {
    RoundsOfFamily(child, 0, n);
    TableRefinesFamily(self, behind, Family([], 0), Rounds(child, n));
  }

  /** After 63 children have come and gone the 64th is not registered, although no child is left. */
  lemma SixtyFourthChildIsNotRegistered(self: Slot, behind: Slot, child: Slot)
    requires self.ctx != 0 && behind.ctx != 0 && child.ctx != 0
    ensures var t := RunTable(Layout(self, behind, Family([], 0)), Rounds(child, 63), behind);
            t.n == 0 && Arrive(t, child).n == 0
  {
    ChildrenComeAndGo(self, behind, child, 63);
    ArrivalKeepsLayout(self, behind, Family([], 63), child);
  }

  /** Leaving is a stable filter: those who stay keep their order. */
  lemma {:induction false} LeaveIsFilter(live: seq<Slot>, bad: set<nat>, k: nat)
    requires k <= |live| && forall i :: 0 <= i < |live| ==> live[i].ctx != 0
    ensures Kept(Clear([EMPTY_SLOT] + live[..k], bad - {0})) == Staying(live, bad, k)
  {
    hide Kept, Clear;
    if k == 0 {
      NobodyYet(live, bad);
    } else {
      LeaveIsFilter(live, bad, k - 1);
      ClearOneMore(live, bad, k);
      var before := Clear([EMPTY_SLOT] + live[..k - 1], bad - {0});
      var last := if k in bad then EMPTY_SLOT else live[k - 1];
      KeptAppend(before, [last]);
      KeptOne(last);
    }
  }

  lemma NobodyYet(live: seq<Slot>, bad: set<nat>)
    ensures Kept(Clear([EMPTY_SLOT] + live[..0], bad - {0})) == []
  {
    assert Clear([EMPTY_SLOT] + live[..0], bad - {0}) == [EMPTY_SLOT];
    KeptOne(EMPTY_SLOT);
  }

  lemma KeptOne(x: Slot)
    ensures Kept([x]) == if x.ctx != 0 then [x] else []
  {
    assert [x][1..] == [];
  }

  lemma ClearOneMore(live: seq<Slot>, bad: set<nat>, k: nat)
    requires 0 < k <= |live|
    ensures Clear([EMPTY_SLOT] + live[..k], bad - {0})
            == Clear([EMPTY_SLOT] + live[..k - 1], bad - {0}) + [if k in bad then EMPTY_SLOT else live[k - 1]]
  {
  }

  /** The first `k` children without those at a bad position. */
  function Staying(live: seq<Slot>, bad: set<nat>, k: nat): seq<Slot>
    requires k <= |live|
  {
    if k == 0 then []
    else if k in bad then Staying(live, bad, k - 1)
    else Staying(live, bad, k - 1) + [live[k - 1]]
  }

  // ------------------------------------------------------------------ who leaves

  lemma {:induction false} FindMetaFirst(s: seq<Slot>, n: nat, i: nat, meta: int, p: nat)
    requires n < |s| && i <= p <= n + 1
    requires (forall j :: i <= j < p ==> s[j].meta != meta) && (p <= n ==> s[p].meta == meta)
    ensures FindMeta(s, n, i, meta) == if p <= n then {p} else {}
    decreases n + 1 - i
  {
    if i < p {
      FindMetaFirst(s, n, i + 1, meta, p);
    }
  }

  lemma {:induction false} StayingNear(live: seq<Slot>, bad: set<nat>, p: nat, k: nat)
    requires k <= |live| && 0 < p && bad <= {p}
    ensures Staying(live, bad, k) == if p in bad && p <= k then live[..p - 1] + live[p..k] else live[..k]
  {
    if k > 0 {
      StayingNear(live, bad, p, k - 1);
      assert live[..k] == live[..k - 1] + [live[k - 1]];
      if p in bad && p < k {
        assert live[p..k] == live[p..k - 1] + [live[k - 1]];
      }
    }
  }

  /** The child that closes is the one that leaves: the first with its address, and nobody if there is none
      (`k` is then the number of children). */
  lemma ClosingChildLeaves(f: Family, meta: int, k: nat)
    requires FamilyOk(f) && k <= |f.live|
    requires (forall i :: 0 <= i < k ==> f.live[i].meta != meta) && (k < |f.live| ==> f.live[k].meta == meta)
    ensures Evolve(f, ChildCloses(meta))
            == if k < |f.live| then Family(f.live[..k] + f.live[k + 1..], f.ever) else f
  {
    var s, n := [EMPTY_SLOT] + f.live, |f.live|;
    FindMetaFirst(s, n, 1, meta, k + 1);
    var bad := FindMeta(s, n, 1, meta);
    LeaveIsFilter(f.live, bad, n);
    StayingNear(f.live, bad, k + 1, n);
    assert f.live[..n] == f.live && f.live[k..][..0] == [];
    assert k < n ==> f.live[k + 1..n] == f.live[k + 1..];
  }

  // ------------------------------------------------------------------ the polling loop

  /** Every round that reports bad children lowers the number of children by at least one. */
  lemma DropLowersCount(self: Slot, behind: Slot, f: Family, bad: set<nat>, p: nat)
    requires FamilyOk(f) && (forall q :: q in bad ==> q <= |f.live|) && p in bad && 0 < p
    ensures |Leave(f.live, bad)| < |f.live|
  {
    LeaveIsFilter(f.live, bad, |f.live|);
    assert f.live[..|f.live|] == f.live;
    StayingShort(f.live, bad, |f.live|, p);
  }

  lemma {:induction false} StayingShort(live: seq<Slot>, bad: set<nat>, k: nat, p: nat)
    requires k <= |live|
    ensures |Staying(live, bad, k)| <= k && (0 < p <= k && p in bad ==> |Staying(live, bad, k)| < k)
  {
    if k > 0 {
      StayingShort(live, bad, k - 1, p);
    }
  }

  /** What one poll over the window and its children reports. */
  datatype PollResult = Fine | BadContext(bad: set<nat>)

  /** The report of the environment in round `k`, after the earlier reports. */
  ghost predicate IsReport(kernel: (nat, nat) -> PollResult, f: Family, reports: seq<TableOp>, k: nat)
    requires k < |reports|
  {
    var res := kernel(k, |RunFamily(f, reports[..k]).live|);
    res.BadContext? && reports[k] == ReportedBad(res.bad)
  }

  predicate NamesWindow(report: TableOp) {
    report.ReportedBad? && 0 in report.bad
  }

  /** The polling loop of `process`: while contexts are reported bad, the bad children are dropped and the
      poll repeated; a bad window itself ends it.  What is left are the children that no report has named, and
      the answer is "alive" exactly when a poll was fine, "not alive" exactly when a report, and then the
      last one, named the window itself.
      Whatever the environment answers, as long as it reports only contexts that were passed to it, there are at
      most as many rounds that name a bad context as children, plus one.  Only reports that name none can keep
      the loop going: `done` is false when the known rounds ran out. */
  method PollUntilFine(w: Window, kernel: (nat, nat) -> PollResult, rounds: nat, ghost self: Slot, ghost f: Family)
    returns (done: bool, alive: bool, used: nat, ghost named: nat, ghost reports: seq<TableOp>)
    requires w.Valid() && FamilyOk(f) && self.ctx != 0 && w.Behind().ctx != 0
    requires w.View() == Layout(self, w.Behind(), f)
    requires forall k: nat, n: nat :: kernel(k, n).BadContext? ==> forall p :: p in kernel(k, n).bad ==> p <= n
    modifies w`nSubs, w.subs, w.submeta
    ensures w.Valid() && w.Behind() == old(w.Behind())
    ensures |reports| == used && (forall k :: 0 <= k < used ==> IsReport(kernel, f, reports, k))
    ensures forall k :: 0 <= k < used ==> (NamesWindow(reports[k]) <==> done && !alive && k == used - 1)
    ensures var g := RunFamily(f, reports);
            && FamilyOk(g) && w.View() == Layout(self, w.Behind(), g)
            && (alive ==> done && kernel(used, |g.live|).Fine? && |g.live| + named <= |f.live|)
            && (!done ==> used == rounds && kernel(used, |g.live|).BadContext?)
    ensures done && !alive ==> used > 0
    ensures named <= |f.live| + 1 && named <= used <= rounds
    ensures (forall k: nat, n: nat :: kernel(k, n).BadContext? ==> kernel(k, n).bad != {}) ==> named == used
  {
    hide Layout, Leave, DropBad, Compact, RunFamily;
    ghost var behind := w.Behind();
    ghost var g := f;
    used, named, reports := 0, 0, [];
    NoReports(f);
    while true
      invariant w.Valid() && w.Behind() == behind && FamilyOk(g) && g == RunFamily(f, reports)
      invariant w.View() == Layout(self, behind, g)
      invariant |g.live| + named <= |f.live| && named <= used <= rounds
      invariant |reports| == used && forall k :: 0 <= k < used ==> IsReport(kernel, f, reports, k)
      invariant forall k :: 0 <= k < used ==> !NamesWindow(reports[k])
      invariant (forall k: nat, n: nat :: kernel(k, n).BadContext? ==> kernel(k, n).bad != {}) ==> named == used
      decreases rounds - used
    {
      assert w.nSubs == |g.live|;
      var res := kernel(used, w.nSubs);
      if res.Fine? {
        return true, true, used, named, reports;
      }
      if used == rounds {
        return false, false, used, named, reports;
      }
      used := used + 1;
      ghost var before := g;
      OneMoreReport(kernel, f, reports, res.bad);
      reports := reports + [ReportedBad(res.bad)];
      g := Family(Leave(g.live, res.bad), g.ever);
      if w.nSubs > 0 {
        DropKeepsLayout(self, behind, before, res.bad);
        w.RunSubBitmap(res.bad);
        assert w.submeta[0] == w.View().slots[0].meta;
      }
      LeaveNoMore(before.live, res.bad);
      if res.bad != {} {
        named := named + 1;
      }
      if 0 in res.bad {
        return true, false, used, named, reports;
      }
      if p :| p in res.bad {
        DropLowersCount(self, behind, before, res.bad, p);
      }
    }
  }

  lemma NoReports(f: Family)
    ensures RunFamily(f, []) == f
  {
  }

  lemma OneMoreReport(kernel: (nat, nat) -> PollResult, f: Family, reports: seq<TableOp>, bad: set<nat>)
    requires forall k :: 0 <= k < |reports| ==> IsReport(kernel, f, reports, k)
    requires kernel(|reports|, |RunFamily(f, reports).live|) == BadContext(bad)
    ensures var more, g := reports + [ReportedBad(bad)], RunFamily(f, reports);
            && (forall k :: 0 <= k < |more| ==> IsReport(kernel, f, more, k))
            && RunFamily(f, more) == Family(Leave(g.live, bad), g.ever)
  {
    var more := reports + [ReportedBad(bad)];
    assert more[..|reports|] == reports;
    forall k | 0 <= k < |reports|
      ensures IsReport(kernel, f, more, k)
    {
      assert more[..k] == reports[..k] && IsReport(kernel, f, reports, k);
    }
    RunFamilyAppend(f, reports, ReportedBad(bad));
  }

  lemma {:induction false} RunFamilyAppend(f: Family, ops: seq<TableOp>, op: TableOp)
    ensures RunFamily(f, ops + [op]) == Evolve(RunFamily(f, ops), op)
    decreases |ops|
  {
    hide Evolve;
    if ops == [] {
      assert [] + [op] == [op] && [op][1..] == [];
      NoReports(Evolve(f, op));
    } else {
      assert (ops + [op])[1..] == ops[1..] + [op];
      RunFamilyAppend(Evolve(f, ops[0]), ops[1..], op);
    }
  }

  lemma LeaveNoMore(live: seq<Slot>, bad: set<nat>)
    requires forall i :: 0 <= i < |live| ==> live[i].ctx != 0
    ensures |Leave(live, bad)| <= |live|
  {
    LeaveIsFilter(live, bad, |live|);
    assert live[..|live|] == live;
    StayingShort(live, bad, |live|, 0);
  }
}
