/** The environment as a table and back: `tui_getenv` in `lua/tui_lua.c` and `tui_popen_tbltoenv` in
    `lua/tui_popen.c`. */
module Environ {
  import opened Common

  /** A name is set to a text or to a flag. */
  datatype LuaValue = Str(text: string) | Bool(flag: bool)

  /** A key is a name or a number; a number is given as Lua prints it. */
  datatype Key = Name(name: string) | Numeric(text: string)

  type Table = map<Key, LuaValue>

  /** One pair as a traversal of the table yields it. */
  datatype Pair = Pair(key: Key, value: LuaValue)

  // ------------------------------------------------------------------ reading

  /** The position of the first `=`, or the length. */
  function EqualsAt(s: string): (n: nat)
    ensures n <= |s| && (n < |s| ==> s[n] == '=') && '=' !in s[..n]
  {
    if s == "" || s[0] == '=' then 0 else 1 + EqualsAt(s[1..])
  }

  /** An entry without `=` is a name that is simply set. */
  function PairOf(entry: string): Pair {
    var n := EqualsAt(entry);
    Pair(Name(entry[..n]), if n < |entry| then Str(entry[n + 1..]) else Bool(true))
  }

  function ReadAll(environ: seq<string>): Table {
    if environ == [] then map[]
    else
      var n := |environ| - 1;
      var p := PairOf(environ[n]);
      ReadAll(environ[..n])[p.key := p.value]
  }

  /** `tui_getenv` without a name. */
  method GetEnv(environ: seq<string>) returns (t: Table)
    ensures t == ReadAll(environ)
  {
    t := map[];
    var pos := 0;
    assert environ[..0] == [];
    while pos < |environ|
      invariant pos <= |environ| && t == ReadAll(environ[..pos])
    {
      assert environ[..pos + 1][..pos] == environ[..pos];
      var p := PairOf(environ[pos]);
      t := t[p.key := p.value];
      pos := pos + 1;
    }
    assert environ[..|environ|] == environ;
  }

  // ------------------------------------------------------------------ printing

  /** What the first pass allows for: a name that is set, or has a text. */
  predicate Counted(p: Pair) {
    p.key.Name? && (p.value.Str? || p.value.flag)
  }

  function CountPass(pairs: seq<Pair>): (n: nat)
    ensures n <= |pairs|
  {
    if pairs == [] then 0
    else CountPass(pairs[..|pairs| - 1]) + if Counted(pairs[|pairs| - 1]) then 1 else 0
  }

  function KeyText(k: Key): string {
    match k case Name(name) => name case Numeric(text) => text
  }

  function Print(p: Pair): string {
    if p.value.Str? then KeyText(p.key) + "=" + p.value.text else KeyText(p.key)
  }

  function Printed(pairs: seq<Pair>): (r: seq<string>)
    ensures |r| == |pairs| && forall i :: 0 <= i < |pairs| ==> r[i] == Print(pairs[i])
  {
    seq(|pairs|, i requires 0 <= i < |pairs| => Print(pairs[i]))
  }

  /** What the second pass writes, and whether it gets through the traversal. */
  datatype Filled = Filled(written: seq<string>, whole: bool)

  /** The second pass looks at the kind of the value alone, so a name that is set to false is written as well,
      and so is a number; but printing a number turns the key of the traversal into a string, and with that
      key the traversal is lost. */
  function FillPass(pairs: seq<Pair>): Filled {
    if pairs == [] then Filled([], true)
    else if pairs[0].key.Numeric? then Filled([Print(pairs[0])], false)
    else
      var others := FillPass(pairs[1..]);
      others.(written := [Print(pairs[0])] + others.written)
  }

  lemma {:induction false} FillWholeIff(pairs: seq<Pair>)
    ensures FillPass(pairs).whole <==> forall i :: 0 <= i < |pairs| ==> pairs[i].key.Name?
    ensures FillPass(pairs).whole ==> FillPass(pairs).written == Printed(pairs)
  {
    hide Print;
    if pairs != [] {
      FillWholeIff(pairs[1..]);
      assert forall i :: 1 <= i < |pairs| ==> pairs[i] == pairs[1..][i - 1];
    }
  }

  lemma {:induction false} CountIsAllIff(pairs: seq<Pair>)
    ensures CountPass(pairs) == |pairs| <==> forall i :: 0 <= i < |pairs| ==> Counted(pairs[i])
  {
    if pairs != [] {
      var n := |pairs| - 1;
      CountIsAllIff(pairs[..n]);
      assert forall i :: 0 <= i < n ==> pairs[i] == pairs[..n][i];
    }
  }

  /** A pair that both passes treat alike. */
  predicate Regular(p: Pair) {
    p.key.Name? && p.value != Bool(false)
  }

  /** The second pass gets through and writes as many entries as the first has allowed for exactly when every
      key is a name and none is set to false. */
  lemma PassesAgreeIff(pairs: seq<Pair>)
    ensures FillPass(pairs).whole && |FillPass(pairs).written| == CountPass(pairs)
            <==> forall i :: 0 <= i < |pairs| ==> Regular(pairs[i])
  {
    FillWholeIff(pairs);
    CountIsAllIff(pairs);
    hide FillPass, CountPass, Print;
    assert forall i :: 0 <= i < |pairs| ==> (Regular(pairs[i]) <==> Counted(pairs[i]));
  }

  /** One name set to false: nothing is allowed for, and the name is written. */
  lemma FalseNameIsWritten()
    ensures var pairs := [Pair(Name("A"), Bool(false))];
            CountPass(pairs) == 0 && FillPass(pairs) == Filled(["A"], true)
  {
    var pairs := [Pair(Name("A"), Bool(false))];
    assert pairs[..0] == [] && pairs[1..] == [];
  }

  /** One text under the number 1: nothing is allowed for, an entry is written, and the traversal is lost. */
  lemma NumericKeyIsWritten()
    ensures var pairs := [Pair(Numeric("1"), Str("A=1"))];
            CountPass(pairs) == 0 && FillPass(pairs) == Filled(["1=A=1"], false)
  {
    var pairs := [Pair(Numeric("1"), Str("A=1"))];
    assert pairs[..0] == [] && "1" + "=" + "A=1" == "1=A=1";
  }

  /** One slot of the array handed to the new process. */
  datatype EnvSlot = Entry(text: string) | Null

  /** `tui_popen_tbltoenv` over one traversal order: the array has a slot for every pair that is counted, and
      one for the null pointer at the end.  `whole` turns false where the code would write behind it, or goes on
      with a key that it has changed. */
  method TableToEnv(pairs: seq<Pair>) returns (whole: bool, env: array<EnvSlot>)
    ensures fresh(env) && env.Length == CountPass(pairs) + 1
    ensures whole <==> forall i :: 0 <= i < |pairs| ==> Regular(pairs[i])
    ensures whole ==> env.Length == |pairs| + 1 && env[|pairs|] == Null
    ensures whole ==> forall i :: 0 <= i < |pairs| ==> env[i] == Entry(Printed(pairs)[i])
  {
    hide Print;
    var count, i: nat := 0, 0;
    assert pairs[..0] == [];
    while i < |pairs|
      invariant i <= |pairs| && count == CountPass(pairs[..i])
    {
      assert pairs[..i + 1][..i] == pairs[..i];
      if Counted(pairs[i]) {
        count := count + 1;
      }
      i := i + 1;
    }
    assert pairs[..|pairs|] == pairs;
    CountIsAllIff(pairs);
    env := new EnvSlot[count + 1](_ => Null);
    i := 0;
    while i < |pairs|
      invariant i <= |pairs| && i <= env.Length && env.Length == CountPass(pairs) + 1
      invariant forall k :: 0 <= k < i ==> env[k] == Entry(Print(pairs[k])) && pairs[k].key.Name?
    {
      if i == env.Length {
        return false, env;
      }
      env[i] := Entry(Print(pairs[i]));
      if pairs[i].key.Numeric? {
        return false, env;
      }
      i := i + 1;
    }
    if i == env.Length {
      return false, env;
    }
    env[i] := Null;
    return true, env;
  }

  // ------------------------------------------------------------------ the round trip

  lemma PrintRestores(entry: string)
    ensures Print(PairOf(entry)) == entry
  {
    var n := EqualsAt(entry);
    if n < |entry| {
      assert entry == entry[..n] + ["="][0] + entry[n + 1..];
    }
  }

  /** `pairs` is one order in which a traversal may yield the pairs of the table. */
  ghost predicate Traverses(pairs: seq<Pair>, t: Table) {
    && (forall i, j :: 0 <= i < j < |pairs| ==> pairs[i].key != pairs[j].key)
    && (forall i :: 0 <= i < |pairs| ==> pairs[i].key in t && t[pairs[i].key] == pairs[i].value)
    && |pairs| == |t|
  }

  predicate DistinctNames(environ: seq<string>) {
    forall i, j :: 0 <= i < j < |environ| ==> PairOf(environ[i]).key != PairOf(environ[j]).key
  }

  lemma {:induction false} ReadAllKeys(environ: seq<string>, k: Key)
    ensures k in ReadAll(environ) <==> exists i :: 0 <= i < |environ| && PairOf(environ[i]).key == k
    ensures k in ReadAll(environ) ==> k.Name? && ReadAll(environ)[k] != Bool(false)
  {
    if environ != [] {
      var n := |environ| - 1;
      ReadAllKeys(environ[..n], k);
      if k in ReadAll(environ[..n]) {
        var i :| 0 <= i < n && PairOf(environ[..n][i]).key == k;
        assert PairOf(environ[i]).key == k;
      }
      if i :| 0 <= i < |environ| && PairOf(environ[i]).key == k {
        assert i < n ==> environ[..n][i] == environ[i];
      }
    }
  }

  lemma {:induction false} ReadAllSize(environ: seq<string>)
    ensures |ReadAll(environ)| <= |environ|
    ensures |ReadAll(environ)| == |environ| <==> DistinctNames(environ)
  {
    hide PairOf;
    if environ != [] {
      var n := |environ| - 1;
      var p := PairOf(environ[n]);
      ReadAllSize(environ[..n]);
      SizePlus(ReadAll(environ[..n]), p.key, p.value);
      DistinctStepIff(environ);
    }
  }

  /** The names are distinct when the first ones are and the last is not among them. */
  lemma DistinctStepIff(environ: seq<string>)
    requires environ != []
    ensures var n := |environ| - 1;
            DistinctNames(environ) <==> DistinctNames(environ[..n]) && PairOf(environ[n]).key !in ReadAll(environ[..n])
  {
    hide PairOf, ReadAll;
    var n := |environ| - 1;
    var key := PairOf(environ[n]).key;
    assert forall i :: 0 <= i < n ==> environ[..n][i] == environ[i];
    ReadAllKeys(environ[..n], key);
    if key in ReadAll(environ[..n]) {
      var i :| 0 <= i < n && PairOf(environ[..n][i]).key == key;
      assert PairOf(environ[i]).key == key;
    }
  }

  lemma PrintedRemove(pairs: seq<Pair>, k: nat)
    requires k < |pairs|
    ensures multiset(Printed(pairs)) == multiset(Printed(pairs[..k] + pairs[k + 1..])) + multiset{Print(pairs[k])}
  {
    hide Print;
    var r := Printed(pairs);
    WithoutOne(r, k);
    assert Printed(pairs[..k] + pairs[k + 1..]) == r[..k] + r[k + 1..];
  }

  lemma WithoutOne<T>(r: seq<T>, k: nat)
    requires k < |r|
    ensures multiset(r) == multiset(r[..k] + r[k + 1..]) + multiset{r[k]}
  {
    assert r == r[..k] + [r[k]] + r[k + 1..];
  }

  lemma KeyFound(pairs: seq<Pair>, t: Table, key: Key) returns (k: nat)
    requires Traverses(pairs, t) && key in t
    ensures k < |pairs| && pairs[k] == Pair(key, t[key])
  {
    var keys := KeySet(pairs);
    KeySetSize(pairs);
    SubsetSize(keys, t.Keys);
    k :| k < |pairs| && pairs[k].key == key;
  }

  function KeySet(pairs: seq<Pair>): set<Key> {
    set i: nat | i < |pairs| :: pairs[i].key
  }

  lemma {:induction false} KeySetSize(pairs: seq<Pair>)
    requires forall i, j :: 0 <= i < j < |pairs| ==> pairs[i].key != pairs[j].key
    ensures |KeySet(pairs)| == |pairs|
  {
    if pairs != [] {
      var n := |pairs| - 1;
      KeySetSize(pairs[..n]);
      assert KeySet(pairs) == KeySet(pairs[..n]) + {pairs[n].key};
    }
  }

  lemma TraversesRest(pairs: seq<Pair>, t: Table, k: nat)
    requires Traverses(pairs, t) && k < |pairs|
    ensures Traverses(pairs[..k] + pairs[k + 1..], t - {pairs[k].key})
  {
    var rest := pairs[..k] + pairs[k + 1..];
    SizeMinus(t, pairs[k].key);
    assert forall i :: 0 <= i < |rest| ==> rest[i] == pairs[if i < k then i else i + 1];
  }

  lemma {:induction false} PrintedIsRead(environ: seq<string>, pairs: seq<Pair>)
    requires DistinctNames(environ) && Traverses(pairs, ReadAll(environ))
    ensures multiset(Printed(pairs)) == multiset(environ)
    decreases |environ|
  {
    hide PairOf, Print, ReadAll, Traverses, DistinctNames;
    if environ == [] {
      NothingToPrint(pairs);
    } else {
      var n := |environ| - 1;
      var p := PairOf(environ[n]);
      LastIsAdded(environ);
      var k := KeyFound(pairs, ReadAll(environ), p.key);
      TraversesRest(pairs, ReadAll(environ), k);
      LastNameIsNew(environ);
      DistinctStepIff(environ);
      PrintedIsRead(environ[..n], pairs[..k] + pairs[k + 1..]);
      PrintedRemove(pairs, k);
      PrintRestores(environ[n]);
      assert environ == environ[..n] + [environ[n]];
    }
  }

  lemma NothingToPrint(pairs: seq<Pair>)
    requires Traverses(pairs, ReadAll([]))
    ensures Printed(pairs) == []
  {
  }

  lemma LastNameIsNew(environ: seq<string>)
    requires DistinctNames(environ) && environ != []
    ensures var n := |environ| - 1;
            ReadAll(environ) - {PairOf(environ[n]).key} == ReadAll(environ[..n])
  {
    hide PairOf, ReadAll;
    var n := |environ| - 1;
    DistinctStepIff(environ);
    LastIsAdded(environ);
    AddedThenTaken(ReadAll(environ[..n]), PairOf(environ[n]).key, PairOf(environ[n]).value);
  }

  lemma LastIsAdded(environ: seq<string>)
    requires environ != []
    ensures var p := PairOf(environ[|environ| - 1]);
            ReadAll(environ) == ReadAll(environ[..|environ| - 1])[p.key := p.value]
  {
  }

  lemma AddedThenTaken<K, V>(m: map<K, V>, k: K, v: V)
    requires k !in m
    ensures m[k := v] - {k} == m
  {
  }

  /** Reading an environment and printing the table, in whatever order it is traversed, gives the same
      entries back exactly when the environment names nothing twice; entries without `=` and values with
      `=` included.  The second pass gets through and fits the first in any case. */
  lemma RoundTripIff(environ: seq<string>, pairs: seq<Pair>)
    requires Traverses(pairs, ReadAll(environ))
    ensures var f := FillPass(pairs);
            && f.whole && |f.written| == CountPass(pairs)
            && (multiset(f.written) == multiset(environ) <==> DistinctNames(environ))
  {
    hide ReadAll, PairOf, Print;
    forall i | 0 <= i < |pairs|
      ensures Regular(pairs[i])
    {
      ReadAllKeys(environ, pairs[i].key);
    }
    PassesAgreeIff(pairs);
    FillWholeIff(pairs);
    ReadAllSize(environ);
    if DistinctNames(environ) {
      PrintedIsRead(environ, pairs);
    } else {
      assert |multiset(Printed(pairs))| == |pairs| && |multiset(environ)| == |environ|;
    }
  }
}
