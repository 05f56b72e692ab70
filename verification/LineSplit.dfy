/** The canonical split of a byte stream into lines, which knows neither the buffer nor the chunking. */
module LineSplit {

  newtype byte = x: int | 0 <= x < 256

  /** Size of the line buffer inside a stream object. */
  const BUFFER_SIZE: nat := 4096

  /** Length of the shortest prefix of `s` that ends in `lf`, or 0 when `s` holds no `lf`. */
  function ThroughLf(s: seq<byte>, lf: byte): (n: nat)
    ensures n <= |s|
  {
    if s == [] then 0
    else if s[0] == lf then 1
    else
      var n := ThroughLf(s[1..], lf);
      if n == 0 then 0 else n + 1
  }

  /** `ThroughLf` finds the first line character. */
  lemma {:induction false} ThroughLfMeaning(s: seq<byte>, lf: byte)
    ensures var n := ThroughLf(s, lf);
            if n == 0 then lf !in s else s[n - 1] == lf && lf !in s[..n - 1]
  {
    if s != [] && s[0] != lf {
      ThroughLfMeaning(s[1..], lf);
      var n := ThroughLf(s, lf);
      if n > 0 {
        assert s[..n - 1] == [s[0]] + s[1..][..n - 2];
      }
    }
  }

  /** Length of the first line that the bytes `s` already decide, or 0 while more bytes are needed. */
  function Cut(s: seq<byte>, lf: byte): (n: nat)
    ensures n <= |s| && n <= BUFFER_SIZE
  {
    var n := ThroughLf(s, lf);
    if 0 < n <= BUFFER_SIZE then n
    else if |s| >= BUFFER_SIZE then BUFFER_SIZE
    else 0
  }

  /** The lines that `s` decides, each with its line character still attached. */
  function Pieces(s: seq<byte>, lf: byte): seq<seq<byte>> {
    var n := Cut(s, lf);
    if n == 0 then [] else [s[..n]] + Pieces(s[n..], lf)
  }

  /** What `s` leaves undecided after its lines. */
  function Rest(s: seq<byte>, lf: byte): (r: seq<byte>)
    ensures |r| <= |s|
  {
    var n := Cut(s, lf);
    if n == 0 then s else Rest(s[n..], lf)
  }

  /** The non-empty tail counts as a line once the stream has ended. */
  function Tail(s: seq<byte>): seq<seq<byte>> {
    if s == [] then [] else [s]
  }

  /** The canonical split of a whole stream. */
  function Split(s: seq<byte>, lf: byte): seq<seq<byte>> {
    Pieces(s, lf) + Tail(Rest(s, lf))
  }

  /** What is left of `s` once its first `k` lines are taken off. */
  function Skip(s: seq<byte>, lf: byte, k: nat): (r: seq<byte>)
    ensures |r| <= |s|
  {
    var n := Cut(s, lf);
    if k == 0 || n == 0 then s else Skip(s[n..], lf, k - 1)
  }

  predicate EndsLf(line: seq<byte>, lf: byte) {
    line != [] && line[|line| - 1] == lf
  }

  /** What the reader sees of a line: the strip flag removes a trailing line character. */
  function Text(line: seq<byte>, strip: bool, lf: byte): seq<byte> {
    if strip && EndsLf(line, lf) then line[..|line| - 1] else line
  }

  /** The strip flag takes nothing but the line character, and that from lines that end with it. */
  lemma TextIs(line: seq<byte>, strip: bool, lf: byte)
    ensures if strip && EndsLf(line, lf) then Text(line, strip, lf) + [lf] == line else Text(line, strip, lf) == line
  {
  }

  function Texts(lines: seq<seq<byte>>, strip: bool, lf: byte): (r: seq<seq<byte>>)
    ensures |r| == |lines|
    ensures forall i :: 0 <= i < |lines| ==> r[i] == Text(lines[i], strip, lf)
  {
    seq(|lines|, i requires 0 <= i < |lines| => Text(lines[i], strip, lf))
  }

  function Concat(lines: seq<seq<byte>>): seq<byte> {
    if lines == [] then [] else lines[0] + Concat(lines[1..])
  }

  lemma TextsAppend(a: seq<seq<byte>>, b: seq<seq<byte>>, strip: bool, lf: byte)
    ensures Texts(a + b, strip, lf) == Texts(a, strip, lf) + Texts(b, strip, lf)
  {
  }

  lemma {:induction false} ConcatAppend(a: seq<seq<byte>>, b: seq<seq<byte>>)
    ensures Concat(a + b) == Concat(a) + Concat(b)
  {
    if a == [] {
      assert a + b == b;
    } else {
      assert (a + b)[1..] == a[1..] + b;
      ConcatAppend(a[1..], b);
    }
  }

  lemma {:induction false} ThroughLfUnique(s: seq<byte>, lf: byte, n: nat)
    requires 0 < n <= |s| && s[n - 1] == lf && lf !in s[..n - 1]
    ensures ThroughLf(s, lf) == n
  {
    if n > 1 {
      assert s[0] == s[..n - 1][0];
      assert s[1..][..n - 2] == s[..n - 1][1..];
      ThroughLfUnique(s[1..], lf, n - 1);
    }
  }

  /** A cut never depends on bytes that arrive later. */
  lemma CutStable(s: seq<byte>, t: seq<byte>, lf: byte)
    requires Cut(s, lf) > 0
    ensures Cut(s + t, lf) == Cut(s, lf)
  {
    var n, m := ThroughLf(s, lf), ThroughLf(s + t, lf);
    ThroughLfMeaning(s, lf);
    ThroughLfMeaning(s + t, lf);
    if n > 0 {
      assert (s + t)[..n - 1] == s[..n - 1];
      ThroughLfUnique(s + t, lf, n);
    } else {
      assert m > |s| || m == 0 by {
        assert forall i :: 0 <= i < |s| ==> (s + t)[i] == s[i];
      }
    }
  }

  /** The lines decided by `s` stay decided, and later bytes only extend the undecided rest. */
  lemma {:induction false} PiecesAppend(s: seq<byte>, t: seq<byte>, lf: byte)
    ensures Pieces(s + t, lf) == Pieces(s, lf) + Pieces(Rest(s, lf) + t, lf)
    ensures Rest(s + t, lf) == Rest(Rest(s, lf) + t, lf)
    decreases |s|
  {
    var n := Cut(s, lf);
    if n > 0 {
      CutStable(s, t, lf);
      assert (s + t)[n..] == s[n..] + t && (s + t)[..n] == s[..n];
      PiecesAppend(s[n..], t, lf);
    }
  }

  lemma DropCons<T>(h: T, t: seq<T>, k: nat)
    requires 0 < k <= |t| + 1
    ensures ([h] + t)[k..] == t[k - 1..] && ([h] + t)[..k] == [h] + t[..k - 1]
  {
  }

  /** Skipping `k` lines leaves the other lines and the same rest. */
  lemma {:induction false} PiecesSkip(s: seq<byte>, lf: byte, k: nat)
    requires k <= |Pieces(s, lf)|
    ensures Pieces(Skip(s, lf, k), lf) == Pieces(s, lf)[k..]
    ensures Rest(Skip(s, lf, k), lf) == Rest(s, lf)
    decreases k
  {
    if k > 0 {
      var c := Cut(s, lf);
      DropCons(s[..c], Pieces(s[c..], lf), k);
      PiecesSkip(s[c..], lf, k - 1);
    }
  }

  /** The first `k` lines of `s`, put back in front of what is left, are `s`. */
  lemma {:induction false} SkipCovers(s: seq<byte>, lf: byte, k: nat)
    requires k <= |Pieces(s, lf)|
    ensures Concat(Pieces(s, lf)[..k]) + Skip(s, lf, k) == s
    decreases k
  {
    if k > 0 {
      var c := Cut(s, lf);
      var head := Pieces(s[c..], lf)[..k - 1];
      DropCons(s[..c], Pieces(s[c..], lf), k);
      ConcatAppend([s[..c]], head);
      SkipCovers(s[c..], lf, k - 1);
      assert Concat([s[..c]]) == s[..c] + Concat([]) == s[..c];
      assert s == s[..c] + s[c..];
    }
  }

  /** What is left is the end of `s`. */
  lemma {:induction false} SkipIsSuffix(s: seq<byte>, lf: byte, k: nat)
    ensures Skip(s, lf, k) == s[|s| - |Skip(s, lf, k)|..]
    decreases k
  {
    var n := Cut(s, lf);
    if k > 0 && n > 0 {
      SkipIsSuffix(s[n..], lf, k - 1);
    }
  }

  lemma {:induction false} SkipAll(s: seq<byte>, lf: byte)
    ensures Skip(s, lf, |Pieces(s, lf)|) == Rest(s, lf)
    decreases |s|
  {
    if Cut(s, lf) > 0 {
      SkipAll(s[Cut(s, lf)..], lf);
    }
  }

  /** Skipping one more line is one more cut. */
  lemma {:induction false} SkipStep(s: seq<byte>, lf: byte, k: nat)
    requires k < |Pieces(s, lf)|
    ensures var u := Skip(s, lf, k);
            Cut(u, lf) > 0 && Pieces(s, lf)[k] == u[..Cut(u, lf)] && Skip(s, lf, k + 1) == u[Cut(u, lf)..]
    decreases k
  {
    if k > 0 {
      SkipStep(s[Cut(s, lf)..], lf, k - 1);
    }
  }

  /** Splitting loses and invents nothing. */
  lemma SplitCovers(s: seq<byte>, lf: byte)
    ensures Concat(Pieces(s, lf)) + Rest(s, lf) == s
    ensures Concat(Split(s, lf)) == s
  {
    var n := |Pieces(s, lf)|;
    SkipAll(s, lf);
    SkipCovers(s, lf, n);
    assert Pieces(s, lf)[..n] == Pieces(s, lf);
    ConcatAppend(Pieces(s, lf), Tail(Rest(s, lf)));
    assert Concat(Tail(Rest(s, lf))) == Rest(s, lf) by {
      assert Rest(s, lf) + [] == Rest(s, lf);
    }
  }

  /** The rest is undecided: shorter than the buffer and free of the line character. */
  lemma {:induction false} RestUndecided(s: seq<byte>, lf: byte)
    ensures Cut(Rest(s, lf), lf) == 0 && |Rest(s, lf)| < BUFFER_SIZE && lf !in Rest(s, lf)
    ensures Pieces(Rest(s, lf), lf) == [] && Rest(Rest(s, lf), lf) == Rest(s, lf)
    decreases |s|
  {
    ThroughLfMeaning(s, lf);
    if Cut(s, lf) > 0 {
      RestUndecided(s[Cut(s, lf)..], lf);
    }
  }

  /** Every line of the split is non-empty, fits the buffer, and holds the line character at its end or not at
      all; and it does hold it, unless it is a full block or the last line of the stream. */
  lemma {:induction false} SplitShape(s: seq<byte>, lf: byte, i: nat)
    requires i < |Split(s, lf)|
    ensures var line := Split(s, lf)[i];
            && 0 < |line| <= BUFFER_SIZE
            && lf !in line[..|line| - 1]
            && (line[|line| - 1] == lf || |line| == BUFFER_SIZE || i == |Split(s, lf)| - 1)
    decreases |s|
  {
    var n := Cut(s, lf);
    if n > 0 {
      assert Split(s, lf) == [s[..n]] + Split(s[n..], lf);
      if i > 0 {
        SplitShape(s[n..], lf, i - 1);
        assert Split(s, lf)[i] == Split(s[n..], lf)[i - 1];
      } else {
        FirstPieceShape(s, lf);
      }
    } else {
      assert Split(s, lf) == [s];
      ThroughLfMeaning(s, lf);
    }
  }

  lemma FirstPieceShape(s: seq<byte>, lf: byte)
    requires Cut(s, lf) > 0
    ensures lf !in s[..Cut(s, lf) - 1]
    ensures s[Cut(s, lf) - 1] == lf || Cut(s, lf) == BUFFER_SIZE
  {
    var n, c := ThroughLf(s, lf), Cut(s, lf);
    ThroughLfMeaning(s, lf);
    if n > c {
      assert s[..n - 1][..c - 1] == s[..c - 1];
    } else if n == 0 {
      assert forall i :: 0 <= i < |s[..c - 1]| ==> s[..c - 1][i] == s[i];
    }
  }

  lemma CutAppend<T>(s: seq<T>, t: seq<T>, c: nat)
    requires c <= |s|
    ensures (s + t)[c..] == s[c..] + t && (s + t)[..c] == s[..c]
  {
  }

  lemma {:induction false} SkipAppend(s: seq<byte>, t: seq<byte>, lf: byte, k: nat)
    requires k <= |Pieces(s, lf)|
    ensures k <= |Pieces(s + t, lf)| && Pieces(s + t, lf)[..k] == Pieces(s, lf)[..k]
    ensures Skip(s + t, lf, k) == Skip(s, lf, k) + t
    decreases k
  {
    if k > 0 {
      var c := Cut(s, lf);
      CutStable(s, t, lf);
      CutAppend(s, t, c);
      hide Cut;
      SkipAppend(s[c..], t, lf, k - 1);
      DropCons(s[..c], Pieces(s[c..], lf), k);
      DropCons(s[..c], Pieces(s[c..] + t, lf), k);
    }
  }

  /** Taking `k` decided lines off the front commutes with everything that still arrives. */
  lemma SplitTake(s: seq<byte>, t: seq<byte>, lf: byte, k: nat)
    requires k <= |Pieces(s, lf)|
    ensures Split(s + t, lf) == Pieces(s, lf)[..k] + Split(Skip(s, lf, k) + t, lf)
  {
    SkipAppend(s, t, lf, k);
    PiecesSkip(s + t, lf, k);
    assert Pieces(s + t, lf) == Pieces(s + t, lf)[..k] + Pieces(s + t, lf)[k..];
  }
}
