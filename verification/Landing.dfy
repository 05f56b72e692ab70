/** A message behind another one and a character that leads the lexer back to its default state: exactly when
    it is read there as it is alone.
    The character may be a blank, an operator, the parenthesis of a call, or a quote.  Which of them lead back, and
    behind what, is the matter of module Composition. */
module Landing {
  import opened Common
  import opened Utf8Step
  import opened Lexer
  import opened LexerProofs
  import opened LexerSteps

  // ------------------------------------------------------------------ the property

  /** The message is read without an error. */
  predicate Lexes(lang: Lang, msg: string) {
    TokenizeAny(lang, msg).Answered? && TokenizeAny(lang, msg).s.error.None?
  }

  /** `whole` gives the tokens `x`, then those of `b`, moved down by `d`, and the error of `b`, if any. */
  predicate GoesOn(lang: Lang, x: seq<Token>, whole: string, b: string, d: int)
    requires TokenizeAny(lang, b).Answered?
  {
    var y, t := TokenizeAny(lang, b).s, TokenizeAny(lang, whole);
    t.Answered? && t.s.error == y.error && t.s.tok == x + Shift(y.tok, d)
  }

  /** A NUL byte cuts off a word of simple mode with more than two bytes left from it on: the word is then emitted
      at the very end, where the offset is -1. */
  predicate NulDelaysWord(lang: Lang, b: string) {
    var p := CString(b);
    Regular(p) && |b| > |p| + 2 && Feed(lang, BEGIN, Chunks(p)).scope.WhStr?
  }

  /** How many blanks a message starts with; one that a continuation byte follows is none. */
  function Blanks(b: string): (n: nat)
    ensures n <= |b|
  {
    if b != "" && IsBlank(b[0]) && StartsSequence(b[1..]) then 1 + Blanks(b[1..]) else 0
  }

  /** A minus in the default state is a sign behind these tokens and this character. */
  predicate SignBehind(tok: seq<Token>, last: char) {
    last == ' ' || (tok != [] && tok[|tok| - 1].kind.OPERATOR?)
  }

  /** The first thing in `b` but blanks is a minus, and it is a sign at the front of a message and none behind the
      tokens and the separator, or the other way round. */
  predicate SignTurns(lang: Lang, tok: seq<Token>, g: char, b: string) {
    var n := Blanks(b);
    && !lang.simple && MinusBehindBlanks(b)
    && (n == 0 || b[n - 1] == ' ') != SignBehind(tok, if n == 0 then g else b[n - 1])
  }

  predicate MinusBehindBlanks(b: string) {
    var n := Blanks(b);
    n < |b| && b[n] == '-' && StartsSequence(b[n + 1..])
  }

  // ------------------------------------------------------------------ blanks in front

  /** The driver behind the blanks `w`. */
  function Passed(c: Config, w: string): Config {
    if w == "" then c else Config(c.scope, c.s.(lastCh := Some([w[|w| - 1]])), c.ofs + |w|)
  }

  lemma BlankPassed(lang: Lang, c: Config, ch: string)
    requires c.scope.Default? && IsSpace(ch)
    ensures Advance(lang, c, ch) == Passed(c, ch)
  {
    assert [ch[|ch| - 1]] == ch;
  }

  lemma BlankHead(b: string)
    requires Blanks(b) > 0
    ensures var w, n := b[..1], Blanks(b);
            && Chunks(CString(b)) == [w] + Chunks(CString(b[1..])) && IsSpace(w)
            && Blanks(b[1..]) == n - 1 && b[1..][n - 1..] == b[n..] && b[..n] == w + b[1..][..n - 1]
  {
    BlankOff(b);
    SlicesBehindOne(b, Blanks(b));
    hide Chunks, Blanks, CString, IsSpace;
    HeadChunk(b[..1], CString(b[1..]));
  }

  lemma BlankOff(b: string)
    requires Blanks(b) > 0
    ensures Blanks(b[1..]) == Blanks(b) - 1 && IsSpace(b[..1]) && |b[..1]| == 1
    ensures CString(b) == b[..1] + CString(b[1..]) && StartsSequence(CString(b[1..]))
  {
    assert b[..1] == [b[0]];
  }

  lemma HeadChunk(w: string, q: string)
    requires |w| == 1 && StartsSequence(q)
    ensures Chunks(w + q) == [w] + Chunks(q)
  {
    ChunksAppend(w, q);
    SingleChunk(w);
  }

  lemma SlicesBehindOne(b: string, n: nat)
    requires 0 < n <= |b|
    ensures b[1..][n - 1..] == b[n..] && b[..n] == b[..1] + b[1..][..n - 1]
  {
  }

  lemma {:induction false} BlanksFed(lang: Lang, c: Config, b: string)
    requires c.scope.Default? && c.s.error.None?
    ensures var n := Blanks(b);
            Feed(lang, c, Chunks(CString(b))) == Feed(lang, Passed(c, b[..n]), Chunks(CString(b[n..])))
    decreases |b|
  {
    hide Advance, Chunks, CString, Blanks, IsSpace, Passed;
    var n := Blanks(b);
    if n == 0 {
      assert b[..0] == "" && b[0..] == b;
      PassedTwice(c, "", "");
    } else {
      var w := b[..1];
      BlankHead(b);
      BlankPassed(lang, c, w);
      FedFirst(lang, c, w, Chunks(CString(b[1..])));
      PassedTwice(c, w, b[1..][..n - 1]);
      BlanksFed(lang, Passed(c, w), b[1..]);
    }
  }

  lemma FedFirst(lang: Lang, c: Config, ch: string, others: seq<string>)
    requires c.s.error.None?
    ensures Feed(lang, c, [ch] + others) == Feed(lang, Advance(lang, c, ch), others)
  {
    hide Advance;
    assert ([ch] + others)[1..] == others;
  }

  lemma PassedTwice(c: Config, v: string, w: string)
    ensures Passed(Passed(c, v), w) == Passed(c, v + w) && (v == "" ==> Passed(c, v) == c)
    ensures Passed(c, v).scope == c.scope && Passed(c, v).s.error == c.s.error && Passed(c, v).s.tok == c.s.tok
  {
    assert v + "" == v && "" + w == w;
  }

  /** Behind the blanks comes no blank. */
  lemma {:induction false} BlanksEnd(b: string)
    requires StartsSequence(b)
    ensures var v := b[Blanks(b)..];
            && StartsSequence(v) && Blanks(v) == 0
            && (forall i :: 0 <= i < Blanks(b) ==> IsBlank(b[i]))
    decreases |b|
  {
    if Blanks(b) > 0 {
      BlanksEnd(b[1..]);
      assert b[Blanks(b)..] == b[1..][Blanks(b) - 1..];
      assert forall i :: 1 <= i < Blanks(b) ==> b[i] == b[1..][i - 1];
    } else {
      assert b[0..] == b;
    }
  }

  /** The first chunk behind the blanks. */
  lemma FirstChunk(v: string)
    requires StartsSequence(v) && Blanks(v) == 0 && Chunks(CString(v)) != []
    ensures var ch := Chunks(CString(v))[0];
            v != "" && !IsSpace(ch) && (Is(ch, '-') <==> v[0] == '-' && StartsSequence(v[1..]))
  {
    var p := CString(v);
    var n := NextStart(p, 1);
    assert p[..n][0] == v[0] && (n == 1 <==> StartsSequence(v[1..])) by {
      assert |p| > 1 ==> p[1] == v[1];
      assert |p| == 1 && |v| > 1 ==> v[1] == '\0';
    }
  }

  // ------------------------------------------------------------------ NUL bytes behind a prefix

  lemma {:induction false} CStringAppend(a: string, b: string)
    requires Plain(a)
    ensures CString(a + b) == a + CString(b)
  {
    if a == "" {
      assert a + b == b && a + CString(b) == CString(b);
    } else {
      assert (a + b)[1..] == a[1..] + b && a == [a[0]] + a[1..];
      CStringAppend(a[1..], b);
    }
  }

  lemma OddShape(b: string)
    requires StartsSequence(b) && b != "" && CString(b) != b
    ensures |Odd(b)| == |b| - 1 - |CString(b)| && (Odd(b) != "" ==> Odd(b)[0] == '\0')
    ensures Regular(CString(b)) <==> CString(b) != ""
  {
  }

  /** The driver behind `a` and one more character. */
  function Gap(lang: Lang, a: string, g: char): Config {
    Advance(lang, Feed(lang, BEGIN, Chunks(a)), [g])
  }

  /** With that character the driver has come back to the default state, and the tokens are `x`. */
  predicate Lands(lang: Lang, a: string, g: char, x: seq<Token>) {
    var c, d := Feed(lang, BEGIN, Chunks(a)), Gap(lang, a, g);
    && Plain(a) && StartsSequence(a) && !Continues(g) && g != '\0' && c.s.error.None?
    && d.scope.Default? && Tidy(d.scope, d.s) && d.s.tok == x && d.s.lastCh == Some([g]) && d.ofs == |a| + 2
  }

  /** The whole message up to its first NUL byte stands behind `a` and the character as `b` does from the start, as long
      as no sign turns. */
  lemma ReachedTrails(lang: Lang, a: string, g: char, x: seq<Token>, b: string)
    requires Lands(lang, a, g, x) && StartsSequence(b) && !SignTurns(lang, x, g, b)
    ensures Trails(Reached(lang, b), Reached(lang, a + [g] + b), x, |a| + 1)
    ensures Regular(CString(a + [g] + b)) && CString(a + [g] + b) == a + [g] + CString(b)
  {
    hide Trails, Advance, Feed, Chunks, Blanks, SignTurns, SignMatch, CString, Passed;
    hide Reached, IsSpace, Is, Gap, Lands;
    var d, v := Gap(lang, a, g), b[Blanks(b)..];
    BehindPrefix(lang, a, g, x, b);
    WholeReached(lang, a, g, b);
    BlanksEnd(b);
    BlanksFed(lang, BEGIN, b);
    BlanksFed(lang, d, b);
    var e, e' := Passed(BEGIN, b[..Blanks(b)]), Passed(d, b[..Blanks(b)]);
    if Chunks(CString(v)) == [] {
      FedNothing(lang, e);
      FedNothing(lang, e');
    } else {
      ChunksProper(CString(v));
      FirstChunk(v);
      SignStays(lang, a, g, x, b, Chunks(CString(v))[0]);
      FeedTrails(lang, e, e', x, |a| + 1, Chunks(CString(v)));
    }
  }

  lemma FeedTrails(lang: Lang, c: Config, c': Config, before: seq<Token>, d: int, chunks: seq<string>)
    requires Trails(c, c', before, d) && c.scope.Default? && c.s.error.None? && c'.s.error.None?
    requires chunks != [] && Proper(chunks) && !IsSpace(chunks[0]) && SignMatch(lang, c.s, c'.s, chunks[0])
    ensures Trails(Feed(lang, c, chunks), Feed(lang, c', chunks), before, d)
  {
    AdvanceTrails(lang, c, c', before, d, chunks[0]);
    assert Advance(lang, c, chunks[0]).s.lastCh == Some(chunks[0]);
    hide Advance, Trails, SignMatch;
    FeedFollows(lang, Advance(lang, c, chunks[0]), Advance(lang, c', chunks[0]), before, d, chunks[1..]);
  }

  lemma FedNothing(lang: Lang, c: Config)
    ensures Feed(lang, c, []) == c
  {
  }

  /** Where the driver stands behind `a`, the character, and the blanks of `b`. */
  lemma BehindPrefix(lang: Lang, a: string, g: char, x: seq<Token>, b: string)
    requires Lands(lang, a, g, x)
    ensures var d := Gap(lang, a, g);
            var e, e' := Passed(BEGIN, b[..Blanks(b)]), Passed(d, b[..Blanks(b)]);
            && d.scope.Default? && d.s.error.None? && e.scope.Default? && e.s.error.None?
            && e'.scope.Default? && e'.s.error.None? && e'.s.buffer == ""
            && e'.s.tok == x && e'.ofs == |a| + 2 + Blanks(b) && Trails(e, e', x, |a| + 1)
    ensures Plain(a) && StartsSequence(a) && Feed(lang, BEGIN, Chunks(a)).s.error.None? && !Continues(g) && g != '\0'
  {
    hide Advance, Feed, Chunks;
  }

  lemma SignStays(lang: Lang, a: string, g: char, x: seq<Token>, b: string, ch: string)
    requires Lands(lang, a, g, x) && StartsSequence(b) && !SignTurns(lang, x, g, b)
    requires Is(ch, '-') ==> var v := b[Blanks(b)..]; v != "" && v[0] == '-' && StartsSequence(v[1..])
    ensures SignMatch(lang, Passed(BEGIN, b[..Blanks(b)]).s, Passed(Gap(lang, a, g), b[..Blanks(b)]).s, ch)
  {
    hide Advance, Feed, Chunks, Blanks, Passed, StartsNegative;
    var n := Blanks(b);
    if Is(ch, '-') {
      assert b[n..][1..] == b[n + 1..] && b[n..][0] == b[n];
      SignsAre(BEGIN, b[..n]);
      SignsAre(Gap(lang, a, g), b[..n]);
      SignsBehindOne(Gap(lang, a, g).s, g);
      SignAtFront();
    }
  }

  lemma SignsBehindOne(s: State, g: char)
    requires s.lastCh == Some([g])
    ensures StartsNegative(s) <==> SignBehind(s.tok, g)
  {
  }

  lemma SignAtFront()
    ensures StartsNegative(START)
  {
  }

  /** Whether a minus is a sign behind some blanks. */
  lemma SignsAre(c: Config, w: string)
    ensures StartsNegative(Passed(c, w).s)
            <==> if w == "" then StartsNegative(c.s) else SignBehind(c.s.tok, w[|w| - 1])
  {
  }

  lemma WholeReached(lang: Lang, a: string, g: char, b: string)
    requires Plain(a) && StartsSequence(a) && StartsSequence(b) && !Continues(g) && g != '\0'
    requires Feed(lang, BEGIN, Chunks(a)).s.error.None?
    ensures Reached(lang, b) == Feed(lang, BEGIN, Chunks(CString(b)))
    ensures Reached(lang, a + [g] + b) == Feed(lang, Gap(lang, a, g), Chunks(CString(b)))
    ensures Regular(CString(a + [g] + b)) && CString(a + [g] + b) == a + [g] + CString(b)
  {
    var p := CString(b);
    WholeStarts(a, g, p);
    CStringAppend(a + [g], b);
    WholeFed(lang, a, g, p);
    NothingFed(lang, BEGIN);
    hide Advance, Feed, Chunks;
  }

  lemma WholeStarts(a: string, g: char, p: string)
    requires Plain(a) && StartsSequence(a) && !Continues(g) && g != '\0'
    ensures Plain(a + [g]) && Regular(a + [g] + p)
  {
  }

  lemma WholeFed(lang: Lang, a: string, g: char, p: string)
    requires StartsSequence(a) && StartsSequence(p) && Feed(lang, BEGIN, Chunks(a)).s.error.None? && !Continues(g)
    ensures Feed(lang, BEGIN, Chunks(a + [g] + p)) == Feed(lang, Gap(lang, a, g), Chunks(p))
  {
    hide Chunks, Advance;
    WholeChunks(a, g, p);
    FeedSplit(lang, BEGIN, Chunks(a), [[g]] + Chunks(p));
    assert ([[g]] + Chunks(p))[1..] == Chunks(p);
  }

  lemma NothingFed(lang: Lang, d: Config)
    ensures Feed(lang, d, Chunks("")) == d
  {
  }

  /** Where the chunk with the NUL byte leads: not into a state that still emits something at the end. */
  lemma NulChunkScope(lang: Lang, c: Config, ch: string)
    requires c.s.error.None? && !c.scope.Err? && !Raises(c, ch) && (ch == "" || ch[0] == '\0')
    requires c.scope.WhStr? ==> |ch| <= 1
    ensures var n := StepIn(lang, c.scope, c.s, ch, c.ofs); n.scope.Default? || n.scope.Err? || n.scope.Str?
  {
    match c.scope
    case Default => NulInDefault(lang, c.s, ch, c.ofs);
    case Num =>
      var t := NumToken(lang, c.s, c.ofs);
      assert StepNum(lang, c.s, ch, c.ofs) == EndNum(lang, c.s, ch, c.ofs);
      hide StepDefault, NumToken;
      if t.Some? {
        NulInDefault(lang, t.value, ch, c.ofs);
      }
    case Symbol =>
      hide StepDefault;
      NulInDefault(lang, SymbolToken(c.s, c.ofs).(buffer := "", gotAddr := None), ch, c.ofs);
    case _ =>
  }

  lemma NulInDefault(lang: Lang, s: State, ch: string, ofs: int)
    requires ch == "" || ch[0] == '\0'
    ensures var n := StepDefault(lang, s, ch, ofs);
            if |ch| > 1 then n == Fail(s, InvalidToken(ch), Some(ofs)) else n.scope.Default? || n.scope.Err?
  {
  }

  /** The end emits nothing in those states. */
  lemma EndEmitsNothing(lang: Lang, c: Config)
    requires c.scope.Default? || c.scope.Err? || c.scope.Str?
    ensures var t := Finish(lang, c);
            t.tok == c.s.tok && t.error == if c.scope.Err? then c.s.error
                                           else if c.scope.Str? then Some(Unterminated)
                                           else if |c.s.buffer| > 0 then Some(UnexpectedEnd(c.s.buffer)) else c.s.error
  {
  }

  lemma LastChunkTrails(lang: Lang, c: Config, c': Config, before: seq<Token>, d: int, ch: string)
    requires Trails(c, c', before, d) && c.s.error.None? && !c.scope.Err? && !Raises(c, ch)
    requires (ch == "" || ch[0] == '\0') && (c.scope.WhStr? ==> |ch| <= 1)
    ensures var t, t' := Finish(lang, LastChunk(lang, c, ch)), Finish(lang, LastChunk(lang, c', ch));
            Behind(t.tok, t'.tok, before, d) && t'.error == t.error
  {
    StepAlike(lang, c.scope, c.s, c'.s, before, d, ch, c.ofs);
    NulChunkScope(lang, c, ch);
    EndEmitsNothing(lang, LastChunk(lang, c, ch));
    EndEmitsNothing(lang, LastChunk(lang, c', ch));
    hide StepIn, Finish;
  }

  /** The delayed word is emitted at -1 wherever the message stands. */
  lemma DelayedWord(lang: Lang, c: Config, ch: string)
    requires c.scope.WhStr? && |ch| > 1 && ch[0] == '\0'
    ensures Finish(lang, LastChunk(lang, c, ch)).tok == c.s.tok + [Token(STRING, Text(c.s.buffer + ch), -1, None)]
  {
    assert StepWhStr(lang, c.s, ch, c.ofs).scope.WhStr? && StepWhStr(lang, c.s, ch, c.ofs).s.buffer == c.s.buffer + ch;
  }

  // ------------------------------------------------------------------ behind a prefix without NUL bytes

  lemma OddBehind(a: string, b: string)
    requires b != "" && StartsSequence(b) && CString(b) != b
    requires Regular(CString(a + b)) && CString(a + b) == a + CString(b)
    ensures Odd(a + b) == Odd(b) && CString(a + b) != a + b
  {
    hide CString;
    var p, whole := CString(b), a + b;
    assert |a + p| == |a| + |p|;
    assert forall i :: 0 <= i < |b| ==> whole[|a| + i] == b[i];
    assert whole[|a| + |p|..|whole| - 1] == b[|p|..|b| - 1];
  }

  lemma ShiftedDiffers(before: seq<Token>, tok: seq<Token>, t: Token, d: int)
    requires d != 0
    ensures before + Shift(tok, d) + [t] != before + Shift(tok + [t], d)
  {
    var n := |before| + |tok|;
    assert (before + Shift(tok, d) + [t])[n] == t;
    assert (before + Shift(tok + [t], d))[n] == Shift(tok + [t], d)[|tok|];
  }

  lemma TrailsMeans(c: Config, c': Config, before: seq<Token>, d: int)
    requires Trails(c, c', before, d)
    ensures c'.scope == c.scope && c'.s.error == c.s.error && c'.s.buffer == c.s.buffer
    ensures c'.s.tok == before + Shift(c.s.tok, d)
  {
  }

  /** As long as no sign turns, exactly a delayed word keeps `b` from being read behind the character as it is alone;
      and the whole raises if and only if `b` does. */
  lemma LandedIff(lang: Lang, a: string, g: char, x: seq<Token>, b: string)
    requires Lands(lang, a, g, x) && StartsSequence(b) && !SignTurns(lang, x, g, b)
    ensures TokenizeAny(lang, a + [g] + b).Raised? <==> TokenizeAny(lang, b).Raised?
    ensures TokenizeAny(lang, b).Answered? ==>
              (GoesOn(lang, x, a + [g] + b, b, |a| + 1) <==> !NulDelaysWord(lang, b))
  {
    hide TokenizeAny, Trails, Reached, Odd, CString, Regular, SignTurns, Lands, GoesOn, NulDelaysWord;
    ReachedTrails(lang, a, g, x, b);
    if b != "" && CString(b) != b {
      OddBehind(a + [g], b);
    }
    EndsAlike(lang, x, a + [g] + b, b, |a| + 1);
  }

  /** Where the driver stands when it is through with what it sees of a message decides how the message ends. */
  lemma EndsAlike(lang: Lang, x: seq<Token>, whole: string, b: string, d: nat)
    requires StartsSequence(b) && Trails(Reached(lang, b), Reached(lang, whole), x, d) && d > 0
    requires Regular(CString(whole)) && (CString(b) == b ==> CString(whole) == whole)
    requires b != "" && CString(b) != b ==> Odd(whole) == Odd(b) && CString(whole) != whole
    ensures TokenizeAny(lang, whole).Raised? <==> TokenizeAny(lang, b).Raised?
    ensures TokenizeAny(lang, b).Answered? ==> (GoesOn(lang, x, whole, b, d) <==> !NulDelaysWord(lang, b))
  {
    hide Trails, Feed, Finish, LastChunk, Reached, Odd, CString, Chunks, Regular;
    var c, c' := Reached(lang, b), Reached(lang, whole);
    TrailsMeans(c, c', x, d);
    ReachedTidy(lang, b);
    DelaysIff(lang, b);
    if b == "" {
      EmptyIsNothing(lang);
      FinishFollows(lang, c, c', x, d);
    } else if CString(b) == b {
      RegularAll(b);
      FinishFollows(lang, c, c', x, d);
    } else {
      OddShape(b);
      if c.s.error.Some? {
        FinishFollows(lang, c, c', x, d);
      } else if Raises(c, Odd(b)) {
      } else if c.scope.WhStr? && |Odd(b)| > 1 {
        DelayedWord(lang, c, Odd(b));
        DelayedWord(lang, c', Odd(b));
        ShiftedDiffers(x, c.s.tok, Token(STRING, Text(c.s.buffer + Odd(b)), -1, None), d);
      } else {
        LastChunkTrails(lang, c, c', x, d, Odd(b));
      }
    }
  }

  lemma EmptyIsNothing(lang: Lang)
    ensures Reached(lang, "") == BEGIN && CString("") == "" && !NulDelaysWord(lang, "")
    ensures TokenizeAny(lang, "") == Answered(Finish(lang, LastChunk(lang, BEGIN, "")))
    ensures var t := Finish(lang, LastChunk(lang, BEGIN, "")); t.tok == [] && t.error.None?
    ensures var t := Finish(lang, BEGIN); t.tok == [] && t.error.None?
  {
  }

  lemma DelaysIff(lang: Lang, b: string)
    ensures NulDelaysWord(lang, b) <==> Reached(lang, b).scope.WhStr? && |b| > |CString(b)| + 2
  {
    hide Feed, Chunks, CString;
  }

  lemma RegularAll(b: string)
    requires StartsSequence(b) && b != "" && CString(b) == b
    ensures Regular(CString(b))
  {
  }

  // ------------------------------------------------------------------ a sign turns

  lemma SignMustStay(lang: Lang, a: string, g: char, x: seq<Token>, b: string)
    requires Lands(lang, a, g, x) && StartsSequence(b) && SignTurns(lang, x, g, b) && TokenizeAny(lang, b).Answered?
    ensures !GoesOn(lang, x, a + [g] + b, b, |a| + 1)
  {
    hide TokenizeAny, Blanks, Extends, Lands;
    var n, whole := Blanks(b), a + [g] + b;
    MinusAlone(lang, b);
    MinusBehind(lang, a, g, x, b);
    if TokenizeAny(lang, whole).Answered? {
      var t, t' := TokenizeAny(lang, b).s.tok, TokenizeAny(lang, whole).s.tok;
      if n == 0 || b[n - 1] == ' ' {
        LaterAlone(t, t', x, n + 1, |a| + 1);
      } else {
        PlacesDiffer(t, t', x, n + 1, |a| + 1);
      }
    }
  }

  lemma PlacesDiffer(t: seq<Token>, t': seq<Token>, x: seq<Token>, pos: nat, d: nat)
    requires t != [] && t[0].pos == pos && Extends(x, t', pos + d + 1) && d > 0
    ensures t' != x + Shift(t, d)
  {
    assert (x + Shift(t, d))[|x|].pos == pos + d;
  }

  lemma LaterAlone(t: seq<Token>, t': seq<Token>, x: seq<Token>, pos: nat, d: nat)
    requires Extends([], t, pos + 1) && |t'| > |x| && t'[|x|].pos == pos + d && pos > 0
    ensures t' != x + Shift(t, d)
  {
    assert t != [] ==> (x + Shift(t, d))[|x|].pos == t[0].pos + d;
  }

  /** The minus behind the blanks is a chunk. */
  lemma MinusFed(lang: Lang, c: Config, b: string)
    requires c.scope.Default? && c.s.error.None? && MinusBehindBlanks(b)
    ensures var n := Blanks(b);
            Feed(lang, c, Chunks(CString(b)))
            == Feed(lang, Advance(lang, Passed(c, b[..n]), "-"), Chunks(CString(b[n + 1..])))
  {
    var n := Blanks(b);
    MinusHead(b, n);
    BlanksFed(lang, c, b);
    PassedTwice(c, b[..n], "");
    hide Advance, Blanks, Passed, Chunks, CString;
    FedFirst(lang, Passed(c, b[..n]), "-", Chunks(CString(b[n + 1..])));
  }

  lemma MinusHead(b: string, n: nat)
    requires n < |b| && b[n] == '-' && StartsSequence(b[n + 1..])
    ensures Chunks(CString(b[n..])) == ["-"] + Chunks(CString(b[n + 1..]))
  {
    var q := CString(b[n + 1..]);
    assert b[n..][1..] == b[n + 1..] && CString(b[n..]) == "-" + q;
    ChunksAppend("-", q);
    SingleChunk("-");
  }

  /** At the front of a message the minus is a sign, and every token stands behind it, or it is an operator, which is
      the first token. */
  lemma MinusAlone(lang: Lang, b: string)
    requires StartsSequence(b) && TokenizeAny(lang, b).Answered? && !lang.simple && MinusBehindBlanks(b)
    ensures var t, n := TokenizeAny(lang, b).s.tok, Blanks(b);
            if n == 0 || b[n - 1] == ' ' then Extends([], t, n + 2) else t != [] && t[0].pos == n + 1
  {
    hide Advance, Passed, TokenizeAny, Feed, Chunks, Reached, CString, Blanks;
    var n := Blanks(b);
    var w := b[..n];
    StartReached(lang, b);
    MinusFed(lang, BEGIN, b);
    MinusReached(lang, BEGIN, b, TokenizeAny(lang, b).s.tok);
    SignsAre(BEGIN, w);
    PassedTwice(BEGIN, w, "");
    AnswerTokens(lang, b);
    MinusReached(lang, BEGIN, b, TokenizeAny(lang, b).s.tok);
  }

  /** What the minus behind the blanks adds: its token, if it is an operator, and all others stand behind it. */
  lemma MinusReached(lang: Lang, c: Config, b: string, t: seq<Token>)
    requires c.scope.Default? && c.s.error.None? && c.s.buffer == "" && !lang.simple && MinusBehindBlanks(b)
    ensures var d, ofs := Feed(lang, c, Chunks(CString(b))), c.ofs + Blanks(b);
            Extends(d.s.tok, t, d.ofs) ==>
              if StartsNegative(Passed(c, b[..Blanks(b)]).s) then Extends(c.s.tok, t, ofs + 1)
              else c.s.tok <= t && |t| > |c.s.tok| && t[|c.s.tok|].pos == ofs
  {
    hide Advance, Passed, Feed, Chunks, CString, Blanks, StartsNegative;
    var n := Blanks(b);
    var e := Passed(c, b[..n]);
    var f := Advance(lang, e, "-");
    var d := Feed(lang, c, Chunks(CString(b)));
    MinusFed(lang, c, b);
    PassedKeeps(c, b[..n]);
    MinusSteps(lang, e);
    FeedTokens(lang, f, Chunks(CString(b[n + 1..])));
    if Extends(d.s.tok, t, d.ofs) {
      LaterExtends(f.s.tok, d.s.tok, t, f.ofs, d.ofs);
    }
  }

  lemma PassedKeeps(c: Config, w: string)
    ensures var e := Passed(c, w);
            e.scope == c.scope && e.s.tok == c.s.tok && e.s.buffer == c.s.buffer && e.ofs == c.ofs + |w|
  {
  }

  lemma StartReached(lang: Lang, b: string)
    requires StartsSequence(b) && MinusBehindBlanks(b)
    ensures Reached(lang, b) == Feed(lang, BEGIN, Chunks(CString(b)))
  {
    hide Feed, Chunks;
  }

  /** The same behind `a` and one more character. */
  lemma MinusBehind(lang: Lang, a: string, g: char, x: seq<Token>, b: string)
    requires Lands(lang, a, g, x) && StartsSequence(b) && !lang.simple && MinusBehindBlanks(b)
    ensures var whole, n := TokenizeAny(lang, a + [g] + b), Blanks(b);
            whole.Answered? ==>
              if SignBehind(x, if n == 0 then g else b[n - 1]) then Extends(x, whole.s.tok, n + |a| + 3)
              else |whole.s.tok| > |x| && whole.s.tok[|x|].pos == n + |a| + 2
  {
    hide Feed, Chunks, Advance, Passed, Blanks, TokenizeAny, Reached, CString, Extends;
    var d, whole := Gap(lang, a, g), a + [g] + b;
    BehindPrefix(lang, a, g, x, b);
    WholeReached(lang, a, g, b);
    SignsAre(d, b[..Blanks(b)]);
    SignsBehindOne(d.s, g);
    if TokenizeAny(lang, whole).Answered? {
      AnswerTokens(lang, whole);
      MinusReached(lang, d, b, TokenizeAny(lang, whole).s.tok);
    }
  }

  /** Whether `b` is read behind a character that leads back to the default state as it is alone. */
  predicate Fits(lang: Lang, x: seq<Token>, g: char, b: string) {
    StartsSequence(b) && !NulDelaysWord(lang, b) && !SignTurns(lang, x, g, b)
  }

  /** Behind a character that leads back to the default state, a message that starts a sequence is read as it is alone
      exactly when no NUL byte delays a word and no sign turns. */
  lemma LandsIff(lang: Lang, a: string, g: char, x: seq<Token>, b: string)
    requires Lands(lang, a, g, x) && StartsSequence(b) && TokenizeAny(lang, b).Answered?
    ensures GoesOn(lang, x, a + [g] + b, b, |a| + 1) <==> Fits(lang, x, g, b)
  {
    hide TokenizeAny, GoesOn, NulDelaysWord, SignTurns, Lands;
    if SignTurns(lang, x, g, b) {
      SignMustStay(lang, a, g, x, b);
    } else {
      LandedIff(lang, a, g, x, b);
    }
  }
}
