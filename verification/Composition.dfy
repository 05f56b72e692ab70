/** Exactly when tokenizing is compositional over a blank or an operator, for messages with any bytes. */
module Composition {
  import opened Common
  import opened Utf8Step
  import opened Lexer
  import opened LexerProofs
  import opened MessageEnd
  import opened LexerSteps
  import opened Landing

  // ------------------------------------------------------------------ the property

  /** `a`, a separator and `b` give the tokens of `a`, the token of the separator if it is an operator, and those of
      `b`; and the error of `b`, if any. */
  predicate Composes(lang: Lang, a: string, g: char, b: string)
    requires TokenizeAny(lang, a).Answered? && TokenizeAny(lang, b).Answered?
  {
    GoesOn(lang, TokenizeAny(lang, a).s.tok + Mark(g, |a| + 1), a + [g] + b, b, |a| + 1)
  }

  // ------------------------------------------------------------------ what breaks the composition

  // ---- the second message starts inside a sequence

  lemma AloneInvalid(lang: Lang, b: string)
    requires b != "" && Continues(b[0])
    ensures TokenizeAny(lang, b).Answered? && TokenizeAny(lang, b).s.tok == []
    ensures TokenizeAny(lang, b).s.error == if |b| == 1 then None else Some(InvalidToken(b[..|b| - 1]))
  {
    hide StepDefault, Finish, Feed;
    var ch := b[..|b| - 1];
    assert CString(b)[0] == b[0] && CutOff(b, 0) == ch && TokenizeAny(lang, b).Answered?;
    if |b| == 1 {
      NothingRead(lang);
    } else {
      ForeignInDefault(lang, START, ch, 1);
      ErrorLasts(lang, LastChunk(lang, BEGIN, ch));
    }
  }

  lemma NothingRead(lang: Lang)
    ensures var t := Finish(lang, LastChunk(lang, BEGIN, "")); t.error.None? && t.tok == []
  {
  }

  /** The separator and the rest of a sequence behind it are one chunk. */
  lemma SeparatorGoesOn(lang: Lang, a: string, g: char, b: string)
    requires Plain(a) && StartsSequence(a) && |b| == 1 && Continues(b[0]) && Divides(lang, g)
    requires Feed(lang, BEGIN, Chunks(a)).s.error.None?
    ensures var whole := a + [g] + b;
            && Plain(whole) && Regular(whole)
            && Tokenize(lang, whole) == Finish(lang, Advance(lang, Feed(lang, BEGIN, Chunks(a)), [g] + b))
  {
    hide Feed, Advance, Finish, Chunks, Divides;
    var ch := [g] + b;
    SeparatorChunk(lang, g);
    assert a + [g] + b == a + ch;
    SingleChunk(ch);
    ChunksAppend(a, ch);
    FeedSplit(lang, BEGIN, Chunks(a), [ch]);
    FedOne(lang, Feed(lang, BEGIN, Chunks(a)), ch);
  }

  lemma FedOne(lang: Lang, c: Config, ch: string)
    requires c.s.error.None?
    ensures Feed(lang, c, [ch]) == Advance(lang, c, ch)
  {
    hide Advance;
    assert [ch][1..] == [];
  }

  lemma SecondMustStart(lang: Lang, a: string, g: char, b: string)
    requires Plain(a) && StartsSequence(a) && Lexes(lang, a) && !PendingEscape(lang, a) && Divides(lang, g)
    requires b != "" && Continues(b[0]) && TokenizeAny(lang, b).Answered?
    ensures !Composes(lang, a, g, b)
  {
    hide TokenizeAny, Tokenize, Feed, Chunks, StepIn, Finish, Divides, PendingEscape, Mark;
    var whole := a + [g] + b;
    SeparatorChunk(lang, g);
    AloneInvalid(lang, b);
    PlainIsTokenize(lang, a);
    if |b| > 1 {
      WholeStarts(a, g, CString(b));
      CStringAppend(a + [g], b);
      if TokenizeAny(lang, whole).Answered? {
        InvalidIsPart(lang, whole);
      }
    } else {
      OneByteFails(lang, a, g, b);
      PlainIsTokenize(lang, whole);
      assert Tokenize(lang, a).tok + Mark(g, |a| + 1) + [] == Tokenize(lang, a).tok + Mark(g, |a| + 1);
    }
  }

  lemma OneByteFails(lang: Lang, a: string, g: char, b: string)
    requires Plain(a) && StartsSequence(a) && |b| == 1 && Continues(b[0]) && Divides(lang, g)
    requires Lexes(lang, a) && !PendingEscape(lang, a)
    ensures var t := Tokenize(lang, a + [g] + b);
            Plain(a + [g] + b) && (t.error.Some? || t.tok != Tokenize(lang, a).tok + Mark(g, |a| + 1))
  {
    hide Feed, Chunks, Divides, Finish, Mark, Tokenize, TokenizeAny, Lexes, PendingEscape, Advance, IsNum, IsAlpha;
    var c := Feed(lang, BEGIN, Chunks(a));
    EndsWell(lang, a);
    SeparatorGoesOn(lang, a, g, b);
    SeparatorStarts(lang, g, b);
    OneByteEnds(lang, c, [g] + b);
    if Tokenize(lang, a + [g] + b).error.None? {
      DiffersAt(Tokenize(lang, a).tok, Mark(g, |a| + 1), Tokenize(lang, a + [g] + b).tok, |c.s.tok|);
    }
  }

  lemma SeparatorStarts(lang: Lang, g: char, b: string)
    requires Divides(lang, g) && |b| == 1
    ensures var ch := [g] + b; |ch| == 2 && !IsNum(ch) && !IsAlpha(ch) && ch[0] != '\0' && ch[1] == b[0]
  {
  }

  lemma DiffersAt(t: seq<Token>, more: seq<Token>, t': seq<Token>, k: nat)
    requires k < |t| && k < |t'| && t'[k] != t[k]
    ensures t' != t + more
  {
  }

  lemma OneByteEnds(lang: Lang, c: Config, ch: string)
    requires c.s.error.None? && !c.scope.Err? && !c.s.whstrEscape && Finish(lang, c).error.None?
    requires (c.scope.WhStr? ==> c.s.buffer != "")
    requires |ch| == 2 && !IsNum(ch) && !IsAlpha(ch) && ch[0] != '\0' && Continues(ch[1])
    ensures var t, t', k := Finish(lang, c), Finish(lang, Advance(lang, c, ch)), |c.s.tok|;
            t'.error.Some? || (k < |t.tok| && k < |t'.tok| && t'.tok[k] != t.tok[k])
  {
    match c.scope
    case WhStr => LongerWord(lang, c, ch);
    case Str =>
    case _ =>
      if c.scope.Num? {
        NumNeedsToken(lang, c, "\0");
      }
      ForeignFails(lang, c, ch);
      ErrorLasts(lang, Advance(lang, c, ch));
      hide StepIn, Finish;
  }

  lemma LongerWord(lang: Lang, c: Config, ch: string)
    requires c.scope.WhStr? && !c.s.whstrEscape && |ch| == 2 && ch[0] != '\0' && c.s.buffer != ""
    ensures var t, t', k := Finish(lang, c).tok, Finish(lang, Advance(lang, c, ch)).tok, |c.s.tok|;
            k < |t| && k < |t'| && t'[k] != t[k]
  {
    var n := |c.s.tok|;
    var t := Finish(lang, Advance(lang, c, ch)).tok;
    assert t == c.s.tok + [Token(STRING, Text(c.s.buffer + ch), c.ofs + 2, None)];
    assert t[n].value == Text(c.s.buffer + ch) && |c.s.buffer + ch| > |c.s.buffer|;
  }

  // ---- the first message has a NUL byte, or starts inside a sequence

  lemma {:induction false} CStringStops(a: string, t: string)
    requires !Plain(a)
    ensures CString(a + t) == CString(a) && CString(a) != a
  {
    assert (a + t)[0] == a[0];
    if a[0] != '\0' {
      assert (a + t)[1..] == a[1..] + t;
      CStringStops(a[1..], t);
    }
  }

  /** A message that begins like that is read as one invalid token, as soon as it is long enough. */
  lemma IrregularFails(lang: Lang, msg: string)
    requires |msg| > 1 && (Continues(msg[0]) || (msg[0] == '\0' && |msg| > 2))
    ensures TokenizeAny(lang, msg).Answered?
    ensures TokenizeAny(lang, msg).s.error == Some(InvalidToken(msg[..|msg| - 1]))
  {
    hide StepDefault, Finish, Feed;
    var ch := msg[..|msg| - 1];
    assert !Regular(CString(msg)) && CutOff(msg, 0) == ch;
    ForeignInDefault(lang, START, ch, 1);
    ErrorLasts(lang, LastChunk(lang, BEGIN, ch));
  }

  /** What comes of the chunk with the NUL byte in the longer message. */
  lemma NulGoesOn(lang: Lang, c: Config, ch: string, ch': string)
    requires Tidy(c.scope, c.s) && c.s.error.None? && !Raises(c, ch)
    requires (ch == "" || ch[0] == '\0') && |ch'| > 1 && ch'[0] == '\0' && |ch'| > |ch|
    requires Finish(lang, LastChunk(lang, c, ch)).error.None?
    ensures var t, t' := Finish(lang, LastChunk(lang, c, ch)), Finish(lang, LastChunk(lang, c, ch'));
            t'.error == Some(InvalidToken(ch'))
            || (|t.tok| == |c.s.tok| + 1 && |t'.tok| == |t.tok| && t'.tok[|c.s.tok|] != t.tok[|c.s.tok|])
  {
    hide StepIn, Finish;
    match c.scope
    case WhStr =>
      NulChunk(lang, c, ch);
      if |ch| <= 1 {
        NulChunkInWord(lang, c, ch);
      } else {
        DelayedWord(lang, c, ch);
        DelayedWord(lang, c, ch');
        assert |c.s.buffer + ch'| > |c.s.buffer + ch|;
      }
    case Str => NulInString(lang, c, ch);
    case Err =>
    case _ =>
      if c.scope.Num? {
        NumNeedsToken(lang, c, ch);
        ErrorIfFails(lang, c, ch);
      }
      ForeignFails(lang, c, ch');
      ErrorLasts(lang, LastChunk(lang, c, ch'));
  }

  lemma ErrorIfFails(lang: Lang, c: Config, ch: string)
    requires Finish(lang, LastChunk(lang, c, ch)).error.None?
    ensures !(StepIn(lang, c.scope, c.s, ch, c.ofs).scope.Err? && StepIn(lang, c.scope, c.s, ch, c.ofs).s.error.Some?)
  {
    hide StepIn;
    if LastChunk(lang, c, ch).scope.Err? {
      ErrorLasts(lang, LastChunk(lang, c, ch));
    }
  }

  lemma NulChunkInWord(lang: Lang, c: Config, ch: string)
    requires Tidy(c.scope, c.s) && c.scope.WhStr? && c.s.error.None? && (ch == "" || ch == "\0")
    ensures Finish(lang, LastChunk(lang, c, ch)).error.Some?
  {
  }

  lemma NulInString(lang: Lang, c: Config, ch: string)
    requires c.scope.Str? && (ch == "" || ch[0] == '\0')
    ensures Finish(lang, LastChunk(lang, c, ch)).error.Some?
  {
  }

  lemma PrefixMustBePlain(lang: Lang, a: string, g: char, b: string)
    requires Lexes(lang, a) && !(Plain(a) && StartsSequence(a)) && TokenizeAny(lang, b).Answered? && Divides(lang, g)
    requires b == "" ==> |a| != |CString(a)| + 1
    ensures !Composes(lang, a, g, b)
  {
    hide TokenizeAny, Tokenize, Feed, Chunks, StepIn, Finish, LastChunk, Tidy, Mark, Divides;
    var x, whole := TokenizeAny(lang, a).s.tok, a + [g] + b;
    InvalidIsPart(lang, b);
    if a[0] == '\0' || Continues(a[0]) {
      assert whole[0] == a[0] && (a == "\0" ==> CString(a) == "");
      IrregularFails(lang, whole);
    } else {
      CStringStops(a, [g] + b);
      assert a + [g] + b == a + ([g] + b);
      var k := NulPrefix(lang, a, whole, |b|);
      var more := Mark(g, |a| + 1) + Shift(TokenizeAny(lang, b).s.tok, |a| + 1);
      assert x + Mark(g, |a| + 1) + Shift(TokenizeAny(lang, b).s.tok, |a| + 1) == x + more;
      if k < |x| && k < |TokenizeAny(lang, whole).s.tok| && TokenizeAny(lang, whole).s.tok[k] != x[k] {
        DiffersAt(x, more, TokenizeAny(lang, whole).s.tok, k);
      }
    }
  }

  lemma NulPrefix(lang: Lang, a: string, whole: string, n: nat) returns (k: nat)
    requires Lexes(lang, a) && !Plain(a) && a[0] != '\0' && !Continues(a[0])
    requires CString(a) != a && CString(whole) == CString(a) && a <= whole && |whole| == |a| + 1 + n
    requires n > 0 || |a| > |CString(a)| + 1
    ensures TokenizeAny(lang, whole).Answered?
    ensures var t, t' := TokenizeAny(lang, a).s, TokenizeAny(lang, whole).s;
            || (t'.error.Some? && t'.error.value.InvalidToken? && |t'.error.value.ch| > n)
            || (k < |t.tok| && k < |t'.tok| && t'.tok[k] != t.tok[k])
  {
    hide Feed, Chunks, StepIn, Finish, LastChunk;
    var c, ch, ch' := Reached(lang, a), Odd(a), Odd(whole);
    k := |c.s.tok|;
    ReachedTidy(lang, a);
    OddShape(a);
    OddLonger(a, whole, n);
    if c.s.error.Some? {
      ErrorLasts(lang, c);
    } else {
      NulGoesOn(lang, c, ch, ch');
    }
  }

  lemma OddLonger(a: string, whole: string, n: nat)
    requires a != "" && !Continues(a[0]) && a[0] != '\0' && CString(a) != a
    requires CString(whole) == CString(a) && a <= whole && |whole| == |a| + 1 + n
    requires n > 0 || |a| > |CString(a)| + 1
    ensures |Odd(whole)| > |Odd(a)| && |Odd(whole)| > n && |Odd(whole)| > 1 && Odd(whole)[0] == '\0'
    ensures Regular(CString(a)) && CString(whole) != whole
  {
    assert whole[|CString(a)|] == a[|CString(a)|];
  }

  /** Nothing behind a NUL byte that is the last byte: the separator is not even looked at, which a blank does not
      mind and an operator does. */
  lemma NulAtEnd(lang: Lang, a: string, g: char)
    requires Lexes(lang, a) && |a| == |CString(a)| + 1 && Divides(lang, g)
    ensures TokenizeAny(lang, "").Answered? && (Composes(lang, a, g, "") <==> IsBlank(g))
  {
    hide TokenizeAny, Divides;
    var x := TokenizeAny(lang, a).s.tok;
    NulThenNothing(lang, a, g);
    EmptyIsNothing(lang);
    MarkIsSome(lang, g, |a| + 1);
    assert x + Mark(g, |a| + 1) + [] == x + Mark(g, |a| + 1);
    assert IsBlank(g) ==> x + [] == x;
  }

  lemma MarkIsSome(lang: Lang, g: char, ofs: int)
    requires Divides(lang, g)
    ensures |Mark(g, ofs)| == if IsBlank(g) then 0 else 1
    ensures forall i :: 0 <= i < |Mark(g, ofs)| ==> Mark(g, ofs)[i].pos == ofs
  {
  }

  lemma NulThenNothing(lang: Lang, a: string, g: char)
    requires Lexes(lang, a) && |a| == |CString(a)| + 1
    ensures var whole := TokenizeAny(lang, a + [g] + "");
            whole.Answered? && whole.s.error.None? && whole.s.tok == TokenizeAny(lang, a).s.tok
  {
    hide Feed, Chunks, StepIn, Finish, LastChunk;
    var c, whole := Reached(lang, a), a + [g] + "";
    CStringStops(a, [g]);
    assert whole == a + [g] && |CString(a)| < |a| && whole[|CString(a)|] == '\0' && whole[|CString(a)|..|a|] == "\0";
    if Continues(a[0]) {
      IrregularFails(lang, a);
    }
    ReachedTidy(lang, a);
    if c.s.error.Some? {
      ErrorLasts(lang, c);
    } else {
      NulSeenOrNot(lang, c);
    }
  }

  lemma NulSeenOrNot(lang: Lang, c: Config)
    requires Tidy(c.scope, c.s) && c.s.error.None? && !Raises(c, "")
    requires Finish(lang, LastChunk(lang, c, "")).error.None?
    ensures var t, t' := Finish(lang, LastChunk(lang, c, "")), Finish(lang, LastChunk(lang, c, "\0"));
            t'.tok == t.tok && t'.error == t.error
  {
    match c.scope
    case WhStr => NulChunkInWord(lang, c, "");
    case Str => NulInString(lang, c, "");
    case _ =>
  }

  // ---- the separator is more than that

  /** A parenthesis that makes a call of a name, or a minus that is a sign. */
  lemma SeparatorMustAct(lang: Lang, a: string, g: char, b: string)
    requires Plain(a) && StartsSequence(a) && Lexes(lang, a) && !PendingEscape(lang, a)
    requires Divides(lang, g) && !Acts(lang, a, g) && StartsSequence(b) && TokenizeAny(lang, b).Answered?
    ensures !Composes(lang, a, g, b)
  {
    var c, d, whole := Feed(lang, BEGIN, Chunks(a)), Gap(lang, a, g), a + [g] + b;
    EndsWell(lang, a);
    PlainIsTokenize(lang, a);
    TokenizeIsFeed(lang, a);
    hide Feed, Chunks, TokenizeAny, Tokenize, Finish, PendingEscape, Advance, Separates, Divides, Mark, Reached, Tidy;
    SeparatorChunk(lang, g);
    WholeReached(lang, a, g, b);
    OtherwiseUsed(lang, c, g);
    if TokenizeAny(lang, whole).Answered? {
      AnswerTokens(lang, whole);
      FeedTokens(lang, d, Chunks(CString(b)));
      var f, t := Finish(lang, c).tok, TokenizeAny(lang, whole).s.tok;
      LaterExtends(d.s.tok, Reached(lang, whole).s.tok, t, d.ofs, Reached(lang, whole).ofs);
      MarkIsSome(lang, g, |a| + 1);
      UsedDiffers(f, d.s.tok, t, Mark(g, |a| + 1), Shift(TokenizeAny(lang, b).s.tok, |a| + 1), |c.s.tok|, d.ofs);
    }
  }

  /** Where a message that is read without an error ends. */
  lemma EndsWell(lang: Lang, a: string)
    requires Plain(a) && StartsSequence(a) && Lexes(lang, a) && !PendingEscape(lang, a)
    ensures var c := Feed(lang, BEGIN, Chunks(a));
            && Tidy(c.scope, c.s) && NameLike(c.scope, c.s) && c.s.error.None? && !c.s.whstrEscape
            && (c.scope.WhStr? ==> lang.simple) && c.ofs == |a| + 1
            && Finish(lang, c).error.None? && Finish(lang, c).tok == Tokenize(lang, a).tok && !c.scope.Err?
            && (c.scope.WhStr? ==> c.s.buffer != "")
  {
    PlainIsTokenize(lang, a);
    TokenizeIsFeed(lang, a);
    ChunksProper(a);
    FeedTidy(lang, BEGIN, Chunks(a));
    FeedNames(lang, BEGIN, Chunks(a));
    FeedSimple(lang, BEGIN, Chunks(a));
    var c := Feed(lang, BEGIN, Chunks(a));
    assert c.s.error.None?;
    hide Finish, StepIn, Tokenize, TokenizeAny;
    FeedOffset(lang, BEGIN, Chunks(a));
    ChunksCover(a);
  }

  lemma OtherwiseUsed(lang: Lang, c: Config, g: char)
    requires Tidy(c.scope, c.s) && NameLike(c.scope, c.s) && (c.scope.WhStr? ==> lang.simple)
    requires c.s.error.None? && Finish(lang, c).error.None? && Divides(lang, g)
    requires !Separates(lang, c.scope, c.s, Finish(lang, c).tok, g)
    ensures var f, d, n := Finish(lang, c).tok, Advance(lang, c, [g]), |c.s.tok|;
            && d.ofs == c.ofs + 1 && !IsBlank(g)
            && (d.s.tok == f || (n < |f| && n < |d.s.tok| && d.s.tok[n] != f[n]))
  {
    SeparatorChunk(lang, g);
    if g == '(' {
      CallUsed(lang, c);
    } else {
      match c.scope
      case Default => DefaultSigned(lang, c.s, c.ofs);
      case Num => NumSigned(lang, c.s, c.ofs);
      case Symbol => SymbolSigned(lang, c.s, c.ofs);
      case _ =>
    }
  }

  lemma CallUsed(lang: Lang, c: Config)
    requires c.scope.Symbol? && c.s.buffer != ""
    ensures var f, d, n := Finish(lang, c).tok, Advance(lang, c, "("), |c.s.tok|;
            n < |f| && n < |d.s.tok| && d.s.tok[n] != f[n]
  {
    assert !IsSymCh(c.s.buffer, "\0", |c.s.buffer|);
  }

  lemma DefaultSigned(lang: Lang, s: State, ofs: int)
    requires s.buffer == "" && SignHere(lang, s.tok, s.lastCh)
    ensures StepDefault(lang, s, "-", ofs).s.tok == s.tok
    ensures StepDefault(lang, s, "\0", ofs) == Next(Default, s)
  {
    assert StepDefault(lang, s, "-", ofs) == StepOperator(lang, s, "-", ofs);
  }

  lemma NumSigned(lang: Lang, s: State, ofs: int)
    requires Tidy(Num, s) && StepNum(lang, s, "\0", ofs).s.error.None?
    requires SignHere(lang, StepNum(lang, s, "\0", ofs).s.tok, s.lastCh)
    ensures StepNum(lang, s, "-", ofs).s.tok == StepNum(lang, s, "\0", ofs).s.tok
  {
    hide NumToken, StepDefault, StepNum, SignHere;
    NumTokenShape(lang, s, ofs);
    NumberEnds(lang, s, '\n', ofs);
    MinusEndsNumber(lang, s, ofs);
    var t := NumToken(lang, s, ofs);
    if t.Some? {
      EndInDefault(lang, t.value, ofs);
      DefaultSigned(lang, t.value, ofs);
    }
  }

  lemma MinusEndsNumber(lang: Lang, s: State, ofs: int)
    ensures StepNum(lang, s, "-", ofs) == EndNum(lang, s, "-", ofs)
  {
    hide EndNum;
  }

  lemma SymbolSigned(lang: Lang, s: State, ofs: int)
    requires Tidy(Symbol, s) && NameLike(Symbol, s)
    requires SignHere(lang, StepSymbol(lang, s, "\0", ofs).s.tok, s.lastCh)
    ensures StepSymbol(lang, s, "-", ofs).s.tok == StepSymbol(lang, s, "\0", ofs).s.tok
  {
    var t := SymbolToken(s, ofs).(buffer := "", gotAddr := None);
    assert !IsSymCh(s.buffer, "\0", |s.buffer|) && !IsSymCh(s.buffer, "-", |s.buffer|) && t.lastCh == s.lastCh;
    hide StepDefault, IsSymCh, SymbolToken, SignHere;
    EndInDefault(lang, t, ofs);
    DefaultSigned(lang, t, ofs);
  }

  lemma UsedDiffers(
    f: seq<Token>, d: seq<Token>, t: seq<Token>, mark: seq<Token>, more: seq<Token>, n: nat, ofs: int)
    requires Extends(d, t, ofs) && (d == f || (n < |f| && n < |d| && d[n] != f[n]))
    requires |mark| == 1 && 0 <= mark[0].pos < ofs
    ensures t != f + mark + more
  {
    if d == f {
      assert (f + mark + more)[|f|] == mark[0];
    } else {
      assert (f + mark + more)[n] == f[n] && t[n] == d[n];
    }
  }

  // ---- an escape is pending

  /** With an escape pending the separator becomes a part of the word. */
  lemma EscapeMustEnd(lang: Lang, a: string, g: char, b: string)
    requires Plain(a) && StartsSequence(a) && Lexes(lang, a) && PendingEscape(lang, a)
    requires TokenizeAny(lang, b).Answered? && Divides(lang, g)
    ensures !Composes(lang, a, g, b)
  {
    var c, whole := Feed(lang, BEGIN, Chunks(a)), a + [g] + b;
    ChunksProper(a);
    FeedTidy(lang, BEGIN, Chunks(a));
    PlainIsTokenize(lang, a);
    TokenizeIsFeed(lang, a);
    PendingNotEmpty(lang, a);
    hide Feed, Chunks, TokenizeAny, Tokenize, Longer, Finish, Divides, Mark;
    var n, m := |c.s.tok|, |c.s.buffer|;
    SeparatorChunk(lang, g);
    WordEmitted(lang, c);
    SeparatorEscaped(lang, a, g, b);
    if TokenizeAny(lang, whole).Answered? {
      AnswerLonger(lang, whole, n, m + 1);
      assert (TokenizeAny(lang, a).s.tok + Mark(g, |a| + 1) + Shift(TokenizeAny(lang, b).s.tok, |a| + 1))[n]
          == Token(STRING, Text(c.s.buffer), c.ofs, None);
    }
  }

  lemma PendingNotEmpty(lang: Lang, a: string)
    requires PendingEscape(lang, a)
    ensures a != ""
  {
  }

  lemma WordEmitted(lang: Lang, c: Config)
    requires Tidy(c.scope, c.s) && c.s.whstrEscape && Finish(lang, c).error.None?
    ensures c.scope.WhStr? && c.s.error.None?
    ensures Finish(lang, c).tok == c.s.tok + [Token(STRING, Text(c.s.buffer), c.ofs, None)]
  {
  }

  lemma SeparatorEscaped(lang: Lang, a: string, g: char, b: string)
    requires Plain(a) && StartsSequence(a) && a != "" && !Continues(g) && g != '\0'
    requires var c := Feed(lang, BEGIN, Chunks(a)); c.scope.WhStr? && c.s.whstrEscape && c.s.error.None?
    ensures var c, d := Feed(lang, BEGIN, Chunks(a)), Reached(lang, a + [g] + b);
            Longer(d.scope, d.s, |c.s.tok|, |c.s.buffer| + 1)
  {
    var c, q := Feed(lang, BEGIN, Chunks(a)), [g] + CString(b);
    var ch := q[..NextStart(q, 1)];
    var others := Chunks(q[|ch|..]);
    SeenBehind(a, g, b);
    ChunksAppend(a, q);
    assert Chunks(q) == [ch] + others && q[0] == g;
    hide Chunks, Advance, Feed, Longer, CString, NextStart;
    FeedSplit(lang, BEGIN, Chunks(a), Chunks(q));
    FedFirst(lang, c, ch, others);
    EscapeTakes(lang, c, ch);
    FeedLonger(lang, Advance(lang, c, ch), others, |c.s.tok|, |c.s.buffer| + 1);
  }

  lemma SeenBehind(a: string, g: char, b: string)
    requires Plain(a) && StartsSequence(a) && a != "" && g != '\0'
    ensures CString(a + [g] + b) == a + ([g] + CString(b)) && Regular(CString(a + [g] + b))
  {
    assert a + [g] + b == a + ([g] + b) && ([g] + b)[1..] == b;
    CStringAppend(a, [g] + b);
  }

  lemma EscapeTakes(lang: Lang, c: Config, ch: string)
    requires c.scope.WhStr? && c.s.whstrEscape && ch != "" && ch[0] != '\0'
    ensures var d := Advance(lang, c, ch); Longer(d.scope, d.s, |c.s.tok|, |c.s.buffer| + 1)
  {
  }

  // ------------------------------------------------------------------ the theorem

  /** The separator is nothing else than that: the driver comes back to the default state. */
  lemma SeparatorLands(lang: Lang, a: string, g: char)
    requires Plain(a) && StartsSequence(a) && Lexes(lang, a) && !PendingEscape(lang, a)
    requires Divides(lang, g) && Acts(lang, a, g)
    ensures Lands(lang, a, g, TokenizeAny(lang, a).s.tok + Mark(g, |a| + 1))
  {
    PlainIsTokenize(lang, a);
    PrefixSeparated(lang, a, g);
    SeparatorChunk(lang, g);
    hide Advance, Feed, Chunks, Tokenize, TokenizeAny, Mark, Divides, Acts;
  }

  /** The two messages can be put together: neither has what reaches across the separator.  Behind a NUL byte there can
      only be a blank and nothing, and then it has to be the last byte. */
  predicate Joins(lang: Lang, a: string, g: char, b: string) {
    if Plain(a) then
      && StartsSequence(a) && !PendingEscape(lang, a) && Acts(lang, a, g)
      && Fits(lang, Tokenize(lang, a).tok + Mark(g, |a| + 1), g, b)
    else IsBlank(g) && b == "" && |a| == |CString(a)| + 1
  }

  /** Tokenizing is compositional over every blank and every operator that is no part of words, for any two messages
      that are answered and of which the first is read without an error, exactly when the first has no NUL byte
      and no escape pending, the separator behind it neither makes a call of a name nor is a sign, neither message
      starts inside a sequence, no NUL byte of the second delays a word of simple mode, and no minus at its front
      turns from a sign into an operator or back; or when there is nothing but a final NUL byte in front of a blank
      and nothing behind it. */
  lemma CompositionalIff(lang: Lang, a: string, g: char, b: string)
    requires Lexes(lang, a) && TokenizeAny(lang, b).Answered? && Divides(lang, g)
    ensures Composes(lang, a, g, b) <==> Joins(lang, a, g, b)
  {
    hide TokenizeAny, Tokenize, GoesOn, NulDelaysWord, PendingEscape, SignTurns, Divides, Acts, Mark, Lands;
    PlainCString(a);
    if !Plain(a) || !StartsSequence(a) {
      if b == "" && |a| == |CString(a)| + 1 {
        NulAtEnd(lang, a, g);
      } else {
        PrefixMustBePlain(lang, a, g, b);
      }
    } else {
      PlainIsTokenize(lang, a);
      var x := Tokenize(lang, a).tok + Mark(g, |a| + 1);
      if PendingEscape(lang, a) {
        EscapeMustEnd(lang, a, g, b);
      } else if !StartsSequence(b) {
        SecondMustStart(lang, a, g, b);
      } else if !Acts(lang, a, g) {
        SeparatorMustAct(lang, a, g, b);
      } else {
        SeparatorLands(lang, a, g);
        LandsIff(lang, a, g, x, b);
      }
    }
  }

  /** In particular on messages without NUL bytes, as long as no sign turns. */
  lemma PlainComposes(lang: Lang, a: string, g: char, b: string)
    requires Plain(a) && StartsSequence(a) && Tokenize(lang, a).error.None? && !PendingEscape(lang, a)
    requires Plain(b) && StartsSequence(b) && Divides(lang, g) && Acts(lang, a, g)
    requires !SignTurns(lang, Tokenize(lang, a).tok + Mark(g, |a| + 1), g, b)
    ensures var whole := Tokenize(lang, a + [g] + b);
            && whole.tok == Tokenize(lang, a).tok + Mark(g, |a| + 1) + Shift(Tokenize(lang, b).tok, |a| + 1)
            && whole.error == Tokenize(lang, b).error
  {
    PlainIsTokenize(lang, a);
    PlainIsTokenize(lang, b);
    PlainIsTokenize(lang, a + [g] + b);
    SeparatorPlain(lang, g);
    PlainCString(b);
    hide TokenizeAny, Tokenize, Feed, PendingEscape, SignTurns, Divides, Acts, Mark;
    CompositionalIff(lang, a, g, b);
  }

  lemma SeparatorPlain(lang: Lang, g: char)
    requires Divides(lang, g)
    ensures g != '\0' && !Continues(g)
  {
  }

  lemma PlainCString(a: string)
    ensures Plain(a) ==> CString(a) == a
  {
  }

  // ------------------------------------------------------------------ inputs on which it fails

  /** A NUL byte inside a word of simple mode: the token is emitted at -1. */
  lemma WordWithNul(lang: Lang)
    requires lang.simple
    ensures TokenizeAny(lang, "y\0zw").Answered?
    ensures TokenizeAny(lang, "y\0zw").s.tok == [Token(STRING, Text("y\0z"), -1, None)]
    ensures NulDelaysWord(lang, "y\0zw")
  {
    hide StepIn, Finish, LastChunk, Feed, Chunks;
    var c := Advance(lang, BEGIN, "y");
    WordBegins(lang);
    NulAtTwo();
    SingleChunk("y");
    FedOne(lang, BEGIN, "y");
    DelayedWord(lang, c, "\0z");
    DelayedNoError(lang, c, "\0z");
    assert [] + [Token(STRING, Text("y\0z"), -1, None)] == [Token(STRING, Text("y\0z"), -1, None)];
  }

  lemma WordBegins(lang: Lang)
    requires lang.simple
    ensures var c := Advance(lang, BEGIN, "y");
            c.scope.WhStr? && c.s.buffer + "\0z" == "y\0z" && c.s.tok == [] && c.s.error.None?
  {
  }

  lemma NulAtTwo()
    ensures CString("y\0zw") == "y" && CutOff("y\0zw", 1) == "\0z"
  {
    var msg := "y\0zw";
    assert msg[1..] == "\0zw" && CString(msg[1..]) == "" && CString(msg) == "y" + "" == "y";
  }

  lemma DelayedNoError(lang: Lang, c: Config, ch: string)
    requires c.scope.WhStr? && c.s.error.None? && |ch| > 1 && ch[0] == '\0'
    ensures Finish(lang, LastChunk(lang, c, ch)).error.None?
  {
  }

  /** A minus behind a tab is an operator at the front of a message, and a sign behind an operator. */
  lemma TabbedMinus(lang: Lang)
    requires !lang.simple
    ensures Lexes(lang, "+") && !Composes(lang, "+", ' ', "\t-1")
  {
    PlusReads(lang);
    TabbedShape();
    PlainIsTokenize(lang, "\t-1");
    hide TokenizeAny, Composes, PendingEscape, Blanks;
    CompositionalIff(lang, "+", ' ', "\t-1");
  }

  lemma PlusReads(lang: Lang)
    requires !lang.simple
    ensures Lexes(lang, "+") && TokenizeAny(lang, "+").s.tok == [Token(OPERATOR, Operator(20), 1, None)]
  {
    hide Feed, Chunks, Finish;
    var c := Advance(lang, BEGIN, "+");
    PlusSteps(lang);
    PlainIsTokenize(lang, "+");
    SingleChunk("+");
    FedOne(lang, BEGIN, "+");
  }

  lemma PlusSteps(lang: Lang)
    requires !lang.simple
    ensures var t := Finish(lang, Advance(lang, BEGIN, "+"));
            t.error.None? && t.tok == [Token(OPERATOR, Operator(20), 1, None)]
  {
    assert StepDefault(lang, START, "+", 1) == StepOperator(lang, START, "+", 1);
  }

  lemma TabbedShape()
    ensures Blanks("\t-1") == 1
  {
    assert "\t-1"[1..] == "-1";
  }

  /** The blank behind a backslash is a part of the word. */
  lemma EscapedBlank(lang: Lang)
    requires lang.simple
    ensures Lexes(lang, "y\\") && !Composes(lang, "y\\", ' ', "z")
  {
    BackslashReads(lang);
    PlainIsTokenize(lang, "z");
    hide TokenizeAny, Composes;
    CompositionalIff(lang, "y\\", ' ', "z");
  }

  lemma BackslashReads(lang: Lang)
    requires lang.simple
    ensures Lexes(lang, "y\\") && PendingEscape(lang, "y\\")
  {
    hide Feed, Chunks, Finish, StepIn;
    var c := Advance(lang, BEGIN, "y");
    var d := Advance(lang, c, "\\");
    BackslashSteps(lang);
    PlainIsTokenize(lang, "y\\");
    assert "y" + "\\" == "y\\";
    ChunksAppend("y", "\\");
    SingleChunk("y");
    SingleChunk("\\");
    FeedSplit(lang, BEGIN, ["y"], ["\\"]);
    FedOne(lang, BEGIN, "y");
    FedOne(lang, c, "\\");
  }

  lemma BackslashSteps(lang: Lang)
    requires lang.simple
    ensures var c := Advance(lang, BEGIN, "y");
            var d := Advance(lang, c, "\\");
            c.s.error.None? && d.s.error.None? && d.s.whstrEscape && Finish(lang, d).error.None?
  {
    var c := Advance(lang, BEGIN, "y");
    assert c.scope.WhStr? && !c.s.whstrEscape && c.s.error.None?;
    assert StepWhStr(lang, c.s, "\\", 2) == Next(WhStr, c.s.(whstrEscape := true));
  }

  /** One byte from the middle of a sequence is read as nothing, and with a blank and a digit behind it as an
      invalid token. */
  lemma SequenceCutOff(lang: Lang)
    ensures var a := [0x80 as char];
            && Lexes(lang, a) && TokenizeAny(lang, a).s.tok == []
            && TokenizeAny(lang, a + " " + "1").Answered? && TokenizeAny(lang, a + " " + "1").s.error.Some?
  {
    var a := [0x80 as char];
    AloneInvalid(lang, a);
    assert (a + " " + "1")[0] == a[0];
    IrregularFails(lang, a + " " + "1");
  }
}
