/** What stands directly behind a message, with no separator in between: the parenthesis of a call, and quotes. */
module Junctions {
  import opened Common
  import opened Utf8Step
  import opened Lexer
  import opened LexerProofs
  import opened LexerSteps
  import opened Landing
  import opened Composition

  // ------------------------------------------------------------------ calls

  /** The message ends in a name. */
  predicate EndsInName(lang: Lang, a: string) {
    var c := Feed(lang, BEGIN, Chunks(a));
    c.scope.Symbol? && c.s.buffer != ""
  }

  /** The call that a name becomes in front of a parenthesis: its word is the function, its namespace stays. */
  function CallOf(t: Token): Token {
    match t.value
    case Truth(truth) => Token(FCALL, Text(if truth then "true" else "false"), t.pos, None)
    case Text(text) => if t.data.Some? then Token(FCALL, Text(t.data.value), t.pos, Some(text))
                       else Token(FCALL, t.value, t.pos, None)
    case _ => t
  }

  function CallFront(tok: seq<Token>): seq<Token>
    requires tok != []
  {
    tok[..|tok| - 1] + [CallOf(tok[|tok| - 1])]
  }

  /** A parenthesis behind a name makes a call of the name, and nothing else of what was read before; what follows is
      read as it is alone, exactly when no NUL byte delays a word and no sign turns. */
  lemma CallGoesOnIff(lang: Lang, a: string, b: string)
    requires Plain(a) && StartsSequence(a) && Lexes(lang, a) && EndsInName(lang, a)
    requires StartsSequence(b) && TokenizeAny(lang, b).Answered?
    ensures var tok := TokenizeAny(lang, a).s.tok;
            && tok != [] && tok[|tok| - 1].kind in {SYMBOL, BOOLEAN} && CallOf(tok[|tok| - 1]).kind.FCALL?
            && (GoesOn(lang, CallFront(tok), a + "(" + b, b, |a| + 1) <==> Fits(lang, CallFront(tok), '(', b))
  {
    var c := Feed(lang, BEGIN, Chunks(a));
    EndsInNameEscapes(lang, a);
    EndsWell(lang, a);
    PlainIsTokenize(lang, a);
    hide Feed, Chunks, TokenizeAny, Tokenize, Finish, Advance, Fits, GoesOn;
    NameBecomesCall(lang, c);
    StepTidy(lang, c.scope, c.s, "(", c.ofs);
    LastChTidy(lang, c, "(");
    LandsIff(lang, a, '(', CallFront(Tokenize(lang, a).tok), b);
  }

  lemma EndsInNameEscapes(lang: Lang, a: string)
    requires Plain(a) && EndsInName(lang, a)
    ensures !PendingEscape(lang, a)
  {
    ChunksProper(a);
    FeedTidy(lang, BEGIN, Chunks(a));
    hide Feed, Chunks;
  }

  lemma NameBecomesCall(lang: Lang, c: Config)
    requires c.scope.Symbol? && c.s.buffer != "" && c.s.error.None?
    ensures var f, d := Finish(lang, c).tok, Advance(lang, c, "(");
            && f != [] && f[|f| - 1].kind in {SYMBOL, BOOLEAN} && CallOf(f[|f| - 1]).kind.FCALL?
            && d.scope.Default? && d.s.tok == CallFront(f) && d.s.lastCh == Some("(") && d.ofs == c.ofs + 1
  {
    assert !IsSymCh(c.s.buffer, "\0", |c.s.buffer|);
  }

  // ------------------------------------------------------------------ quotes

  predicate EndsInWord(lang: Lang, a: string) {
    Feed(lang, BEGIN, Chunks(a)).scope.WhStr?
  }

  /** A quote behind a word of simple mode ends the word as a blank would: it opens nothing. */
  lemma QuoteEndsWordIff(lang: Lang, a: string, b: string)
    requires Plain(a) && StartsSequence(a) && Lexes(lang, a) && EndsInWord(lang, a) && !PendingEscape(lang, a)
    requires StartsSequence(b) && TokenizeAny(lang, b).Answered?
    ensures var tok := TokenizeAny(lang, a).s.tok;
            GoesOn(lang, tok, a + "\"" + b, b, |a| + 1) <==> Fits(lang, tok, '\"', b)
  {
    var c := Feed(lang, BEGIN, Chunks(a));
    EndsWell(lang, a);
    PlainIsTokenize(lang, a);
    hide Feed, Chunks, TokenizeAny, Tokenize, Finish, Advance, Fits, GoesOn;
    QuoteIsBlank(lang, c);
    StepTidy(lang, c.scope, c.s, "\"", c.ofs);
    LastChTidy(lang, c, "\"");
    LandsIff(lang, a, '\"', Tokenize(lang, a).tok, b);
  }

  lemma QuoteIsBlank(lang: Lang, c: Config)
    requires c.scope.WhStr? && c.s.buffer != "" && !c.s.whstrEscape
    ensures var d := Advance(lang, c, "\"");
            d.scope.Default? && d.s.tok == Finish(lang, c).tok && d.s.lastCh == Some("\"") && d.ofs == c.ofs + 1
  {
  }

  /** A quote behind anything else opens a string, as it does at the front of a message: what it begins is read as it is
      alone, exactly when no NUL byte delays a word. */
  lemma QuoteOpensIff(lang: Lang, a: string, r: string)
    requires Plain(a) && StartsSequence(a) && a != "" && Lexes(lang, a)
    requires !EndsInWord(lang, a) && !PendingEscape(lang, a)
    requires StartsSequence(r) && TokenizeAny(lang, "\"" + r).Answered?
    ensures GoesOn(lang, TokenizeAny(lang, a).s.tok, a + ("\"" + r), "\"" + r, |a|)
            <==> !NulDelaysWord(lang, "\"" + r)
  {
    var c, b := Feed(lang, BEGIN, Chunks(a)), "\"" + r;
    EndsWell(lang, a);
    PlainIsTokenize(lang, a);
    hide Feed, Chunks, TokenizeAny, Tokenize, Finish, Advance, NulDelaysWord, GoesOn, Trails, Follows, CString, Reached;
    QuoteReached(lang, a, r);
    QuoteTrails(lang, c, Tokenize(lang, a).tok, |a|);
    ChunksProper(CString(r));
    FeedFollows(lang, Advance(lang, BEGIN, "\""), Advance(lang, c, "\""), Tokenize(lang, a).tok, |a|,
      Chunks(CString(r)));
    FollowsTrails(Reached(lang, b), Reached(lang, a + b), Tokenize(lang, a).tok, |a|);
    EndsAlike(lang, Tokenize(lang, a).tok, a + b, b, |a|);
  }

  lemma FollowsTrails(c: Config, c': Config, before: seq<Token>, d: int)
    requires Follows(c, c', before, d)
    ensures Trails(c, c', before, d)
  {
  }

  /** Where the driver stands behind the quote, from the front and behind `a`. */
  lemma QuoteTrails(lang: Lang, c: Config, tok: seq<Token>, d: int)
    requires Tidy(c.scope, c.s) && c.s.error.None? && !c.scope.WhStr? && !c.scope.Err?
    requires Finish(lang, c).error.None? && Finish(lang, c).tok == tok && c.ofs == d + 1
    ensures Follows(Advance(lang, BEGIN, "\""), Advance(lang, c, "\""), tok, d)
  {
    hide StepNum, StepSymbol, StepDefault;
    QuoteFromDefault(lang, START, 1);
    match c.scope
    case Default =>
      QuoteFromDefault(lang, c.s, c.ofs);
      EndInDefault(lang, c.s, c.ofs);
    case Num => QuoteFromNum(lang, c.s, c.ofs);
    case Symbol => QuoteFromSymbol(lang, c.s, c.ofs);
    case _ =>
  }

  lemma QuoteFromNum(lang: Lang, s: State, ofs: int)
    requires Tidy(Num, s) && StepNum(lang, s, "\0", ofs).s.error.None?
    ensures var n, t := StepNum(lang, s, "\"", ofs), StepNum(lang, s, "\0", ofs).s;
            Tidy(Default, t) && n == Next(Str, t.(lexStrOfs := Some(ofs)))
  {
    hide NumToken, StepDefault, StepNum;
    NumTokenTidy(lang, s, ofs);
    NumberEnds(lang, s, '\n', ofs);
    QuoteEndsNumber(lang, s, ofs);
    if NumToken(lang, s, ofs).Some? {
      QuoteFromDefault(lang, NumToken(lang, s, ofs).value, ofs);
      EndInDefault(lang, NumToken(lang, s, ofs).value, ofs);
    }
  }

  lemma QuoteFromSymbol(lang: Lang, s: State, ofs: int)
    requires Tidy(Symbol, s)
    ensures var n, t := StepSymbol(lang, s, "\"", ofs), StepSymbol(lang, s, "\0", ofs).s;
            Tidy(Default, t) && n == Next(Str, t.(lexStrOfs := Some(ofs)))
  {
    var t := SymbolToken(s, ofs).(buffer := "", gotAddr := None);
    SymbolAtEnd(lang, s, ofs);
    hide StepDefault, StepSymbol, SymbolToken;
    QuoteFromDefault(lang, t, ofs);
    EndInDefault(lang, t, ofs);
  }

  lemma NumTokenTidy(lang: Lang, s: State, ofs: int)
    requires Tidy(Num, s)
    ensures var t := NumToken(lang, s, ofs); t.Some? ==> Tidy(Default, t.value)
  {
  }

  lemma QuoteEndsNumber(lang: Lang, s: State, ofs: int)
    ensures StepNum(lang, s, "\"", ofs) == EndNum(lang, s, "\"", ofs)
  {
    hide EndNum;
  }

  lemma SymbolAtEnd(lang: Lang, s: State, ofs: int)
    requires Tidy(Symbol, s)
    ensures var t := SymbolToken(s, ofs).(buffer := "", gotAddr := None);
            && Tidy(Default, t)
            && StepSymbol(lang, s, "\"", ofs) == StepDefault(lang, t, "\"", ofs)
            && StepSymbol(lang, s, "\0", ofs) == StepDefault(lang, t, "\0", ofs)
  {
    hide StepDefault;
    assert !IsSymCh(s.buffer, "\"", |s.buffer|) && !IsSymCh(s.buffer, "\0", |s.buffer|);
  }

  lemma QuoteFromDefault(lang: Lang, s: State, ofs: int)
    requires s.buffer == ""
    ensures StepDefault(lang, s, "\"", ofs) == Next(Str, s.(lexStrOfs := Some(ofs)))
  {
  }

  lemma QuoteReached(lang: Lang, a: string, r: string)
    requires Plain(a) && StartsSequence(a) && a != "" && StartsSequence(r)
    requires Feed(lang, BEGIN, Chunks(a)).s.error.None?
    ensures var b, c, q := "\"" + r, Feed(lang, BEGIN, Chunks(a)), Chunks(CString(r));
            && Reached(lang, b) == Feed(lang, Advance(lang, BEGIN, "\""), q)
            && Reached(lang, a + b) == Feed(lang, Advance(lang, c, "\""), q)
            && StartsSequence(b) && Regular(CString(a + b))
            && (CString(b) == b ==> CString(a + b) == a + b)
            && (CString(b) != b ==> Odd(a + b) == Odd(b) && CString(a + b) != a + b)
  {
    var b, c, p := "\"" + r, Feed(lang, BEGIN, Chunks(a)), CString(r);
    assert b[1..] == r && CString(b) == "\"" + p;
    CStringAppend(a, b);
    ChunksAppend("\"", p);
    SingleChunk("\"");
    ChunksAppend(a, "\"" + p);
    hide Feed, Chunks, Advance;
    FeedSplit(lang, BEGIN, Chunks(a), Chunks("\"" + p));
    FedFirst(lang, BEGIN, "\"", Chunks(p));
    FedFirst(lang, c, "\"", Chunks(p));
    if CString(b) != b {
      OddBehind(a, b);
    }
  }
}
