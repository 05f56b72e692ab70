/** What single steps of the lexer emit and blame, lifted to whole messages: tokens stay and stand at or behind
    the place where the driver is, an invalid token is a part of the message, and a word that has begun
    is a token at least that long.
    Module Composition rests on these. */
module LexerSteps {
  import opened Common
  import opened Utf8Step
  import opened Lexer
  import opened LexerProofs

  // ------------------------------------------------------------------ what an invalid token can be

  /** An error leads to the error state, an invalid token is the chunk that is looked at, and the offset that comes with
      an error is that of the chunk; but an unterminated string, and a second namespace, come with that of the last
      opening quote. */
  predicate Blames(n: Next, ch: string, quote: Option<int>, ofs: int) {
    n.s.error.Some? ==>
      && n.scope.Err? && (n.s.error.value.InvalidToken? ==> n.s.error.value.ch == ch && !IsEnd(ch))
      && n.s.errorOfs == if n.s.error.value.Unterminated? || n.s.error.value.SecondNamespace? then quote else Some(ofs)
  }

  lemma OperatorBlames(lang: Lang, s: State, ch: string, ofs: int)
    requires s.error.None? && OperatorCode(ch).Some?
    ensures StepOperator(lang, s, ch, ofs).s.error.None?
  {
    hide OperatorCode, Masked, Is, StartsNegative;
  }

  lemma DigitBlames(lang: Lang, s: State, ch: string, ofs: int)
    requires s.error.None? && IsNum(ch)
    ensures Blames(StepNum(lang, s, ch, ofs), ch, s.lexStrOfs, ofs)
  {
  }

  lemma DefaultBlames(lang: Lang, s: State, ch: string, ofs: int)
    requires s.error.None?
    ensures Blames(StepDefault(lang, s, ch, ofs), ch, s.lexStrOfs, ofs)
  {
    hide OperatorCode, StepOperator, StepNum, IsSymCh, IsSpace, IsNum, Is, IsEnd, Blames;
    var n := StepDefault(lang, s, ch, ofs);
    if n.s.error.Some? {
      DefaultErrors(lang, s, ch, ofs);
      if IsNum(ch) {
        DigitBlames(lang, FreshNumber(s, false), ch, ofs);
      }
      FailBlames(s, ch, ofs);
    } else {
      NoneBlames(n, ch, s.lexStrOfs, ofs);
    }
  }

  lemma NoneBlames(n: Next, ch: string, quote: Option<int>, ofs: int)
    requires n.s.error.None?
    ensures Blames(n, ch, quote, ofs)
  {
  }

  lemma FailBlames(s: State, ch: string, ofs: int)
    ensures Blames(Fail(s, UnexpectedEnd(s.buffer), Some(ofs)), ch, s.lexStrOfs, ofs)
    ensures !IsEnd(ch) ==> Blames(Fail(s, InvalidToken(ch), Some(ofs)), ch, s.lexStrOfs, ofs)
  {
  }

  /** The errors of the default state. */
  lemma DefaultErrors(lang: Lang, s: State, ch: string, ofs: int)
    requires s.error.None?
    ensures var n := StepDefault(lang, s, ch, ofs);
            || n.s.error.None?
            || n == Fail(s, UnexpectedEnd(s.buffer), Some(ofs))
            || (IsNum(ch) && n == StepNum(lang, FreshNumber(s, false), ch, ofs))
            || (!IsEnd(ch) && n == Fail(s, InvalidToken(ch), Some(ofs)))
  {
    hide OperatorCode, StepOperator, StepNum, IsSymCh, IsSpace, IsNum, Is, IsEnd, Fail;
    var n := StepDefault(lang, s, ch, ofs);
    if IsEnd(ch) {
      assert n == if |s.buffer| > 0 then Fail(s, UnexpectedEnd(s.buffer), Some(ofs)) else Next(Default, s);
    } else if IsSymCh(s.buffer, ch, 0) {
      assert n.s == s.(buffer := ch);
    } else if IsNum(ch) {
      assert n == StepNum(lang, FreshNumber(s, false), ch, ofs);
    } else if Is(ch, '.') || Is(ch, '\"') || IsSpace(ch) {
      assert n.s.error == s.error;
    } else if OperatorCode(ch).Some? {
      OperatorBlames(lang, s, ch, ofs);
      assert n == StepOperator(lang, s, ch, ofs);
    } else {
      assert n == Fail(s, InvalidToken(ch), Some(ofs));
    }
  }

  lemma EndNumBlames(lang: Lang, s: State, ch: string, ofs: int)
    requires s.error.None? && !IsNum(ch)
    ensures Blames(EndNum(lang, s, ch, ofs), ch, s.lexStrOfs, ofs)
  {
    hide StepDefault, NumToken, IsNum, IsEnd;
    NumTokenClean(lang, s, ofs);
    var t := NumToken(lang, s, ofs);
    if t.Some? {
      DefaultBlames(lang, t.value, ch, ofs);
    }
  }

  lemma NumTokenClean(lang: Lang, s: State, ofs: int)
    requires s.error.None?
    ensures var t := NumToken(lang, s, ofs);
            t.Some? ==> t.value.error.None? && t.value.lexStrOfs == s.lexStrOfs
  {
  }

  lemma NumBlames(lang: Lang, s: State, ch: string, ofs: int)
    requires s.error.None?
    ensures Blames(StepNum(lang, s, ch, ofs), ch, s.lexStrOfs, ofs)
  {
    hide EndNum, StepDefault, IsEnd;
    if !IsNum(ch) {
      EndNumBlames(lang, s, ch, ofs);
    }
  }

  lemma SymbolBlames(lang: Lang, s: State, ch: string, ofs: int)
    requires s.error.None?
    ensures Blames(StepSymbol(lang, s, ch, ofs), ch, s.lexStrOfs, ofs)
  {
    hide StepDefault, Blames, IsSymCh, Is, SymbolToken, Fail;
    var n, done := StepSymbol(lang, s, ch, ofs), SymbolToken(s, ofs).(buffer := "", gotAddr := None);
    SymbolClean(s, ofs);
    if Is(ch, '(') && |s.buffer| > 0 {
      NoneBlames(n, ch, s.lexStrOfs, ofs);
    } else if !IsSymCh(s.buffer, ch, |s.buffer|) {
      DefaultBlames(lang, done, ch, ofs);
    } else if Is(ch, '.') && s.gotAddr.Some? {
      SecondBlames(s, ch, ofs);
    } else {
      NoneBlames(n, ch, s.lexStrOfs, ofs);
    }
  }

  lemma SymbolClean(s: State, ofs: int)
    ensures SymbolToken(s, ofs).error == s.error && SymbolToken(s, ofs).lexStrOfs == s.lexStrOfs
  {
  }

  lemma SecondBlames(s: State, ch: string, ofs: int)
    ensures Blames(Fail(s, SecondNamespace, s.lexStrOfs), ch, s.lexStrOfs, ofs)
  {
  }

  /** So with every error of a step. */
  lemma StepBlames(lang: Lang, scope: Scope, s: State, ch: string, ofs: int)
    requires s.error.None?
    ensures Blames(StepIn(lang, scope, s, ch, ofs), ch, s.lexStrOfs, ofs)
  {
    hide StepDefault, StepNum, StepSymbol, StepWhStr, StepStr, Blames;
    match scope
    case Default => DefaultBlames(lang, s, ch, ofs);
    case Num => NumBlames(lang, s, ch, ofs);
    case Symbol => SymbolBlames(lang, s, ch, ofs);
    case WhStr => WordBlames(lang, s, ch, ofs);
    case Str => StringBlames(s, ch, ofs);
    case Err => NoneBlames(Next(Err, s), ch, s.lexStrOfs, ofs);
  }

  lemma WordBlames(lang: Lang, s: State, ch: string, ofs: int)
    requires s.error.None?
    ensures Blames(StepWhStr(lang, s, ch, ofs), ch, s.lexStrOfs, ofs)
  {
    hide OperatorCode, Masked, IsSpace, IsEnd, Is;
  }

  lemma StringBlames(s: State, ch: string, ofs: int)
    requires s.error.None?
    ensures Blames(StepStr(s, ch, ofs), ch, s.lexStrOfs, ofs)
  {
    hide IsEnd, Is;
  }

  lemma {:induction false} FeedInvalid(lang: Lang, c: Config, chunks: seq<string>)
    requires c.s.error.None?
    ensures var e := Feed(lang, c, chunks).s.error; e.Some? && e.value.InvalidToken? ==> e.value.ch in chunks
    decreases |chunks|
  {
    hide StepIn;
    if chunks != [] {
      var d := Advance(lang, c, chunks[0]);
      StepBlames(lang, c.scope, c.s, chunks[0], c.ofs);
      if d.s.error.None? {
        FeedInvalid(lang, d, chunks[1..]);
      }
    }
  }

  lemma {:induction false} ChunkBounds(msg: string, ch: string)
    requires ch in Chunks(msg)
    ensures ch != "" && |ch| <= |msg| && (StartsSequence(msg) ==> !Continues(ch[0]))
    decreases |msg|
  {
    var n := NextStart(msg, 1);
    if ch != msg[..n] {
      assert ch in Chunks(msg[n..]);
      ChunkBounds(msg[n..], ch);
    }
  }

  lemma FinishInvalid(lang: Lang, c: Config)
    requires c.s.error.Some? ==> c.scope.Err?
    ensures var e := Finish(lang, c).error; e.Some? && e.value.InvalidToken? ==> e == c.s.error
  {
    if c.s.error.None? {
      StepBlames(lang, c.scope, c.s, "\0", c.ofs);
    }
  }

  lemma LastChunkInvalid(lang: Lang, c: Config, ch: string)
    requires c.s.error.None?
    ensures var e := Finish(lang, LastChunk(lang, c, ch)).error; e.Some? && e.value.InvalidToken? ==> e.value.ch == ch
  {
    StepBlames(lang, c.scope, c.s, ch, c.ofs);
    var d := LastChunk(lang, c, ch);
    hide StepIn;
    FinishInvalid(lang, d);
  }

  lemma ReachedTidy(lang: Lang, b: string)
    ensures var c := Reached(lang, b);
            && Tidy(c.scope, c.s) && (c.s.error.Some? <==> c.scope.Err?)
            && (c.s.error.Some? ==> Regular(CString(b)))
  {
    TidyUpToNul(lang, b);
  }

  /** The error about an invalid token names a part of the message, and one that starts a sequence if the message
      does. */
  lemma InvalidIsPart(lang: Lang, b: string)
    requires TokenizeAny(lang, b).Answered?
    ensures var e := TokenizeAny(lang, b).s.error;
            e.Some? && e.value.InvalidToken? ==>
              |e.value.ch| <= |b| && (Regular(CString(b)) && e.value.ch != "" ==> !Continues(e.value.ch[0]))
  {
    hide Feed, Chunks, Finish, LastChunk, StepIn;
    var c := Reached(lang, b);
    ReachedTidy(lang, b);
    FinishInvalid(lang, c);
    OddBound(b);
    if c.s.error.None? {
      LastChunkInvalid(lang, c, Odd(b));
    } else {
      var p := CString(b);
      FeedInvalid(lang, BEGIN, Chunks(p));
      if c.s.error.value.InvalidToken? {
        ChunkBounds(p, c.s.error.value.ch);
      }
    }
  }

  lemma OddBound(b: string)
    ensures |Odd(b)| <= |b| && (Regular(CString(b)) && CString(b) != b && Odd(b) != "" ==> Odd(b)[0] == '\0')
    ensures |CString(b)| <= |b|
  {
  }

  // ------------------------------------------------------------------ single steps

  /** A chunk that is no token wherever a token can start: it starts inside a sequence, or has something behind
      a byte that is no digit and no letter. */
  predicate Foreign(ch: string) {
    ch != "" && (Continues(ch[0]) || (|ch| > 1 && !IsNum(ch) && !IsAlpha(ch)))
  }

  lemma ForeignInDefault(lang: Lang, s: State, ch: string, ofs: int)
    requires Foreign(ch)
    ensures StepDefault(lang, s, ch, ofs) == Fail(s, InvalidToken(ch), Some(ofs)) && !IsNum(ch)
  {
    assert !IsSymCh(s.buffer, ch, 0) && OperatorCode(ch).None?;
  }

  /** Outside of words and strings such a chunk is an invalid token. */
  lemma ForeignFails(lang: Lang, c: Config, ch: string)
    requires Foreign(ch) && c.s.error.None? && (c.scope.Default? || c.scope.Num? || c.scope.Symbol?)
    requires c.scope.Num? ==> NumToken(lang, c.s, c.ofs).Some?
    ensures var n := StepIn(lang, c.scope, c.s, ch, c.ofs); n.scope.Err? && n.s.error == Some(InvalidToken(ch))
  {
    match c.scope
    case Default => ForeignInDefault(lang, c.s, ch, c.ofs);
    case Num =>
      hide StepDefault, NumToken;
      ForeignInDefault(lang, NumToken(lang, c.s, c.ofs).value, ch, c.ofs);
      assert StepNum(lang, c.s, ch, c.ofs) == EndNum(lang, c.s, ch, c.ofs);
    case Symbol =>
      hide StepDefault;
      ForeignInDefault(lang, SymbolToken(c.s, c.ofs).(buffer := "", gotAddr := None), ch, c.ofs);
      assert !IsSymCh(c.s.buffer, ch, |c.s.buffer|);
  }

  /** At a NUL byte a number state without a number fails. */
  lemma NumNeedsToken(lang: Lang, c: Config, ch: string)
    requires c.scope.Num? && c.s.error.None? && ch != "" && ch[0] == '\0'
    ensures NumToken(lang, c.s, c.ofs).None? ==>
              var n := StepIn(lang, c.scope, c.s, ch, c.ofs); n.scope.Err? && n.s.error.Some?
  {
    hide StepDefault, NumToken;
    assert StepNum(lang, c.s, ch, c.ofs) == EndNum(lang, c.s, ch, c.ofs);
  }

  lemma ErrorLasts(lang: Lang, c: Config)
    requires c.scope.Err?
    ensures Finish(lang, c).error == c.s.error && Finish(lang, c).tok == c.s.tok
  {
  }

  /** A minus in the default state of normal mode. */
  lemma MinusSteps(lang: Lang, c: Config)
    requires c.scope.Default? && !lang.simple && c.s.buffer == ""
    ensures var d := Advance(lang, c, "-");
            && d.ofs == c.ofs + 1
            && d.s.tok == c.s.tok + if StartsNegative(c.s) then []
                                    else [Token(OPERATOR, Operator(OP_SUB), c.ofs, None)]
  {
    hide StartsNegative;
    assert OperatorCode("-") == Some(OP_SUB);
    assert StepDefault(lang, c.s, "-", c.ofs) == StepOperator(lang, c.s, "-", c.ofs);
  }

  // ------------------------------------------------------------------ where tokens stand

  /** `t` is `s` with more tokens, all at `ofs`. */
  predicate Emits(s: seq<Token>, t: seq<Token>, ofs: int) {
    s <= t && forall i :: |s| <= i < |t| ==> t[i].pos == ofs
  }

  /** `t` is `s` with more tokens, each at `from` or later, or at -1. */
  predicate Extends(s: seq<Token>, t: seq<Token>, from: int) {
    s <= t && forall i :: |s| <= i < |t| ==> t[i].pos == -1 || t[i].pos >= from
  }

  lemma DefaultTokens(lang: Lang, s: State, ch: string, ofs: int)
    ensures Emits(s.tok, StepDefault(lang, s, ch, ofs).s.tok, ofs)
  {
    hide OperatorCode, StepOperator, StepNum, IsSymCh, IsSpace, IsNum, Is, IsEnd, Emits, FreshNumber, Fail;
    EmitsNone(s.tok, ofs);
    FreshTokens(s);
    FailTokens(s, UnexpectedEnd(s.buffer), Some(ofs));
    FailTokens(s, InvalidToken(ch), Some(ofs));
    var n := StepDefault(lang, s, ch, ofs);
    if IsEnd(ch) || IsSymCh(s.buffer, ch, 0) {
      assert n.s.tok == s.tok;
    } else if IsNum(ch) {
      DigitTokens(lang, FreshNumber(s, false), ch, ofs);
      assert n == StepNum(lang, FreshNumber(s, false), ch, ofs);
    } else if Is(ch, '.') || Is(ch, '\"') || IsSpace(ch) {
      assert n.s.tok == s.tok;
    } else if OperatorCode(ch).Some? {
      OperatorTokens(lang, s, ch, ofs);
      assert n == StepOperator(lang, s, ch, ofs);
    } else {
      assert n.s.tok == s.tok;
    }
  }

  lemma EmitsNone(s: seq<Token>, ofs: int)
    ensures Emits(s, s, ofs)
  {
  }

  lemma EmitsAgain(s: seq<Token>, t: seq<Token>, u: seq<Token>, ofs: int)
    requires Emits(s, t, ofs) && Emits(t, u, ofs)
    ensures Emits(s, u, ofs)
  {
  }

  lemma AddEmits(s: State, kind: Kind, value: Value, ofs: int, data: Option<string>)
    ensures Emits(s.tok, AddToken(s, kind, value, ofs, data).tok, ofs)
  {
  }

  lemma FailTokens(s: State, e: LexError, ofs: Option<int>)
    ensures Fail(s, e, ofs).s.tok == s.tok
  {
  }

  lemma FreshTokens(s: State)
    ensures FreshNumber(s, false).tok == FreshNumber(s, true).tok == s.tok
  {
  }

  lemma DigitTokens(lang: Lang, s: State, ch: string, ofs: int)
    requires IsNum(ch)
    ensures StepNum(lang, s, ch, ofs).s.tok == s.tok
  {
  }

  lemma OperatorTokens(lang: Lang, s: State, ch: string, ofs: int)
    requires OperatorCode(ch).Some?
    ensures Emits(s.tok, StepOperator(lang, s, ch, ofs).s.tok, ofs)
  {
    hide OperatorCode, Masked, Is, StartsNegative;
  }

  lemma EndNumTokens(lang: Lang, s: State, ch: string, ofs: int)
    requires !IsNum(ch)
    ensures Emits(s.tok, EndNum(lang, s, ch, ofs).s.tok, ofs)
  {
    var t := NumToken(lang, s, ofs);
    assert t.Some? ==> Emits(s.tok, t.value.tok, ofs);
    hide StepDefault, NumToken;
    if t.Some? {
      DefaultTokens(lang, t.value, ch, ofs);
    }
  }

  lemma NumTokens(lang: Lang, s: State, ch: string, ofs: int)
    ensures Emits(s.tok, StepNum(lang, s, ch, ofs).s.tok, ofs)
  {
    hide EndNum, StepDefault, Emits, Is, Fail;
    EmitsNone(s.tok, ofs);
    FailTokens(s, BadBinaryDigit(ch), Some(ofs));
    FailTokens(s, MultipleRadix, Some(ofs));
    FailTokens(s, BadBinary, Some(ofs));
    FailTokens(s, BadHex, Some(ofs));
    if !IsNum(ch) {
      EndNumTokens(lang, s, ch, ofs);
    }
  }

  /** A step keeps the tokens and emits its own at the current offset. */
  lemma StepTokens(lang: Lang, scope: Scope, s: State, ch: string, ofs: int)
    ensures Emits(s.tok, StepIn(lang, scope, s, ch, ofs).s.tok, ofs)
  {
    hide StepDefault, StepNum, StepSymbol, StepWhStr;
    match scope
    case Default => DefaultTokens(lang, s, ch, ofs);
    case Num => NumTokens(lang, s, ch, ofs);
    case Symbol => SymbolTokens(lang, s, ch, ofs);
    case WhStr => WordTokens(lang, s, ch, ofs);
    case _ =>
  }

  lemma WordTokens(lang: Lang, s: State, ch: string, ofs: int)
    ensures Emits(s.tok, StepWhStr(lang, s, ch, ofs).s.tok, ofs)
  {
    hide OperatorCode, Masked, Emits, AddToken, Is, IsSpace, IsEnd;
    var t := AddToken(s, STRING, Text(s.buffer), ofs, None).(buffer := "");
    EmitsNone(s.tok, ofs);
    AddEmits(s, STRING, Text(s.buffer), ofs, None);
    if OperatorCode(ch).Some? {
      var u := AddToken(t, OPERATOR, Operator(OperatorCode(ch).value), ofs, None);
      AddEmits(t, OPERATOR, Operator(OperatorCode(ch).value), ofs, None);
      EmitsAgain(s.tok, t.tok, u.tok, ofs);
    }
  }

  lemma SymbolTokens(lang: Lang, s: State, ch: string, ofs: int)
    ensures Emits(s.tok, StepSymbol(lang, s, ch, ofs).s.tok, ofs)
  {
    hide StepDefault, IsSymCh, WordOf, Emits, AddToken, Is, Lower, Fail;
    var done, w := SymbolToken(s, ofs).(buffer := "", gotAddr := None), WordOf(s.buffer, s.gotAddr);
    EmitsNone(s.tok, ofs);
    AddEmits(s, FCALL, Text(Lower(s.buffer)), ofs, s.gotAddr);
    AddEmits(s, w.kind, w.value, ofs, w.data);
    FailTokens(s, SecondNamespace, s.lexStrOfs);
    DefaultTokens(lang, done, ch, ofs);
    EmitsAgain(s.tok, done.tok, StepDefault(lang, done, ch, ofs).s.tok, ofs);
  }

  lemma {:induction false} FeedTokens(lang: Lang, c: Config, chunks: seq<string>)
    ensures Extends(c.s.tok, Feed(lang, c, chunks).s.tok, c.ofs) && Feed(lang, c, chunks).ofs >= c.ofs
    decreases |chunks|
  {
    hide StepIn;
    if chunks != [] && c.s.error.None? {
      StepTokens(lang, c.scope, c.s, chunks[0], c.ofs);
      FeedTokens(lang, Advance(lang, c, chunks[0]), chunks[1..]);
    }
  }

  lemma FinishTokens(lang: Lang, c: Config, from: int)
    requires c.ofs == -1 || c.ofs >= from
    ensures Extends(c.s.tok, Finish(lang, c).tok, from)
  {
    hide StepIn;
    StepTokens(lang, c.scope, c.s, "\0", c.ofs);
  }

  lemma LastTokens(lang: Lang, c: Config, ch: string)
    ensures Extends(c.s.tok, Finish(lang, LastChunk(lang, c, ch)).tok, c.ofs)
  {
    hide StepIn, Finish;
    StepTokens(lang, c.scope, c.s, ch, c.ofs);
    var d := LastChunk(lang, c, ch);
    FinishTokens(lang, d, c.ofs);
  }

  lemma AnswerTokens(lang: Lang, msg: string)
    requires TokenizeAny(lang, msg).Answered?
    ensures var c := Reached(lang, msg); Extends(c.s.tok, TokenizeAny(lang, msg).s.tok, c.ofs)
  {
    hide StepIn, Reached, Odd, Finish, LastChunk, Extends;
    var c := Reached(lang, msg);
    FinishTokens(lang, c, c.ofs);
    LastTokens(lang, c, Odd(msg));
  }

  lemma LaterExtends(s: seq<Token>, t: seq<Token>, u: seq<Token>, from: int, later: int)
    requires Extends(s, t, from) && Extends(t, u, later) && from <= later
    ensures Extends(s, u, from)
  {
  }

  // ------------------------------------------------------------------ words that have begun

  /** The token number `n` is a text of at least `m` bytes, or will be, or never comes. */
  predicate Longer(scope: Scope, s: State, n: nat, m: nat) {
    && |s.tok| >= n
    && (|s.tok| == n ==> scope.Err? || (scope.WhStr? && |s.buffer| >= m))
    && (|s.tok| > n ==> s.tok[n].value.Text? && |s.tok[n].value.text| >= m)
  }

  lemma StepLonger(lang: Lang, scope: Scope, s: State, ch: string, ofs: int, n: nat, m: nat)
    requires Longer(scope, s, n, m) && m > 0
    ensures var r := StepIn(lang, scope, s, ch, ofs); Longer(r.scope, r.s, n, m)
  {
    hide StepWhStr, StepDefault, StepNum, StepSymbol, StepStr, Extends;
    if |s.tok| > n {
      LongerKept(lang, scope, s, ch, ofs, n);
    } else if scope.WhStr? {
      WordLonger(lang, s, ch, ofs, n, m);
    }
  }

  lemma LongerKept(lang: Lang, scope: Scope, s: State, ch: string, ofs: int, n: nat)
    requires |s.tok| > n
    ensures var t := StepIn(lang, scope, s, ch, ofs).s.tok; |t| > n && t[n] == s.tok[n]
  {
    hide StepIn;
    StepTokens(lang, scope, s, ch, ofs);
  }

  lemma WordLonger(lang: Lang, s: State, ch: string, ofs: int, n: nat, m: nat)
    requires |s.tok| == n && |s.buffer| >= m > 0
    ensures var r := StepWhStr(lang, s, ch, ofs); Longer(r.scope, r.s, n, m)
  {
    hide OperatorCode, Masked, IsSpace, IsEnd, Is, Longer, AddToken;
    var t := AddToken(s, STRING, Text(s.buffer), ofs, None);
    WordPushed(s, t, ofs, n, m);
    if OperatorCode(ch).Some? {
      OperatorPushed(t.(buffer := ""), OperatorCode(ch).value, ofs, n, m);
    }
    WordGoesOn(s, ch, n, m);
  }

  lemma WordPushed(s: State, t: State, ofs: int, n: nat, m: nat)
    requires t == AddToken(s, STRING, Text(s.buffer), ofs, None) && |s.tok| == n && |s.buffer| >= m > 0
    ensures Longer(Default, t.(whstrEscape := false), n, m) && Longer(Default, t.(buffer := ""), n, m)
  {
  }

  lemma OperatorPushed(t: State, op: nat, ofs: int, n: nat, m: nat)
    requires Longer(Default, t, n, m)
    ensures Longer(Default, AddToken(t, OPERATOR, Operator(op), ofs, None), n, m)
  {
  }

  lemma WordGoesOn(s: State, ch: string, n: nat, m: nat)
    requires |s.tok| == n && |s.buffer| >= m > 0
    ensures Longer(WhStr, s.(whstrEscape := true), n, m) && Longer(WhStr, s.(buffer := s.buffer + ch), n, m)
    ensures Longer(WhStr, s.(whstrEscape := false, buffer := s.buffer + ch), n, m)
  {
  }

  lemma {:induction false} FeedLonger(lang: Lang, c: Config, chunks: seq<string>, n: nat, m: nat)
    requires Longer(c.scope, c.s, n, m) && m > 0
    ensures var d := Feed(lang, c, chunks); Longer(d.scope, d.s, n, m)
    decreases |chunks|
  {
    hide StepIn;
    if chunks != [] && c.s.error.None? {
      StepLonger(lang, c.scope, c.s, chunks[0], c.ofs, n, m);
      FeedLonger(lang, Advance(lang, c, chunks[0]), chunks[1..], n, m);
    }
  }

  lemma AnswerLonger(lang: Lang, msg: string, n: nat, m: nat)
    requires TokenizeAny(lang, msg).Answered? && m > 0
    requires Longer(Reached(lang, msg).scope, Reached(lang, msg).s, n, m)
    ensures var t := TokenizeAny(lang, msg).s.tok; |t| > n ==> t[n].value.Text? && |t[n].value.text| >= m
  {
    hide StepIn, Reached, Odd;
    var c := Reached(lang, msg);
    var d := LastChunk(lang, c, Odd(msg));
    StepLonger(lang, c.scope, c.s, "\0", c.ofs, n, m);
    StepLonger(lang, c.scope, c.s, Odd(msg), c.ofs, n, m);
    assert Longer(d.scope, d.s, n, m);
    StepLonger(lang, d.scope, d.s, "\0", -1, n, m);
  }
}
