/** What the lexer guarantees on every message: its state discipline, and that states that differ by earlier
    tokens and an offset take steps that differ by the same.
    Tokenizing is therefore compositional over blanks; module Composition says exactly when. */
module LexerProofs {
  import opened Common
  import opened Utf8Step
  import opened Lexer

  // ------------------------------------------------------------------ the state discipline

  /** What each lexer state relies on.  In the default state the buffer is empty and every flag clear. */
  predicate Tidy(scope: Scope, s: State) {
    && (s.error.Some? <==> scope.Err?)
    && (s.error.Some? ==> !s.error.value.UnexpectedEnd?)
    && (scope.Default? ==> s.buffer == "" && !s.negate && !s.inEscape && !s.whstrEscape && s.gotAddr.None?)
    && (scope.WhStr? ==> s.buffer != "" && !s.negate && !s.inEscape && s.gotAddr.None?)
    && (scope.Num? ==> !s.inEscape && !s.whstrEscape && s.gotAddr.None?)
    && (scope.Symbol? ==> !s.negate && !s.inEscape && !s.whstrEscape)
    && (scope.Str? ==> !s.negate && !s.whstrEscape && s.gotAddr.None?)
  }

  lemma DefaultTidy(lang: Lang, s: State, ch: string, ofs: int)
    requires Tidy(Default, s)
    ensures var Next(scope, t) := StepDefault(lang, s, ch, ofs);
            Tidy(scope, t) && (IsEnd(ch) ==> scope.Default? && t == s)
  {
  }

  lemma EndNumTidy(lang: Lang, s: State, ch: string, ofs: int)
    requires Tidy(Num, s) && !IsNum(ch)
    ensures var Next(scope, t) := EndNum(lang, s, ch, ofs); Tidy(scope, t)
  {
    hide StepDefault;
    var t := NumToken(lang, s, ofs);
    if t.Some? {
      assert t.value.buffer == "";
      DefaultTidy(lang, t.value, ch, ofs);
    }
  }

  lemma NumTidy(lang: Lang, s: State, ch: string, ofs: int)
    requires Tidy(Num, s)
    ensures var Next(scope, t) := StepNum(lang, s, ch, ofs); Tidy(scope, t)
  {
    hide EndNum, StepDefault;
    if !IsNum(ch) {
      EndNumTidy(lang, s, ch, ofs);
    }
  }

  lemma SymbolTidy(lang: Lang, s: State, ch: string, ofs: int)
    requires Tidy(Symbol, s)
    ensures var Next(scope, t) := StepSymbol(lang, s, ch, ofs); Tidy(scope, t)
  {
    hide StepDefault;
    DefaultTidy(lang, SymbolToken(s, ofs).(buffer := "", gotAddr := None), ch, ofs);
  }

  /** Every step keeps the discipline, in particular on each entry to the default state. */
  lemma StepTidy(lang: Lang, scope: Scope, s: State, ch: string, ofs: int)
    requires Tidy(scope, s) && !IsEnd(ch)
    ensures var Next(scope', t) := StepIn(lang, scope, s, ch, ofs); Tidy(scope', t)
  {
    match scope
    case Default => DefaultTidy(lang, s, ch, ofs);
    case Num => NumTidy(lang, s, ch, ofs);
    case Symbol => SymbolTidy(lang, s, ch, ofs);
    case WhStr =>
    case Str =>
    case Err =>
  }

  /** The end of the message never finds the default state with something buffered. */
  lemma EndNeverUnexpected(lang: Lang, c: Config)
    requires Tidy(c.scope, c.s)
    ensures var t := Finish(lang, c); t.error.Some? ==> !t.error.value.UnexpectedEnd?
  {
    match c.scope
    case Default => DefaultTidy(lang, c.s, "\0", c.ofs);
    case Num => NumTidy(lang, c.s, "\0", c.ofs);
    case Symbol => SymbolTidy(lang, c.s, "\0", c.ofs);
    case _ =>
  }

  ghost predicate Proper(chunks: seq<string>) {
    forall i :: 0 <= i < |chunks| ==> !IsEnd(chunks[i])
  }

  lemma {:induction false} FeedTidy(lang: Lang, c: Config, chunks: seq<string>)
    requires Tidy(c.scope, c.s) && Proper(chunks)
    ensures Tidy(Feed(lang, c, chunks).scope, Feed(lang, c, chunks).s)
    decreases |chunks|
  {
    hide StepIn, Tidy;
    if chunks != [] && c.s.error.None? {
      StepTidy(lang, c.scope, c.s, chunks[0], c.ofs);
      LastChTidy(lang, c, chunks[0]);
      FeedTidy(lang, Advance(lang, c, chunks[0]), chunks[1..]);
    }
  }

  lemma LastChTidy(lang: Lang, c: Config, ch: string)
    requires var Next(scope, t) := StepIn(lang, c.scope, c.s, ch, c.ofs); Tidy(scope, t)
    ensures Tidy(Advance(lang, c, ch).scope, Advance(lang, c, ch).s)
  {
  }

  /** A message without NUL bytes. */
  predicate Plain(msg: string) {
    '\0' !in msg
  }

  lemma {:induction false} ChunksProper(msg: string)
    requires Plain(msg)
    ensures Proper(Chunks(msg))
    decreases |msg|
  {
    if msg != "" {
      var n := NextStart(msg, 1);
      assert msg[..n][0] == msg[0];
      ChunksProper(msg[n..]);
    }
  }

  /** Whatever the message, the lexer keeps the discipline up to the first NUL byte. */
  lemma TidyUpToNul(lang: Lang, msg: string)
    ensures var c := Feed(lang, BEGIN, Chunks(CString(msg))); Tidy(c.scope, c.s)
  {
    ChunksProper(CString(msg));
    FeedTidy(lang, BEGIN, Chunks(CString(msg)));
  }

  lemma DigitStays(lang: Lang, s: State, ch: string, ofs: int)
    requires IsNum(ch)
    ensures StepNum(lang, s, ch, ofs).scope in {Num, Err}
  {
  }

  /** On messages without NUL bytes both functions are the same. */
  lemma PlainIsTokenize(lang: Lang, msg: string)
    requires Plain(msg)
    ensures TokenizeAny(lang, msg) == Answered(Tokenize(lang, msg))
  {
    assert CString(msg) == msg;
  }

  // ------------------------------------------------------------------ compositionality

  function Later(ofs: Option<int>, d: int): Option<int> {
    if ofs.Some? then Some(ofs.value + d) else None
  }

  function Shift(tok: seq<Token>, d: int): (r: seq<Token>)
    ensures |r| == |tok| && forall i :: 0 <= i < |tok| ==> r[i] == tok[i].(pos := tok[i].pos + d)
  {
    seq(|tok|, i requires 0 <= i < |tok| => tok[i].(pos := tok[i].pos + d))
  }

  lemma ShiftPush(before: seq<Token>, tok: seq<Token>, t: Token, d: int)
    ensures (before + Shift(tok, d)) + [t.(pos := t.pos + d)] == before + Shift(tok + [t], d)
  {
  }

  /** `tok'` are the tokens `before` followed by `tok` with positions `d` further on. */
  predicate Behind(tok: seq<Token>, tok': seq<Token>, before: seq<Token>, d: int) {
    tok' == before + Shift(tok, d)
  }

  /** `s'` is `s`, moved behind the tokens `before` and `d` bytes down the message.  Flags that the current
      state function never reads may differ. */
  predicate Alike(scope: Scope, s: State, s': State, before: seq<Token>, d: int) {
    && Behind(s.tok, s'.tok, before, d)
    && s'.buffer == s.buffer && s'.negate == s.negate && s'.inEscape == s.inEscape
    && s'.whstrEscape == s.whstrEscape && s'.gotAddr == s.gotAddr && s'.error == s.error
    && (scope.Num? ==> s'.numberFract == s.numberFract && s'.numberHex == s.numberHex
                       && s'.numberBin == s.numberBin && s'.base == s.base)
    && (scope.Str? ==> s'.lexStrOfs == Later(s.lexStrOfs, d))
    && (s.error.Some? && !s.error.value.SecondNamespace? ==> s'.errorOfs == Later(s.errorOfs, d))
  }

  predicate SameStep(r: Next, r': Next, before: seq<Token>, d: int) {
    r.scope == r'.scope && Alike(r.scope, r.s, r'.s, before, d)
  }

  lemma AddTokenAlike(
    scope: Scope, s: State, s': State, before: seq<Token>, d: int,
    kind: Kind, value: Value, ofs: int, data: Option<string>)
    requires Alike(scope, s, s', before, d)
    ensures Alike(scope, AddToken(s, kind, value, ofs, data), AddToken(s', kind, value, ofs + d, data), before, d)
  {
    ShiftPush(before, s.tok, Token(kind, value, ofs, data), d);
  }

  lemma SignsAgree(s: State, s': State, before: seq<Token>, d: int)
    requires Behind(s.tok, s'.tok, before, d) && s.tok != [] && SameLast(s, s')
    ensures StartsNegative(s) == StartsNegative(s')
  {
    assert s'.tok[|s'.tok| - 1] == Shift(s.tok, d)[|s.tok| - 1];
  }

  /** The updates the lexer makes keep states alike. */
  lemma EditAlike(
    scope: Scope, scope': Scope, s: State, s': State, before: seq<Token>, d: int,
    buffer: string, inEscape: bool, whstrEscape: bool, gotAddr: Option<string>)
    requires Alike(scope, s, s', before, d) && (scope' == scope || (!scope'.Num? && !scope'.Str?))
    ensures Alike(scope',
              s.(buffer := buffer, inEscape := inEscape, whstrEscape := whstrEscape, gotAddr := gotAddr),
              s'.(buffer := buffer, inEscape := inEscape, whstrEscape := whstrEscape, gotAddr := gotAddr),
              before, d)
  {
  }

  lemma FlagsAlike(
    scope: Scope, s: State, s': State, before: seq<Token>, d: int,
    buffer: string, negate: bool, fract: bool, hex: bool, bin: bool, base: nat)
    requires Alike(scope, s, s', before, d)
    ensures Alike(Num,
              s.(buffer := buffer, negate := negate,
                 numberFract := fract, numberHex := hex, numberBin := bin, base := base),
              s'.(buffer := buffer, negate := negate,
                 numberFract := fract, numberHex := hex, numberBin := bin, base := base),
              before, d)
  {
  }

  lemma QuoteAlike(s: State, s': State, before: seq<Token>, d: int, ofs: int)
    requires Alike(Default, s, s', before, d)
    ensures Alike(Str, s.(buffer := "", lexStrOfs := Some(ofs)), s'.(buffer := "", lexStrOfs := Some(ofs + d)),
              before, d)
  {
  }

  lemma FailAlike(scope: Scope, s: State, s': State, before: seq<Token>, d: int, e: LexError, ofs: int)
    requires Alike(scope, s, s', before, d)
    ensures SameStep(Fail(s, e, Some(ofs)), Fail(s', e, Some(ofs + d)), before, d)
    ensures scope.Str? ==> SameStep(Fail(s, e, s.lexStrOfs), Fail(s', e, s'.lexStrOfs), before, d)
    ensures e.SecondNamespace? ==> SameStep(Fail(s, e, s.lexStrOfs), Fail(s', e, s'.lexStrOfs), before, d)
  {
  }

  /** A minus of normal mode is a sign on both sides or on none. */
  predicate SignMatch(lang: Lang, s: State, s': State, ch: string) {
    Is(ch, '-') && !lang.simple ==> StartsNegative(s) == StartsNegative(s')
  }

  lemma OperatorAlike(lang: Lang, s: State, s': State, before: seq<Token>, d: int, ch: string, ofs: int)
    requires Alike(Default, s, s', before, d) && SignMatch(lang, s, s', ch)
    requires OperatorCode(ch).Some?
    ensures SameStep(StepOperator(lang, s, ch, ofs), StepOperator(lang, s', ch, ofs + d), before, d)
  {
    assert s.buffer == s'.buffer && s.negate == s'.negate;
    hide Alike, AddToken, StartsNegative;
    if Masked(lang, ch) {
      BufferAlike(Default, WhStr, s, s', before, d, ch);
    } else if Is(ch, '-') && StartsNegative(s) {
      FlagsAlike(Default, s, s', before, d, s.buffer, true, false, false, false, 10);
    } else {
      AddTokenAlike(Default, s, s', before, d, OPERATOR, Operator(OperatorCode(ch).value), ofs, None);
    }
  }

  lemma DefaultAlike(lang: Lang, s: State, s': State, before: seq<Token>, d: int, ch: string, ofs: int)
    requires Alike(Default, s, s', before, d) && SignMatch(lang, s, s', ch)
    ensures SameStep(StepDefault(lang, s, ch, ofs), StepDefault(lang, s', ch, ofs + d), before, d)
  {
    assert s.buffer == s'.buffer && s.negate == s'.negate;
    hide Alike, AddToken, Fail, StartsNegative, StepOperator;
    if IsEnd(ch) {
      FailAlike(Default, s, s', before, d, UnexpectedEnd(s.buffer), ofs);
    } else if IsSymCh(s.buffer, ch, 0) {
      BufferAlike(Default, WhStr, s, s', before, d, ch);
      BufferAlike(Default, Symbol, s, s', before, d, ch);
    } else if IsNum(ch) {
      FlagsAlike(Default, s, s', before, d, s.buffer + ch, s.negate, false, false, false, 10);
    } else if Is(ch, '.') {
      BufferAlike(Default, WhStr, s, s', before, d, ch);
      FlagsAlike(Default, s, s', before, d, s.buffer, s.negate, true, false, false, 10);
    } else if Is(ch, '\"') {
      QuoteAlike(s, s', before, d, ofs);
    } else if IsSpace(ch) {
    } else if OperatorCode(ch).None? {
      FailAlike(Default, s, s', before, d, InvalidToken(ch), ofs);
    } else {
      OperatorAlike(lang, s, s', before, d, ch, ofs);
    }
  }

  lemma BufferAlike(
    scope: Scope, scope': Scope, s: State, s': State, before: seq<Token>, d: int, buffer: string)
    requires Alike(scope, s, s', before, d) && (scope' == scope || (!scope'.Num? && !scope'.Str?))
    ensures Alike(scope', s.(buffer := buffer), s'.(buffer := buffer), before, d)
  {
  }

  lemma NumTokenAlike(lang: Lang, s: State, s': State, before: seq<Token>, d: int, ofs: int)
    requires Alike(Num, s, s', before, d)
    ensures var t, t' := NumToken(lang, s, ofs), NumToken(lang, s', ofs + d);
            && (t.Some? <==> t'.Some?)
            && (t.Some? ==> Alike(Default, t.value, t'.value, before, d) && t.value.tok != [])
            && (t.Some? ==> t.value.lastCh == s.lastCh && t'.value.lastCh == s'.lastCh)
  {
    hide Behind, Shift;
    var num := ToNumber(lang, s.buffer, s.base);
    if num.Some? {
      var value := if s.negate then num.value * -1.0 else num.value;
      AddTokenAlike(Num, s, s', before, d, NUMBER, Number(value), ofs, None);
    } else {
      AddTokenAlike(Num, s, s', before, d, OPERATOR, Operator(OP_SUB), ofs, None);
    }
  }

  predicate SameLast(s: State, s': State) {
    s'.lastCh == s.lastCh
  }

  lemma EndNumAlike(lang: Lang, s: State, s': State, before: seq<Token>, d: int, ch: string, ofs: int)
    requires Alike(Num, s, s', before, d) && SameLast(s, s') && !IsNum(ch)
    ensures SameStep(EndNum(lang, s, ch, ofs), EndNum(lang, s', ch, ofs + d), before, d)
  {
    assert s.buffer == s'.buffer && s.base == s'.base;
    NumTokenAlike(lang, s, s', before, d, ofs);
    hide StepDefault, StartsNegative, NumToken, Fail;
    var t, t' := NumToken(lang, s, ofs), NumToken(lang, s', ofs + d);
    if t.Some? {
      SignsAgree(t.value, t'.value, before, d);
      DefaultAlike(lang, t.value, t'.value, before, d, ch, ofs);
    } else {
      FailAlike(Num, s, s', before, d, BadNumber(s.buffer, s.base), ofs);
    }
  }

  lemma NumAlike(lang: Lang, s: State, s': State, before: seq<Token>, d: int, ch: string, ofs: int)
    requires Alike(Num, s, s', before, d) && SameLast(s, s')
    ensures SameStep(StepNum(lang, s, ch, ofs), StepNum(lang, s', ch, ofs + d), before, d)
  {
    assert s'.numberFract == s.numberFract && s'.numberHex == s.numberHex
        && s'.numberBin == s.numberBin && s'.base == s.base && s'.buffer == s.buffer && s'.negate == s.negate;
    hide Alike, EndNum, Fail;
    if IsNum(ch) {
      BufferAlike(Num, Num, s, s', before, d, s.buffer + ch);
      FailAlike(Num, s, s', before, d, BadBinaryDigit(ch), ofs);
    } else if Is(ch, '.') {
      FlagsAlike(Num, s, s', before, d, s.buffer + ch, s.negate, true, s.numberHex, s.numberBin, s.base);
      FailAlike(Num, s, s', before, d, MultipleRadix, ofs);
    } else if Is(ch, 'b') && !s.numberHex {
      FlagsAlike(Num, s, s', before, d, s.buffer, s.negate, s.numberFract, s.numberHex, true, 2);
      FailAlike(Num, s, s', before, d, BadBinary, ofs);
    } else if Is(ch, 'x') {
      FlagsAlike(Num, s, s', before, d, s.buffer, s.negate, s.numberFract, true, s.numberBin, 16);
      FailAlike(Num, s, s', before, d, BadHex, ofs);
    } else if First(ch) != '\0' && s.numberHex && 'a' <= LowerChar(First(ch)) <= 'f' {
      BufferAlike(Num, Num, s, s', before, d, s.buffer + ch);
    } else {
      EndNumAlike(lang, s, s', before, d, ch, ofs);
    }
  }

  lemma SymbolTokenAlike(s: State, s': State, before: seq<Token>, d: int, ofs: int)
    requires Alike(Symbol, s, s', before, d)
    ensures var t := SymbolToken(s, ofs).(buffer := "", gotAddr := None);
            var t' := SymbolToken(s', ofs + d).(buffer := "", gotAddr := None);
            && Alike(Default, t, t', before, d) && t.tok != []
            && t.lastCh == s.lastCh && t'.lastCh == s'.lastCh
  {
    assert s.buffer == s'.buffer && s.gotAddr == s'.gotAddr;
    hide WordOf;
    var w := WordOf(s.buffer, s.gotAddr);
    var t, t' := SymbolToken(s, ofs), SymbolToken(s', ofs + d);
    AddTokenAlike(Symbol, s, s', before, d, w.kind, w.value, ofs, w.data);
    ClearAlike(Symbol, t, t', before, d);
    hide Alike;
  }

  lemma SymbolAlike(lang: Lang, s: State, s': State, before: seq<Token>, d: int, ch: string, ofs: int)
    requires Alike(Symbol, s, s', before, d) && SameLast(s, s')
    ensures SameStep(StepSymbol(lang, s, ch, ofs), StepSymbol(lang, s', ch, ofs + d), before, d)
  {
    assert s.buffer == s'.buffer && s.gotAddr == s'.gotAddr
        && s.inEscape == s'.inEscape && s.whstrEscape == s'.whstrEscape;
    SymbolTokenAlike(s, s', before, d, ofs);
    var t := SymbolToken(s, ofs).(buffer := "", gotAddr := None);
    var t' := SymbolToken(s', ofs + d).(buffer := "", gotAddr := None);
    assert Behind(t.tok, t'.tok, before, d);
    hide Alike, StepDefault, SymbolToken, StartsNegative, AddToken, Fail;
    if Is(ch, '(') && |s.buffer| > 0 {
      var word := Text(Lower(s.buffer));
      AddTokenAlike(Symbol, s, s', before, d, FCALL, word, ofs, s.gotAddr);
      ClearAlike(Symbol, AddToken(s, FCALL, word, ofs, s.gotAddr), AddToken(s', FCALL, word, ofs + d, s.gotAddr),
        before, d);
    } else if IsSymCh(s.buffer, ch, |s.buffer|) {
      EditAlike(Symbol, Symbol, s, s', before, d, "", s.inEscape, s.whstrEscape, Some(Lower(s.buffer)));
      BufferAlike(Symbol, Symbol, s, s', before, d, s.buffer + ch);
      FailAlike(Symbol, s, s', before, d, SecondNamespace, ofs);
    } else {
      SignsAgree(t, t', before, d);
      DefaultAlike(lang, t, t', before, d, ch, ofs);
    }
  }

  lemma ClearAlike(scope: Scope, s: State, s': State, before: seq<Token>, d: int)
    requires Alike(scope, s, s', before, d)
    ensures Alike(Default, s.(buffer := "", gotAddr := None), s'.(buffer := "", gotAddr := None), before, d)
  {
  }

  lemma EscapeAlike(s: State, s': State, before: seq<Token>, d: int)
    requires Alike(WhStr, s, s', before, d)
    ensures Alike(Default, s.(whstrEscape := false), s'.(whstrEscape := false), before, d)
  {
  }

  /** The end of a word: its token, and the token of the operator that ended it. */
  lemma WordAlike(s: State, s': State, before: seq<Token>, d: int, op: nat, ofs: int)
    requires Alike(WhStr, s, s', before, d)
    ensures var t := AddToken(s, STRING, Text(s.buffer), ofs, None);
            var t' := AddToken(s', STRING, Text(s'.buffer), ofs + d, None);
            var u, u' := t.(buffer := ""), t'.(buffer := "");
            && Alike(Default, t.(whstrEscape := false), t'.(whstrEscape := false), before, d)
            && Alike(Default, u, u', before, d)
            && Alike(Default, AddToken(u, OPERATOR, Operator(op), ofs, None),
                 AddToken(u', OPERATOR, Operator(op), ofs + d, None), before, d)
  {
    assert s.buffer == s'.buffer;
    var t, t' := AddToken(s, STRING, Text(s.buffer), ofs, None), AddToken(s', STRING, Text(s.buffer), ofs + d, None);
    AddTokenAlike(WhStr, s, s', before, d, STRING, Text(s.buffer), ofs, None);
    hide Alike, AddToken;
    EscapeAlike(t, t', before, d);
    BufferAlike(WhStr, Default, t, t', before, d, "");
    AddTokenAlike(Default, t.(buffer := ""), t'.(buffer := ""), before, d, OPERATOR, Operator(op), ofs, None);
  }

  /** The character ends the word. */
  predicate EndsWord(lang: Lang, s: State, ch: string) {
    IsEnd(ch) || (!s.whstrEscape && (IsSpace(ch) || Is(ch, '\"') || (OperatorCode(ch).Some? && !Masked(lang, ch))))
  }

  lemma SameWord(s: State, s': State, before: seq<Token>, d: int)
    requires Alike(WhStr, s, s', before, d)
    ensures s.buffer == s'.buffer && s.whstrEscape == s'.whstrEscape
  {
  }

  lemma WordEndAlike(lang: Lang, s: State, s': State, before: seq<Token>, d: int, ch: string, ofs: int)
    requires Alike(WhStr, s, s', before, d) && EndsWord(lang, s, ch)
    ensures SameStep(StepWhStr(lang, s, ch, ofs), StepWhStr(lang, s', ch, ofs + d), before, d)
  {
    hide Alike, AddToken, OperatorCode, Masked, Is, IsSpace, IsEnd;
    SameWord(s, s', before, d);
    if IsEnd(ch) {
      WordAlike(s, s', before, d, OP_SUB, ofs);
      EscapeAlike(s, s', before, d);
    } else if IsSpace(ch) || Is(ch, '\"') {
      WordAlike(s, s', before, d, OP_SUB, ofs);
    } else {
      WordAlike(s, s', before, d, OperatorCode(ch).value, ofs);
    }
  }

  lemma WhStrAlike(lang: Lang, s: State, s': State, before: seq<Token>, d: int, ch: string, ofs: int)
    requires Alike(WhStr, s, s', before, d)
    ensures SameStep(StepWhStr(lang, s, ch, ofs), StepWhStr(lang, s', ch, ofs + d), before, d)
  {
    if EndsWord(lang, s, ch) {
      WordEndAlike(lang, s, s', before, d, ch, ofs);
    } else {
      assert s.buffer == s'.buffer && s.whstrEscape == s'.whstrEscape;
      assert s.inEscape == s'.inEscape && s.gotAddr == s'.gotAddr;
      EditAlike(WhStr, WhStr, s, s', before, d, s.buffer + ch, s.inEscape, false, s.gotAddr);
      EditAlike(WhStr, WhStr, s, s', before, d, s.buffer, s.inEscape, true, s.gotAddr);
      BufferAlike(WhStr, WhStr, s, s', before, d, s.buffer + ch);
      hide Alike, AddToken, OperatorCode;
    }
  }

  lemma StrAlike(s: State, s': State, before: seq<Token>, d: int, ch: string, ofs: int)
    requires Alike(Str, s, s', before, d)
    ensures SameStep(StepStr(s, ch, ofs), StepStr(s', ch, ofs + d), before, d)
  {
    assert s.buffer == s'.buffer && s.whstrEscape == s'.whstrEscape;
    assert s.inEscape == s'.inEscape && s.gotAddr == s'.gotAddr;
    hide Alike, AddToken, Fail;
    if IsEnd(ch) {
      FailAlike(Str, s, s', before, d, Unterminated, ofs);
    } else if s.inEscape {
      EditAlike(Str, Str, s, s', before, d, s.buffer + ch, false, s.whstrEscape, s.gotAddr);
    } else if Is(ch, '\"') {
      AddTokenAlike(Str, s, s', before, d, STRING, Text(s.buffer), ofs, None);
      BufferAlike(Str, Default, AddToken(s, STRING, Text(s.buffer), ofs, None),
        AddToken(s', STRING, Text(s.buffer), ofs + d, None), before, d, "");
    } else if Is(ch, '\\') {
      EditAlike(Str, Str, s, s', before, d, s.buffer, true, s.whstrEscape, s.gotAddr);
    } else {
      BufferAlike(Str, Str, s, s', before, d, s.buffer + ch);
    }
  }

  /** Alike states take alike steps. */
  lemma StepAlike(lang: Lang, scope: Scope, s: State, s': State, before: seq<Token>, d: int, ch: string, ofs: int)
    requires Alike(scope, s, s', before, d) && (scope.Default? ==> SignMatch(lang, s, s', ch))
    requires scope.Num? || scope.Symbol? ==> SameLast(s, s')
    ensures SameStep(StepIn(lang, scope, s, ch, ofs), StepIn(lang, scope, s', ch, ofs + d), before, d)
  {
    hide StepDefault, StepWhStr, StepNum, StepSymbol, StepStr, Alike, StartsNegative, AddToken;
    match scope
    case Default => DefaultAlike(lang, s, s', before, d, ch, ofs);
    case WhStr => WhStrAlike(lang, s, s', before, d, ch, ofs);
    case Num => NumAlike(lang, s, s', before, d, ch, ofs);
    case Symbol => SymbolAlike(lang, s, s', before, d, ch, ofs);
    case Str => StrAlike(s, s', before, d, ch, ofs);
    case Err =>
  }

  // ------------------------------------------------------------------ runs behind a prefix

  /** `c'` is `c`, moved behind the tokens `before` and `d` bytes down the message.  The last chunk is the same on both
      sides, unless the message of `c` has only begun. */
  predicate Trails(c: Config, c': Config, before: seq<Token>, d: int) {
    && c'.scope == c.scope && c'.ofs == c.ofs + d
    && Alike(c.scope, c.s, c'.s, before, d)
    && (SameLast(c.s, c'.s) || (c.scope.Default? && c.s.tok == [] && c.s.lastCh.None?))
  }

  /** And something visible has been read of it, so that a minus would be a sign in both or in none. */
  predicate Follows(c: Config, c': Config, before: seq<Token>, d: int) {
    Trails(c, c', before, d) && SameLast(c.s, c'.s) && (c.scope.Default? ==> c.s.tok != [])
  }

  lemma DefaultEmits(lang: Lang, s: State, ch: string, ofs: int)
    requires s.tok != [] || (!IsSpace(ch) && !IsEnd(ch))
    ensures var n := StepDefault(lang, s, ch, ofs); n.scope.Default? ==> n.s.tok != []
  {
    hide OperatorCode, StepNum, StepOperator, IsSymCh, IsNum, Is, IsEnd, IsSpace, FreshNumber;
    if IsEnd(ch) {
    } else if IsNum(ch) {
      DigitStays(lang, FreshNumber(s, false), ch, ofs);
    } else if OperatorCode(ch).Some? {
      OperatorEmits(lang, s, ch, ofs);
    }
  }

  lemma OperatorEmits(lang: Lang, s: State, ch: string, ofs: int)
    requires OperatorCode(ch).Some?
    ensures var n := StepOperator(lang, s, ch, ofs); n.scope.Default? ==> n.s.tok != []
  {
  }

  lemma EndNumEmits(lang: Lang, s: State, ch: string, ofs: int)
    requires !IsNum(ch)
    ensures var n := EndNum(lang, s, ch, ofs); n.scope.Default? ==> n.s.tok != []
  {
    var t := NumToken(lang, s, ofs);
    assert t.Some? ==> t.value.tok != [];
    hide StepDefault, NumToken;
    if t.Some? {
      DefaultEmits(lang, t.value, ch, ofs);
    }
  }

  /** Every return to the default state has left a token behind, except over white space. */
  lemma StepEmits(lang: Lang, scope: Scope, s: State, ch: string, ofs: int)
    requires !IsEnd(ch) && (scope.Default? ==> s.tok != [] || !IsSpace(ch))
    ensures var n := StepIn(lang, scope, s, ch, ofs); n.scope.Default? ==> n.s.tok != []
  {
    match scope
    case Default => DefaultEmits(lang, s, ch, ofs);
    case Num =>
      if !IsNum(ch) {
        EndNumEmits(lang, s, ch, ofs);
      }
      hide EndNum;
    case Symbol =>
      hide StepDefault;
      DefaultEmits(lang, SymbolToken(s, ofs).(buffer := "", gotAddr := None), ch, ofs);
    case _ =>
  }

  lemma AdvanceFollows(lang: Lang, c: Config, c': Config, before: seq<Token>, d: int, ch: string)
    requires Follows(c, c', before, d) && !IsEnd(ch)
    ensures Follows(Advance(lang, c, ch), Advance(lang, c', ch), before, d)
  {
    if c.scope.Default? {
      SignsAgree(c.s, c'.s, before, d);
    }
    AdvanceTrails(lang, c, c', before, d, ch);
  }

  /** Behind something visible the states follow each other again. */
  lemma AdvanceTrails(lang: Lang, c: Config, c': Config, before: seq<Token>, d: int, ch: string)
    requires Trails(c, c', before, d) && !IsEnd(ch)
    requires c.scope.Default? ==> SignMatch(lang, c.s, c'.s, ch) && (c.s.tok == [] ==> !IsSpace(ch))
    ensures Follows(Advance(lang, c, ch), Advance(lang, c', ch), before, d)
  {
    StepAlike(lang, c.scope, c.s, c'.s, before, d, ch, c.ofs);
    StepEmits(lang, c.scope, c.s, ch, c.ofs);
    var n, n' := StepIn(lang, c.scope, c.s, ch, c.ofs), StepIn(lang, c.scope, c'.s, ch, c.ofs + d);
    hide StepIn;
    LastChAlike(n.scope, n.s, n'.s, before, d, Some(ch));
  }

  lemma LastChAlike(scope: Scope, s: State, s': State, before: seq<Token>, d: int, last: Option<string>)
    requires Alike(scope, s, s', before, d)
    ensures Alike(scope, s.(lastCh := last), s'.(lastCh := last), before, d)
  {
  }

  lemma {:induction false} FeedFollows(
    lang: Lang, c: Config, c': Config, before: seq<Token>, d: int, chunks: seq<string>)
    requires Follows(c, c', before, d) && Proper(chunks)
    ensures Follows(Feed(lang, c, chunks), Feed(lang, c', chunks), before, d)
    decreases |chunks|
  {
    assert c'.s.error == c.s.error;
    if chunks != [] && c.s.error.None? {
      AdvanceFollows(lang, c, c', before, d, chunks[0]);
      hide Follows, Advance;
      FeedFollows(lang, Advance(lang, c, chunks[0]), Advance(lang, c', chunks[0]), before, d, chunks[1..]);
    }
  }

  lemma FinishFollows(lang: Lang, c: Config, c': Config, before: seq<Token>, d: int)
    requires Trails(c, c', before, d)
    ensures var t, t' := Finish(lang, c), Finish(lang, c'); Behind(t.tok, t'.tok, before, d) && t'.error == t.error
  {
    StepAlike(lang, c.scope, c.s, c'.s, before, d, "\0", c.ofs);
    hide StepIn;
  }

  lemma {:induction false} FeedSplit(lang: Lang, c: Config, a: seq<string>, b: seq<string>)
    ensures Feed(lang, c, a + b) == Feed(lang, Feed(lang, c, a), b)
    decreases |a|
  {
    hide Advance;
    if a == [] {
      assert a + b == b;
    } else if c.s.error.None? {
      assert (a + b)[1..] == a[1..] + b;
      FeedSplit(lang, Advance(lang, c, a[0]), a[1..], b);
    }
  }

  lemma {:induction false} FeedOffset(lang: Lang, c: Config, chunks: seq<string>)
    requires Feed(lang, c, chunks).s.error.None?
    ensures Feed(lang, c, chunks).ofs == c.ofs + |Flatten(chunks)|
    decreases |chunks|
  {
    hide StepIn;
    if chunks != [] && c.s.error.None? {
      FeedOffset(lang, Advance(lang, c, chunks[0]), chunks[1..]);
    }
  }

  lemma BlankAndEndStay(lang: Lang, s: State, ofs: int)
    requires |s.buffer| == 0
    ensures StepDefault(lang, s, " ", ofs) == Next(Default, s) == StepDefault(lang, s, "\0", ofs)
  {
  }

  // ------------------------------------------------------------------ what separates

  predicate IsBlank(c: char) {
    c == ' ' || c == '\t' || c == '\n'
  }

  /** Blanks and operators, but for the operators that simple mode reads as parts of strings. */
  predicate Divides(lang: Lang, g: char) {
    IsBlank(g) || (OperatorCode([g]).Some? && !Masked(lang, [g]))
  }

  /** The token of the separator itself. */
  function Mark(g: char, ofs: int): (r: seq<Token>)
    ensures |r| <= 1
  {
    if OperatorCode([g]).None? then [] else [Token(OPERATOR, Operator(OperatorCode([g]).value), ofs, None)]
  }

  /** A minus of normal mode would be a sign behind these tokens and this last chunk. */
  predicate SignHere(lang: Lang, tok: seq<Token>, last: Option<string>) {
    !lang.simple && (last.None? || last.value == " " || (tok != [] && tok[|tok| - 1].kind.OPERATOR?))
  }

  /** The separator is nothing else than that: the parenthesis does not make a call of a name, nor is the minus a
      sign. */
  predicate Separates(lang: Lang, scope: Scope, s: State, tok: seq<Token>, g: char) {
    (g == '(' ==> !scope.Symbol? || s.buffer == "") && (g == '-' ==> !SignHere(lang, tok, s.lastCh))
  }

  lemma SeparatorChunk(lang: Lang, g: char)
    requires Divides(lang, g)
    ensures !IsEnd([g]) && !IsNum([g]) && !Is([g], '.') && !Is([g], 'b') && !Is([g], 'x') && !Is([g], '\"')
    ensures !('a' <= LowerChar(First([g])) <= 'f') && !Continues(g) && g != '\0'
    ensures forall buffer, ofs: nat :: !Is(buffer, '$') ==> !IsSymCh(buffer, [g], ofs)
    ensures IsSpace([g]) <==> IsBlank(g)
  {
  }

  lemma DefaultSeparated(lang: Lang, s: State, g: char, ofs: int)
    requires Divides(lang, g) && s.buffer == "" && (g == '-' ==> !SignHere(lang, s.tok, s.lastCh))
    ensures StepDefault(lang, s, [g], ofs) == Next(Default, s.(tok := s.tok + Mark(g, ofs)))
    ensures StepDefault(lang, s, "\0", ofs) == Next(Default, s)
  {
    SeparatorChunk(lang, g);
    assert s.tok + [] == s.tok && s.(tok := s.tok) == s;
    hide IsSpace, IsNum, IsSymCh, Is, IsEnd;
    EndInDefault(lang, s, ofs);
    if !IsBlank(g) {
      OperatorSeparated(lang, s, g, ofs);
    }
  }

  lemma EndInDefault(lang: Lang, s: State, ofs: int)
    requires s.buffer == ""
    ensures StepDefault(lang, s, "\0", ofs) == Next(Default, s)
  {
  }

  lemma OperatorSeparated(lang: Lang, s: State, g: char, ofs: int)
    requires OperatorCode([g]).Some? && !Masked(lang, [g]) && !IsBlank(g)
    requires g == '-' ==> !SignHere(lang, s.tok, s.lastCh)
    ensures StepOperator(lang, s, [g], ofs) == Next(Default, s.(tok := s.tok + Mark(g, ofs)))
  {
  }

  /** The first byte of a symbol is a letter. */
  predicate NameLike(scope: Scope, s: State) {
    scope.Symbol? && s.buffer != "" ==> IsAlpha(s.buffer)
  }

  /** Away from a pending escape, a separator ends what the end of the message would end, and leaves its own
      token. */
  lemma SeparatorLikeEnd(lang: Lang, scope: Scope, s: State, g: char, ofs: int)
    requires Tidy(scope, s) && NameLike(scope, s) && !s.whstrEscape && Divides(lang, g)
    requires StepIn(lang, scope, s, "\0", ofs).s.error.None?
    requires Separates(lang, scope, s, StepIn(lang, scope, s, "\0", ofs).s.tok, g)
    ensures var n := StepIn(lang, scope, s, [g], ofs);
            && n.scope.Default? && n.s.error.None?
            && n.s.tok == StepIn(lang, scope, s, "\0", ofs).s.tok + Mark(g, ofs)
  {
    match scope
    case Default => DefaultSeparated(lang, s, g, ofs);
    case WhStr => WordSeparated(lang, s, g, ofs);
    case Num => NumSeparated(lang, s, g, ofs);
    case Symbol => SymbolSeparated(lang, s, g, ofs);
    case Str =>
    case Err =>
  }

  lemma WordSeparated(lang: Lang, s: State, g: char, ofs: int)
    requires Tidy(WhStr, s) && !s.whstrEscape && Divides(lang, g)
    ensures var n := StepWhStr(lang, s, [g], ofs);
            && n.scope.Default? && n.s.error.None?
            && n.s.tok == StepWhStr(lang, s, "\0", ofs).s.tok + Mark(g, ofs)
  {
    SeparatorChunk(lang, g);
    hide IsSpace, Masked, OperatorCode;
  }

  lemma NumSeparated(lang: Lang, s: State, g: char, ofs: int)
    requires Tidy(Num, s) && Divides(lang, g) && StepNum(lang, s, "\0", ofs).s.error.None?
    requires Separates(lang, Num, s, StepNum(lang, s, "\0", ofs).s.tok, g)
    ensures var n := StepNum(lang, s, [g], ofs);
            && n.scope.Default? && n.s.error.None? && n.s.tok == StepNum(lang, s, "\0", ofs).s.tok + Mark(g, ofs)
  {
    hide NumToken, AddToken, StepDefault, StepNum, Masked, OperatorCode, SignHere;
    var t := NumToken(lang, s, ofs);
    NumTokenShape(lang, s, ofs);
    NumberEnds(lang, s, g, ofs);
    if t.Some? {
      EndInDefault(lang, t.value, ofs);
      DefaultSeparated(lang, t.value, g, ofs);
    }
  }

  lemma NumTokenShape(lang: Lang, s: State, ofs: int)
    requires Tidy(Num, s)
    ensures var t := NumToken(lang, s, ofs);
            t.Some? ==> t.value.buffer == "" && t.value.error.None? && t.value.lastCh == s.lastCh
  {
  }

  lemma NumberEnds(lang: Lang, s: State, g: char, ofs: int)
    requires Divides(lang, g)
    ensures !IsNum([g]) && StepNum(lang, s, [g], ofs) == EndNum(lang, s, [g], ofs)
    ensures StepNum(lang, s, "\0", ofs) == EndNum(lang, s, "\0", ofs)
  {
    SeparatorChunk(lang, g);
    hide EndNum;
  }

  lemma SymbolSeparated(lang: Lang, s: State, g: char, ofs: int)
    requires Tidy(Symbol, s) && NameLike(Symbol, s) && Divides(lang, g)
    requires Separates(lang, Symbol, s, StepSymbol(lang, s, "\0", ofs).s.tok, g)
    ensures var n := StepSymbol(lang, s, [g], ofs);
            && n.scope.Default? && n.s.error.None? && n.s.tok == StepSymbol(lang, s, "\0", ofs).s.tok + Mark(g, ofs)
  {
    SeparatorChunk(lang, g);
    var t := SymbolToken(s, ofs).(buffer := "", gotAddr := None);
    assert !IsSymCh(s.buffer, "\0", |s.buffer|) && !Is("\0", '(');
    assert t.error.None? && t.lastCh == s.lastCh;
    hide StepDefault, IsSymCh, SymbolToken;
    EndInDefault(lang, t, ofs);
    DefaultSeparated(lang, t, g, ofs);
  }

  predicate StartsSequence(msg: string) {
    msg == "" || !Continues(msg[0])
  }

  /** The message breaks off right behind a backslash that would take the next chunk literally. */
  predicate PendingEscape(lang: Lang, msg: string) {
    Feed(lang, BEGIN, Chunks(msg)).s.whstrEscape
  }

  lemma TokenizeIsFeed(lang: Lang, msg: string)
    requires StartsSequence(msg)
    ensures var t, u := Tokenize(lang, msg), Finish(lang, Feed(lang, BEGIN, Chunks(msg)));
            t.tok == u.tok && t.error == u.error
  {
  }

  /** The separator behind `a` is nothing else than that. */
  predicate Acts(lang: Lang, a: string, g: char) {
    var c := Feed(lang, BEGIN, Chunks(a));
    Separates(lang, c.scope, c.s, Tokenize(lang, a).tok, g)
  }

  lemma PrefixSeparated(lang: Lang, a: string, g: char)
    requires Plain(a) && StartsSequence(a) && Tokenize(lang, a).error.None? && !PendingEscape(lang, a)
    requires Divides(lang, g) && Acts(lang, a, g)
    ensures var d := Advance(lang, Feed(lang, BEGIN, Chunks(a)), [g]);
            && d.scope.Default? && Tidy(d.scope, d.s) && d.s.tok == Tokenize(lang, a).tok + Mark(g, |a| + 1)
            && d.s.lastCh == Some([g]) && d.ofs == |a| + 2
            && Feed(lang, BEGIN, Chunks(a)).s.error.None?
  {
    var c := Feed(lang, BEGIN, Chunks(a));
    TokenizeIsFeed(lang, a);
    ChunksProper(a);
    FeedTidy(lang, BEGIN, Chunks(a));
    FeedNames(lang, BEGIN, Chunks(a));
    assert c.s.error.None?;
    SeparatorChunk(lang, g);
    FeedOffset(lang, BEGIN, Chunks(a));
    ChunksCover(a);
    hide StepIn, Separates;
    SeparatorLikeEnd(lang, c.scope, c.s, g, c.ofs);
    StepTidy(lang, c.scope, c.s, [g], c.ofs);
    LastChTidy(lang, c, [g]);
  }

  lemma BlankActs(lang: Lang, a: string, g: char)
    requires IsBlank(g)
    ensures Divides(lang, g) && Acts(lang, a, g)
  {
  }

  lemma DefaultNames(lang: Lang, s: State, ch: string, ofs: int)
    requires s.buffer == ""
    ensures var n := StepDefault(lang, s, ch, ofs); NameLike(n.scope, n.s)
  {
    hide OperatorCode, StepOperator, StepNum, IsSpace, IsNum, Is, IsEnd, FreshNumber, IsSymCh, IsAlpha;
    SymbolBegins(s.buffer, ch);
    if IsNum(ch) {
      DigitStays(lang, FreshNumber(s, false), ch, ofs);
    } else if OperatorCode(ch).Some? {
      OperatorScope(lang, s, ch, ofs);
    }
  }

  lemma SymbolBegins(buffer: string, ch: string)
    requires buffer == ""
    ensures IsSymCh(buffer, ch, 0) ==> IsAlpha(ch)
  {
  }

  lemma OperatorScope(lang: Lang, s: State, ch: string, ofs: int)
    requires OperatorCode(ch).Some?
    ensures !StepOperator(lang, s, ch, ofs).scope.Symbol?
  {
  }

  lemma EndNumNames(lang: Lang, s: State, ch: string, ofs: int)
    requires Tidy(Num, s) && !IsNum(ch)
    ensures var n := EndNum(lang, s, ch, ofs); NameLike(n.scope, n.s)
  {
    hide StepDefault, NumToken;
    NumTokenShape(lang, s, ofs);
    if NumToken(lang, s, ofs).Some? {
      DefaultNames(lang, NumToken(lang, s, ofs).value, ch, ofs);
    }
  }

  lemma StepNames(lang: Lang, scope: Scope, s: State, ch: string, ofs: int)
    requires Tidy(scope, s) && NameLike(scope, s)
    ensures var n := StepIn(lang, scope, s, ch, ofs); NameLike(n.scope, n.s)
  {
    match scope
    case Default => DefaultNames(lang, s, ch, ofs);
    case Num =>
      hide EndNum;
      if !IsNum(ch) {
        EndNumNames(lang, s, ch, ofs);
      }
    case Symbol =>
      hide StepDefault;
      DefaultNames(lang, SymbolToken(s, ofs).(buffer := "", gotAddr := None), ch, ofs);
    case _ =>
  }

  lemma {:induction false} FeedNames(lang: Lang, c: Config, chunks: seq<string>)
    requires Tidy(c.scope, c.s) && NameLike(c.scope, c.s) && Proper(chunks)
    ensures NameLike(Feed(lang, c, chunks).scope, Feed(lang, c, chunks).s)
    decreases |chunks|
  {
    hide StepIn, Tidy;
    if chunks != [] && c.s.error.None? {
      StepNames(lang, c.scope, c.s, chunks[0], c.ofs);
      StepTidy(lang, c.scope, c.s, chunks[0], c.ofs);
      LastChTidy(lang, c, chunks[0]);
      FeedNames(lang, Advance(lang, c, chunks[0]), chunks[1..]);
    }
  }

  lemma WholeChunks(a: string, g: char, b: string)
    requires StartsSequence(a) && StartsSequence(b) && !Continues(g)
    ensures Chunks(a + [g] + b) == Chunks(a) + ([[g]] + Chunks(b))
    ensures a + [g] + b != "" && !Continues((a + [g] + b)[0])
  {
    hide Chunks;
    ChunksAppend([g], b);
    ChunksAppend(a, [g] + b);
    assert a + [g] + b == a + ([g] + b);
    SingleChunk([g]);
  }
}
