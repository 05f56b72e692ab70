/** The lexer in the form of `lua/examples/lash.lua`: state functions that update one state table and a
    driver loop that walks the message with `utf8_step`.
    Each method is proved against the function of module Lexer that says what it does; what the lexer
    promises is proved about those functions, in modules LexerProofs, Quoting and Sentences. */
module Tokenizer {
  import opened Common
  import opened Utf8Step
  import opened Lexer

  class LexState {
    const lang: Lang
    var buffer: string
    var negate: bool
    var numberFract: bool
    var numberHex: bool
    var numberBin: bool
    var base: nat
    var lexStrOfs: Option<int>
    var inEscape: bool
    var whstrEscape: bool
    var gotAddr: Option<string>
    var lastCh: Option<string>
    var error: Option<LexError>
    var errorOfs: Option<int>
    var tok: seq<Token>

    function View(): State
      reads this
    {
      State(buffer, negate, numberFract, numberHex, numberBin, base,
        lexStrOfs, inEscape, whstrEscape, gotAddr, lastCh, error, errorOfs, tok)
    }

    constructor (lang: Lang)
      ensures this.lang == lang && View() == START
    {
      this.lang := lang;
      buffer, negate, numberFract, numberHex, numberBin, base := "", false, false, false, false, 10;
      lexStrOfs, inEscape, whstrEscape, gotAddr, lastCh := None, false, false, None, None;
      error, errorOfs, tok := None, None, [];
    }

    method Emit(kind: Kind, value: Value, ofs: int, data: Option<string>)
      modifies `tok
      ensures View() == AddToken(old(View()), kind, value, ofs, data)
    {
      tok := tok + [Token(kind, value, ofs, data)];
    }

    method Raise(e: LexError, ofs: Option<int>) returns (scope: Scope)
      modifies `error, `errorOfs
      ensures Next(scope, View()) == Fail(old(View()), e, ofs)
    {
      error, errorOfs := Some(e), ofs;
      return Err;
    }

    method ResetNumber(fract: bool)
      modifies `numberFract, `numberHex, `numberBin, `base
      ensures View() == FreshNumber(old(View()), fract)
    {
      numberFract, numberHex, numberBin, base := fract, false, false, 10;
    }

    method LexOperator(ch: string, ofs: int) returns (scope: Scope)
      requires OperatorCode(ch).Some?
      modifies this
      ensures Next(scope, View()) == StepOperator(lang, old(View()), ch, ofs)
    {
      if Masked(lang, ch) {
        buffer := ch;
        return WhStr;
      }
      if Is(ch, '-') && StartsNegative(View()) {
        negate := true;
        ResetNumber(false);
        return Num;
      }
      Emit(OPERATOR, Operator(OperatorCode(ch).value), ofs, None);
      return Default;
    }

    method LexDefault(ch: string, ofs: int) returns (scope: Scope)
      modifies this
      ensures Next(scope, View()) == StepDefault(lang, old(View()), ch, ofs)
      decreases 1
    {
      if IsEnd(ch) {
        if |buffer| > 0 {
          scope := Raise(UnexpectedEnd(buffer), Some(ofs));
          return;
        }
        return Default;
      }
      if IsSymCh(buffer, ch, 0) {
        buffer := ch;
        return if lang.simple then WhStr else Symbol;
      } else if IsNum(ch) {
        ResetNumber(false);
        scope := LexNum(ch, ofs);
      } else if Is(ch, '.') {
        if lang.simple {
          buffer := ch;
          return WhStr;
        }
        ResetNumber(true);
        return Num;
      } else if Is(ch, '\"') {
        buffer, lexStrOfs := "", Some(ofs);
        return Str;
      } else if IsSpace(ch) {
        return Default;
      } else if OperatorCode(ch).Some? {
        scope := LexOperator(ch, ofs);
      } else {
        scope := Raise(InvalidToken(ch), Some(ofs));
      }
    }

    method LexWhStr(ch: string, ofs: int) returns (scope: Scope)
      modifies this
      ensures Next(scope, View()) == StepWhStr(lang, old(View()), ch, ofs)
    {
      if IsEnd(ch) {
        if |buffer| > 0 {
          Emit(STRING, Text(buffer), ofs, None);
        }
        whstrEscape := false;
        return Default;
      }
      if whstrEscape {
        whstrEscape, buffer := false, buffer + ch;
        return WhStr;
      }
      if IsSpace(ch) || Is(ch, '\"') {
        Emit(STRING, Text(buffer), ofs, None);
        buffer := "";
        return Default;
      } else if OperatorCode(ch).Some? && !Masked(lang, ch) {
        Emit(STRING, Text(buffer), ofs, None);
        buffer := "";
        Emit(OPERATOR, Operator(OperatorCode(ch).value), ofs, None);
        return Default;
      } else if Is(ch, '\\') {
        whstrEscape := true;
      } else {
        buffer := buffer + ch;
      }
      return WhStr;
    }

    /** The end of a number: the conversion, then `ch` again from the default state. */
    method LexNumEnd(ch: string, ofs: int) returns (scope: Scope)
      requires !IsNum(ch)
      modifies this
      ensures Next(scope, View()) == EndNum(lang, old(View()), ch, ofs)
      decreases 2
    {
      var num := ToNumber(lang, buffer, base);
      if num.None? {
        if negate && |buffer| == 0 {
          negate := false;
          Emit(OPERATOR, Operator(OP_SUB), ofs, None);
          scope := LexDefault(ch, ofs);
          return;
        }
        scope := Raise(BadNumber(buffer, base), Some(ofs));
        return;
      }
      var value := num.value;
      if negate {
        value := value * -1.0;
        negate := false;
      }
      Emit(NUMBER, Number(value), ofs, None);
      buffer := "";
      scope := LexDefault(ch, ofs);
    }

    method LexNum(ch: string, ofs: int) returns (scope: Scope)
      modifies this
      ensures Next(scope, View()) == StepNum(lang, old(View()), ch, ofs)
      decreases if IsNum(ch) then 0 else 3
    {
      if IsNum(ch) {
        if numberBin && !Is(ch, '0') && !Is(ch, '1') {
          scope := Raise(BadBinaryDigit(ch), Some(ofs));
          return;
        }
        buffer := buffer + ch;
        return Num;
      }
      if Is(ch, '.') {
        if numberFract {
          scope := Raise(MultipleRadix, Some(ofs));
          return;
        }
        numberFract, buffer := true, buffer + ch;
        return Num;
      } else if Is(ch, 'b') && !numberHex {
        if numberBin || !Is(buffer, '0') {
          scope := Raise(BadBinary, Some(ofs));
          return;
        }
        numberBin, base := true, 2;
        return Num;
      } else if Is(ch, 'x') {
        if numberHex || !Is(buffer, '0') {
          scope := Raise(BadHex, Some(ofs));
          return;
        }
        numberHex, base := true, 16;
        return Num;
      } else if First(ch) != '\0' && numberHex && 'a' <= LowerChar(First(ch)) <= 'f' {
        buffer := buffer + ch;
        return Num;
      }
      scope := LexNumEnd(ch, ofs);
    }

    method LexSymbol(ch: string, ofs: int) returns (scope: Scope)
      modifies this
      ensures Next(scope, View()) == StepSymbol(lang, old(View()), ch, ofs)
    {
      if Is(ch, '(') && |buffer| > 0 {
        Emit(FCALL, Text(Lower(buffer)), ofs, gotAddr);
        buffer, gotAddr := "", None;
        return Default;
      } else if IsSymCh(buffer, ch, |buffer|) {
        if Is(ch, '.') {
          if gotAddr.Some? {
            scope := Raise(SecondNamespace, lexStrOfs);
            return;
          }
          gotAddr, buffer := Some(Lower(buffer)), "";
          return Symbol;
        }
        buffer := buffer + ch;
        return Symbol;
      }
      var w := WordOf(buffer, gotAddr);
      Emit(w.kind, w.value, ofs, w.data);
      buffer, gotAddr := "", None;
      scope := LexDefault(ch, ofs);
    }

    method LexStr(ch: string, ofs: int) returns (scope: Scope)
      modifies this
      ensures Next(scope, View()) == StepStr(old(View()), ch, ofs)
    {
      if IsEnd(ch) {
        scope := Raise(Unterminated, lexStrOfs);
        return;
      }
      if inEscape {
        buffer, inEscape := buffer + ch, false;
      } else if Is(ch, '\"') {
        Emit(STRING, Text(buffer), ofs, None);
        buffer := "";
        return Default;
      } else if Is(ch, '\\') {
        inEscape := true;
      } else {
        buffer := buffer + ch;
      }
      return Str;
    }

    method Dispatch(scope: Scope, ch: string, ofs: int) returns (next: Scope)
      modifies this
      ensures Next(next, View()) == StepIn(lang, scope, old(View()), ch, ofs)
    {
      match scope {
        case Default => next := LexDefault(ch, ofs);
        case WhStr => next := LexWhStr(ch, ofs);
        case Num => next := LexNum(ch, ofs);
        case Symbol => next := LexSymbol(ch, ofs);
        case Str => next := LexStr(ch, ofs);
        case Err => next := Err;
      }
    }
  }

  /** `string.sub(s, i, j)` for a start inside the string: a negative end counts from the back. */
  function Sub(s: string, i: nat, j: int): string
    requires 1 <= i
  {
    var last := if j < 0 then |s| + j + 1 else if j > |s| then |s| else j;
    if last < i then "" else s[i - 1..last]
  }

  /** `tokenize_command`.  `raised` stands for the Lua error of a state function that looks at the first byte
      of an empty chunk. */
  method TokenizeCommand(lang: Lang, msg: string)
    returns (raised: bool, tok: seq<Token>, error: Option<LexError>, errorOfs: Option<int>)
    ensures match TokenizeAny(lang, msg)
            case Raised => raised
            case Answered(t) => !raised && tok == t.tok && error == t.error && errorOfs == t.errorOfs
  {
    hide StepIn, StepBy, Sub, Chunks, NextStart, Finish, Odd, CString, Feed;
    var ofs: int, nofs: int, len := 1, 1, |msg|;
    var state := new LexState(lang);
    var scope, done, cut := Default, false, false;
    raised, tok, error, errorOfs := false, [], None, None;
    var p := CString(msg);
    ghost var from := Reached(lang, msg);
    ghost var left := Chunks(p);
    assert p[0..] == p;
    while !done
      invariant state.lang == lang && fresh(state)
      invariant !done ==> Ready(p, msg, ofs) && state.View().error.None? && !cut
      invariant !done && !Regular(p) ==> scope == Default && state.View() == START
      invariant !done && Regular(p) ==> left == Chunks(p[ofs - 1..])
      invariant Regular(p) && !cut ==> Feed(lang, Config(scope, state.View(), ofs), left) == from
      invariant done && !cut ==> Regular(p) && (state.View().error.Some? || (left == [] && p == msg))
      invariant cut ==> Config(scope, state.View(), ofs) == LastChunk(lang, from, Odd(msg)) && Cuts(msg, from)
      decreases !done, len + 2 - ofs
    {
      nofs := SearchStep(p, 1, ofs);
      OneStep(p, msg, ofs);
      var ch := Sub(msg, ofs, nofs - 1);
      ghost var c := Config(scope, state.View(), ofs);
      if nofs < 0 && Regular(p) {
        FeedDone(lang, c, left);
      }
      if ch == "" && (scope.Num? || scope.Symbol?) {
        raised := true;
        return;
      }
      scope := state.Dispatch(scope, ch, ofs);
      ofs := nofs;
      state.lastCh := Some(ch);
      done := nofs < 0 || nofs > len || state.error.Some?;
      if nofs < 0 {
        cut := true;
      } else {
        left := Chunks(p[ofs - 1..]);
        FeedOne(lang, c, ch, left);
      }
    }
    if !cut {
      FeedDone(lang, Config(scope, state.View(), ofs), left);
    }
    FinishIs(lang, Config(scope, state.View(), ofs));
    scope := state.Dispatch(scope, "\0", ofs);
    tok, error, errorOfs := state.tok, state.error, state.errorOfs;
  }

  /** The driver gets as far as that chunk, and the state function returns. */
  predicate Cuts(msg: string, from: Config) {
    if Regular(CString(msg)) then CString(msg) != msg && from.s.error.None? && !Raises(from, Odd(msg))
    else from == BEGIN
  }

  /** Where the driver stands between two rounds: `p` is what `utf8_step` sees of the message. */
  predicate Ready(p: string, msg: string, ofs: int) {
    if !Regular(p) then ofs == 1
    else 1 <= ofs <= |p| + 1 && (if ofs <= |p| then !Continues(p[ofs - 1]) else p != msg)
  }

  lemma FinishIs(lang: Lang, c: Config)
    ensures Finish(lang, c) == StepIn(lang, c.scope, c.s, "\0", c.ofs).s
  {
  }

  /** What one step and the following `string.sub` cut off. */
  lemma OneStep(p: string, msg: string, ofs: int)
    requires p == CString(msg) && Ready(p, msg, ofs)
    ensures var nofs := StepBy(p, 1, ofs);
            var ch := Sub(msg, ofs, nofs - 1);
            if !Regular(p) || ofs == |p| + 1
            then nofs == -1 && ch == Odd(msg) && (Regular(p) ==> Chunks(p[ofs - 1..]) == [])
            else
              && ofs < nofs <= |p| + 1 && nofs == ofs + |ch| && ch != ""
              && Chunks(p[ofs - 1..]) == [ch] + Chunks(p[nofs - 1..])
              && (nofs <= |p| ==> !Continues(p[nofs - 1]))
              && (nofs == |p| + 1 ==> Chunks(p[nofs - 1..]) == [])
  {
    hide StepBy, Chunks, NextStart, CString;
    if !Regular(p) {
      StepFails(p);
    } else if ofs == |p| + 1 {
      StepBehind(p);
      assert p[ofs - 1..] == "" && |p| < |msg|;
      assert |msg| - 1 == |p| ==> msg[|p|..|msg| - 1] == "";
      NoChunks();
    } else {
      ChunkAt(p, ofs - 1);
      StepOfOne(p, ofs);
      assert msg[..|p|] == p;
      assert msg[ofs - 1..NextStart(p, ofs)] == p[ofs - 1..NextStart(p, ofs)];
    }
  }

  lemma NoChunks()
    ensures Chunks("") == []
  {
  }

  lemma StepBehind(p: string)
    requires p != ""
    ensures StepBy(p, 1, |p| + 1) == -1
  {
  }

  lemma StepFails(msg: string)
    requires !Regular(msg)
    ensures StepBy(msg, 1, 1) == -1
  {
    assert msg != "" ==> Align(msg, 0) == Align(msg, -1) == -1;
    hide Align, Forward;
  }

  lemma StepOfOne(msg: string, ofs: int)
    requires 1 <= ofs <= |msg| && !Continues(msg[ofs - 1])
    ensures StepBy(msg, 1, ofs) == NextStart(msg, ofs) + 1
  {
    assert Align(msg, ofs - 1) == ofs - 1;
    hide NextStart;
    assert Forward(msg, ofs - 1, 1) == Forward(msg, NextStart(msg, ofs), 0);
  }

  lemma ChunkAt(msg: string, k: nat)
    requires k < |msg|
    ensures var n := NextStart(msg, k + 1); Chunks(msg[k..]) == [msg[k..n]] + Chunks(msg[n..])
    ensures Chunks(msg[|msg|..]) == []
  {
    NextStartDrop(msg, k, 1);
    var rest, n := msg[k..], NextStart(msg, k + 1);
    assert rest[n - k..] == msg[n..] && rest[..n - k] == msg[k..n];
    hide NextStart;
  }

  lemma {:induction false} NextStartDrop(msg: string, k: nat, i: nat)
    requires k + i <= |msg|
    ensures NextStart(msg, k + i) == k + NextStart(msg[k..], i)
    decreases |msg| - k - i
  {
    if k + i < |msg| && Continues(msg[k + i]) {
      NextStartDrop(msg, k, i + 1);
    }
  }

  lemma FeedOne(lang: Lang, c: Config, ch: string, more: seq<string>)
    requires c.s.error.None?
    ensures Feed(lang, c, [ch] + more) == Feed(lang, Advance(lang, c, ch), more)
  {
    hide Advance;
    assert ([ch] + more)[1..] == more;
  }

  lemma FeedDone(lang: Lang, c: Config, chunks: seq<string>)
    ensures c.s.error.Some? || chunks == [] ==> Feed(lang, c, chunks) == c
  {
  }
}
