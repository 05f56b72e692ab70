/** What the end of a message finds: exactly when the default state raises its "unexpected end". */
module MessageEnd {
  import opened Common
  import opened Utf8Step
  import opened Lexer
  import opened LexerProofs

  lemma LastChunkTidy(lang: Lang, c: Config, ch: string)
    requires Tidy(c.scope, c.s) && (c.scope.Default? || !IsEnd(ch))
    ensures var t := Finish(lang, LastChunk(lang, c, ch)); t.error.Some? ==> !t.error.value.UnexpectedEnd?
  {
    var d := LastChunk(lang, c, ch);
    if c.scope.Default? {
      DefaultTidy(lang, c.s, ch, c.ofs);
    } else {
      StepTidy(lang, c.scope, c.s, ch, c.ofs);
    }
    hide StepIn, Finish;
    EndNeverUnexpected(lang, d);
  }

  /** A message without NUL bytes never ends in the "unexpected end" of the default state. */
  lemma NoUnexpectedEnd(lang: Lang, msg: string)
    requires Plain(msg)
    ensures var t := Tokenize(lang, msg); t.error.Some? ==> !t.error.value.UnexpectedEnd?
  {
    if !Regular(msg) {
      LastChunkTidy(lang, BEGIN, CutOff(msg, 0));
    } else {
      ChunksProper(msg);
      FeedTidy(lang, BEGIN, Chunks(msg));
      EndNeverUnexpected(lang, Feed(lang, BEGIN, Chunks(msg)));
    }
  }

  // ------------------------------------------------------------------ words of simple mode

  lemma StepSimple(lang: Lang, scope: Scope, s: State, ch: string, ofs: int)
    requires scope.WhStr? ==> lang.simple
    ensures StepIn(lang, scope, s, ch, ofs).scope.WhStr? ==> lang.simple
  {
    match scope
    case Default => DefaultSimple(lang, s, ch, ofs);
    case Num =>
      if IsNum(ch) {
        DigitStays(lang, s, ch, ofs);
      } else {
        var t := NumToken(lang, s, ofs);
        hide StepDefault, NumToken;
        if t.Some? {
          DefaultSimple(lang, t.value, ch, ofs);
        }
        assert EndNum(lang, s, ch, ofs).scope.WhStr? ==> lang.simple;
      }
    case Symbol =>
      DefaultSimple(lang, SymbolToken(s, ofs).(buffer := "", gotAddr := None), ch, ofs);
      hide StepDefault;
    case _ =>
  }

  lemma DefaultSimple(lang: Lang, s: State, ch: string, ofs: int)
    ensures StepDefault(lang, s, ch, ofs).scope.WhStr? ==> lang.simple
  {
    if IsNum(ch) {
      DigitStays(lang, FreshNumber(s, false), ch, ofs);
    } else if OperatorCode(ch).Some? {
      OperatorSimple(lang, s, ch, ofs);
    }
    hide StepOperator, StepNum;
  }

  lemma OperatorSimple(lang: Lang, s: State, ch: string, ofs: int)
    requires OperatorCode(ch).Some?
    ensures StepOperator(lang, s, ch, ofs).scope.WhStr? ==> lang.simple
  {
  }

  /** Blank-terminated strings are known to simple mode only. */
  lemma {:induction false} FeedSimple(lang: Lang, c: Config, chunks: seq<string>)
    requires c.scope.WhStr? ==> lang.simple
    ensures Feed(lang, c, chunks).scope.WhStr? ==> lang.simple
    decreases |chunks|
  {
    hide StepIn;
    if chunks != [] && c.s.error.None? {
      StepSimple(lang, c.scope, c.s, chunks[0], c.ofs);
      FeedSimple(lang, Advance(lang, c, chunks[0]), chunks[1..]);
    }
  }

  /** The chunk that starts with the first NUL byte is taken for the end of the message when it is that byte
      alone, or nothing; and then a blank-terminated string is handed over but stays in the buffer. */
  lemma NulChunk(lang: Lang, c: Config, ch: string)
    requires Tidy(c.scope, c.s) && c.s.error.None? && !Raises(c, ch) && (ch == "" || ch[0] == '\0')
    ensures var t := Finish(lang, LastChunk(lang, c, ch));
            t.error.Some? && t.error.value.UnexpectedEnd? <==> c.scope.WhStr? && |ch| <= 1
  {
    if !IsEnd(ch) || c.scope.Default? {
      LastChunkTidy(lang, c, ch);
    } else {
      match c.scope
      case Num =>
        NumTidy(lang, c.s, ch, c.ofs);
        EndNeverUnexpected(lang, LastChunk(lang, c, ch));
      case Symbol =>
        SymbolTidy(lang, c.s, ch, c.ofs);
        EndNeverUnexpected(lang, LastChunk(lang, c, ch));
      case _ =>
    }
  }

  /** The message breaks off a blank-terminated string of simple mode with a NUL byte that is its last byte
      but one, or its last. */
  predicate NulCutsWord(lang: Lang, msg: string) {
    var p := CString(msg);
    && lang.simple && Regular(p) && p != msg && |msg| <= |p| + 2
    && Feed(lang, BEGIN, Chunks(p)).scope.WhStr?
  }

  predicate EndsUnexpectedly(a: Answer) {
    a.Answered? && a.s.error.Some? && a.s.error.value.UnexpectedEnd?
  }

  /** Whatever the message, its end finds the default state with something buffered exactly when a NUL byte
      cuts a word off like that. */
  lemma UnexpectedEndIff(lang: Lang, msg: string)
    ensures EndsUnexpectedly(TokenizeAny(lang, msg)) <==> NulCutsWord(lang, msg)
  {
    var p := CString(msg);
    hide StepIn, Finish, LastChunk, Chunks;
    if !Regular(p) {
      LastChunkTidy(lang, BEGIN, CutOff(msg, 0));
    } else {
      var c := Feed(lang, BEGIN, Chunks(p));
      ChunksProper(p);
      FeedTidy(lang, BEGIN, Chunks(p));
      FeedSimple(lang, BEGIN, Chunks(p));
      EndNeverUnexpected(lang, c);
      var ch := CutOff(msg, |p|);
      if p != msg && c.s.error.None? && !Raises(c, ch) {
        assert |ch| == |msg| - 1 - |p| && (ch != "" ==> ch[0] == msg[|p|]);
        NulChunk(lang, c, ch);
      }
      hide Feed, Tidy;
    }
  }

  /** In simple mode a letter and a NUL byte end unexpectedly. */
  lemma NulBehindLetter(lang: Lang)
    requires lang.simple
    ensures TokenizeAny(lang, "a\0").Answered?
    ensures TokenizeAny(lang, "a\0").s.error == Some(UnexpectedEnd("a"))
  {
    var msg := "a\0";
    assert msg[1..] == "\0" && CString(msg) == "a";
    SingleChunk("a");
    assert ["a"][1..] == [];
    var c := Advance(lang, BEGIN, "a");
    assert Feed(lang, BEGIN, ["a"]) == c;
    assert c.scope.WhStr? && c.s.buffer == "a" && c.s.error.None?;
    assert CutOff(msg, 1) == "";
  }

  /** The driver ends inside a number or a name. */
  predicate EndsInside(lang: Lang, p: string) {
    var c := Feed(lang, BEGIN, Chunks(p));
    c.s.error.None? && (c.scope.Num? || c.scope.Symbol?)
  }

  /** A message raises exactly when its last byte is its first NUL byte and what is in front of it ends inside a number
      or a name. */
  lemma RaisesIff(lang: Lang, msg: string)
    ensures TokenizeAny(lang, msg).Raised?
            <==> var p := CString(msg); |msg| == |p| + 1 && Regular(p) && EndsInside(lang, p)
  {
    hide Feed, Chunks, Finish, LastChunk;
    var p := CString(msg);
    if Regular(p) && p != msg {
      assert |CutOff(msg, |p|)| == |msg| - 1 - |p|;
    }
  }
}
