/** Any words, with blanks or operators directly between them, are read as exactly the tokens they stand for. */
module Sentences {
  import opened Common
  import opened Utf8Step
  import opened Lexer
  import opened LexerProofs
  import opened Landing
  import opened Composition
  import opened Junctions
  import opened Quoting
  import opened Grammar
  import opened LexerReadings

  /** Something visible comes first, and no NUL byte is inside. */
  predicate Visible(s: string) {
    Plain(s) && s != "" && !Continues(s[0]) && s[0] != ' ' && s[0] != '\t' && s[0] != '\n'
  }

  lemma WrittenVisible(lang: Lang, x: Lexeme)
    requires WellFormed(lang, x)
    ensures Visible(Written(x))
  {
    match x
    case Quoted(text) => QuoteVisible(lang, text);
    case Numeral(_, _, _) => NumeralVisible(x);
    case Name(word) => NameVisible(word, "");
    case Address(space, word) => AddressVisible(space, word);
    case Call(word) => NameVisible(word, "(");
    case AddressCall(space, word) =>
      AddressVisible(space, word);
      PlainAppend(space + "." + word, "(");
    case Bare(head, tail) =>
      EscapePlain(Ends, tail);
      PlainAppend(head, Escape(Ends, tail));
    case Sign(sign) => SignVisible(sign);
  }

  lemma NumeralVisible(x: Lexeme)
    requires x.Numeral? && (x.radix.Decimal? ==> x.digits != "")
    requires forall i :: 0 <= i < |x.digits| ==> DigitOf(x.radix, x.digits[i])
    ensures Visible(Written(x))
  {
    var u := Unsigned(x.radix, x.digits);
    UnsignedTail(x);
    NumeralPlain(x.radix, x.digits);
    hide Unsigned;
    PlainAppend("-", u);
    assert "" + u == u && ("-" + u)[0] == '-';
  }

  lemma NameVisible(word: string, more: string)
    requires IsName(word) && Plain(more)
    ensures Visible(word) && Visible(word + more)
  {
    assert Plain(word) && (word + more)[0] == word[0];
    PlainAppend(word, more);
  }

  lemma AddressVisible(space: string, word: string)
    requires IsName(space) && (word == "" || IsName(word))
    ensures Visible(space + "." + word)
  {
    assert Plain(word);
    PlainAppend(".", word);
    NameVisible(space, "." + word);
    assert space + ("." + word) == space + "." + word;
  }

  lemma SignVisible(sign: char)
    requires OperatorCode([sign]).Some?
    ensures Visible([sign])
  {
  }

  lemma QuoteVisible(lang: Lang, text: string)
    requires Plain(text) && StartsSequence(text)
    ensures Visible(Quote(text))
  {
    QuoteIsOneToken(lang, text);
    hide Tokenize, Escape;
  }

  lemma NumeralPlain(radix: Radix, digits: string)
    requires forall i :: 0 <= i < |digits| ==> DigitOf(radix, digits[i])
    ensures Plain(Unsigned(radix, digits))
  {
    assert Plain(digits);
    PlainAppend(match radix case Decimal => "" case Hex => "0x" case Binary => "0b", digits);
  }

  lemma PlainAppend(a: string, b: string)
    ensures Plain(a) && Plain(b) ==> Plain(a + b)
  {
  }

  /** Every word of the grammar is read as the one token it stands for. */
  lemma WordReads(lang: Lang, x: Lexeme)
    requires WellFormed(lang, x)
    ensures ReadsAs(lang, Written(x), Meaning(lang, x))
  {
    hide Tokenize, ReadsAs;
    match x
    case Quoted(text) => QuoteReads(lang, text);
    case Numeral(_, _, _) => NumeralReads(lang, x);
    case Name(word) => NameReads(lang, word);
    case Address(space, word) => AddressReads(lang, space, word);
    case Call(word) => CallReads(lang, word);
    case AddressCall(space, word) => AddressCallReads(lang, space, word);
    case Bare(head, tail) => BareReads(lang, head, tail);
    case Sign(sign) => SignReads(lang, sign);
  }

  // ------------------------------------------------------------------ bare words

  /** Inside a word of simple mode, with no escape pending. */
  predicate InWord(c: Config) {
    c.scope.WhStr? && !c.s.whstrEscape && c.s.error.None?
  }

  /** Nothing but the buffer, the last chunk and the offset has changed, the offset in some way. */
  predicate Gathered(c: Config, d: Config, s: string) {
    d.scope == c.scope && d.s == c.s.(buffer := c.s.buffer + s, lastCh := d.s.lastCh)
  }

  lemma GatheredThen(c: Config, d: Config, e: Config, s: string, t: string)
    requires Gathered(c, d, s) && Gathered(d, e, t)
    ensures Gathered(c, e, s + t)
  {
    assert c.s.buffer + s + t == c.s.buffer + (s + t);
  }

  lemma NothingGathered(c: Config)
    ensures Gathered(c, c, "")
  {
    assert c.s.buffer + "" == c.s.buffer;
  }

  lemma SingleGathered(lang: Lang, c: Config, head: string)
    requires lang.simple && InWord(c) && head != "" && !IsEnd(head)
    ensures var d := if Ends(head[0]) then Advance(lang, Advance(lang, c, "\\"), head) else Advance(lang, c, head);
            Gathered(c, d, head) && InWord(d)
    ensures Advance(lang, c, "\\").s.error.None?
  {
    hide Ends, IsEnd, Gathered;
    EscapeHolds(lang, c, head);
    if !Ends(head[0]) {
      TakenAsIs(lang, head);
      PlainSingle(lang, c, head);
    }
  }

  /** What the word state takes as it is. */
  predicate AsIs(lang: Lang, head: string) {
    && !IsEnd(head) && !IsSpace(head) && !Is(head, '\"') && !Is(head, '\\')
    && (OperatorCode(head).Some? ==> Masked(lang, head))
  }

  lemma TakenAsIs(lang: Lang, head: string)
    requires lang.simple && !IsEnd(head) && !Ends(head[0])
    ensures AsIs(lang, head)
  {
    assert |head| == 1 ==> head == [head[0]];
  }

  lemma PlainSingle(lang: Lang, c: Config, head: string)
    requires InWord(c) && AsIs(lang, head)
    ensures Gathered(c, Advance(lang, c, head), head) && InWord(Advance(lang, c, head))
  {
    hide OperatorCode, IsSpace, IsEnd, Is, Masked;
  }

  lemma EscapeHolds(lang: Lang, c: Config, head: string)
    requires InWord(c) && !IsEnd(head)
    ensures var e := Advance(lang, c, "\\");
            e.s.error.None? && Gathered(c, Advance(lang, e, head), head) && InWord(Advance(lang, e, head))
  {
  }

  /** One chunk of the tail of a word, escaped if need be. */
  lemma WordChunk(lang: Lang, c: Config, head: string, rest: string) returns (d: Config)
    requires lang.simple && InWord(c) && Plain(head) && StartsSequence(rest)
    requires head != "" && !Continues(head[0]) && forall i :: 1 <= i < |head| ==> Continues(head[i])
    ensures Feed(lang, c, Chunks(Escape(Ends, head + rest))) == Feed(lang, d, Chunks(Escape(Ends, rest)))
    ensures Gathered(c, d, head) && InWord(d)
  {
    hide Chunks, Escape, Advance, Gathered, Ends;
    EndsStarts();
    EscapeChunks(Ends, head, rest);
    SingleGathered(lang, c, head);
    var more := Chunks(Escape(Ends, rest));
    if Ends(head[0]) {
      d := Advance(lang, Advance(lang, c, "\\"), head);
      FeedTwo(lang, c, "\\", head, more);
    } else {
      d := Advance(lang, c, head);
      assert ([head] + more)[1..] == more;
    }
  }

  lemma EndsStarts()
    ensures StartsOnly(Ends)
  {
  }

  lemma {:induction false} WordRun(lang: Lang, c: Config, s: string)
    requires lang.simple && InWord(c) && StartsSequence(s) && Plain(s)
    ensures var d := Feed(lang, c, Chunks(Escape(Ends, s))); Gathered(c, d, s) && InWord(d)
    decreases |s|
  {
    hide Feed, Chunks, Gathered, InWord, Ends;
    if s == "" {
      NothingGathered(c);
      NothingEscaped(lang, c);
    } else {
      var n := NextStart(s, 1);
      var head, rest := s[..n], s[n..];
      assert head + rest == s && head[0] == s[0];
      var d := WordChunk(lang, c, head, rest);
      WordRun(lang, d, rest);
      GatheredThen(c, d, Feed(lang, d, Chunks(Escape(Ends, rest))), head, rest);
    }
  }

  lemma NothingEscaped(lang: Lang, c: Config)
    ensures Feed(lang, c, Chunks(Escape(Ends, ""))) == c
  {
  }

  lemma WordOpens(lang: Lang, head: string)
    requires lang.simple && Opens(head)
    ensures var d := Advance(lang, BEGIN, head); Gathered(NameStart(lang), d, head) && InWord(d)
  {
    assert "" + head == head;
    if Letter(head[0]) {
      assert IsSymCh("", head, 0);
    } else {
      assert head == [head[0]] && !IsSymCh("", head, 0) && !IsNum(head);
      if head[0] != '.' {
        assert OperatorCode(head).Some? && Masked(lang, head);
        assert StepDefault(lang, START, head, 1) == StepOperator(lang, START, head, 1);
      }
    }
  }

  /** A bare word is one string: what would end it is taken literally behind a backslash. */
  lemma BareReads(lang: Lang, head: string, tail: string)
    requires WellFormed(lang, Bare(head, tail))
    ensures ReadsAs(lang, head + Escape(Ends, tail), Meaning(lang, Bare(head, tail)))
  {
    hide Advance, Feed, Chunks, Gathered, Finish, Escape;
    var a, e := Advance(lang, BEGIN, head), Escape(Ends, tail);
    var d := Feed(lang, a, Chunks(e));
    WordOpens(lang, head);
    WordRun(lang, a, tail);
    GatheredThen(NameStart(lang), a, d, head, tail);
    EscapeStarts(Ends, tail);
    HeadIsFed(lang, head, e);
    WordEnds(lang, head + tail, d);
    ReadsIf(lang, head + e, d, Meaning(lang, Bare(head, tail)));
  }

  lemma HeadIsFed(lang: Lang, head: string, rest: string)
    requires Opens(head) && StartsSequence(rest)
    ensures Feed(lang, BEGIN, Chunks(head + rest)) == Feed(lang, Advance(lang, BEGIN, head), Chunks(rest))
  {
    hide Advance, Chunks;
    SingleChunk(head);
    ChunksAppend(head, rest);
    assert ([head] + Chunks(rest))[1..] == Chunks(rest);
  }

  lemma WordEnds(lang: Lang, text: string, d: Config)
    requires lang.simple && text != "" && Gathered(NameStart(lang), d, text)
    ensures var t := Finish(lang, d);
            t.error.None? && !d.s.whstrEscape && |t.tok| == 1 && Says(t.tok[0], Reading(STRING, Text(text), None))
  {
    assert "" + text == text;
  }

  lemma QuoteReads(lang: Lang, text: string)
    requires WellFormed(lang, Quoted(text))
    ensures ReadsAs(lang, Quote(text), Meaning(lang, Quoted(text)))
  {
    hide Tokenize;
    QuoteIsOneToken(lang, text);
  }

  // ------------------------------------------------------------------ sentences

  /** Words with a blank or an operator between any two, and operators among themselves. */
  datatype Phrase =
    | Nothing
    | Last(word: Lexeme)
    | Then(word: Lexeme, sep: char, more: Phrase)
    | Op(sep: char, more: Phrase)

  function Spelled(p: Phrase): string {
    match p
    case Nothing => ""
    case Last(word) => Written(word)
    case Then(word, sep, more) => Written(word) + [sep] + Spelled(more)
    case Op(sep, more) => [sep] + Spelled(more)
  }

  /** A parenthesis behind a name makes a call of it. */
  predicate Calls(lang: Lang, x: Lexeme, g: char) {
    !lang.simple && g == '(' && (x.Name? || (x.Address? && x.word != ""))
  }

  /** A minus that opens the phrase. */
  predicate OpensWithMinus(p: Phrase) {
    (p.Last? || p.Then?) && (p.word == Sign('-') || (p.word.Numeral? && p.word.negative))
  }

  /** A minus at the front of a message is a sign, and so it is behind a blank or an operator, but not behind a tab, a
      line feed, or the parenthesis of a call; and a minus that separates must not stand where it would be a sign. */
  predicate GoodPhrase(lang: Lang, p: Phrase) {
    match p
    case Nothing => true
    case Last(word) => WellFormed(lang, word)
    case Then(word, sep, more) =>
      && WellFormed(lang, word) && Divides(lang, sep) && GoodPhrase(lang, more)
      && (sep == '-' ==> !word.Sign?)
      && (!lang.simple && OpensWithMinus(more) ==> sep != '\t' && sep != '\n' && !Calls(lang, word, sep))
    case Op(sep, more) => Divides(lang, sep) && !IsBlank(sep) && sep != '-' && GoodPhrase(lang, more)
  }

  function SepReading(g: char): seq<Reading> {
    if OperatorCode([g]).None? then [] else [Reading(OPERATOR, Operator(OperatorCode([g]).value), None)]
  }

  /** The call that a name becomes. */
  function CallReading(x: Lexeme): Reading
    requires x.Name? || x.Address?
  {
    Reading(FCALL, Text(Lower(x.word)), if x.Address? then Some(Lower(x.space)) else None)
  }

  /** What the phrase says: each word what it stands for, each operator that separates itself, and each name in front of
      a parenthesis a call. */
  function Meanings(lang: Lang, p: Phrase): seq<Reading>
    requires GoodPhrase(lang, p)
  {
    match p
    case Nothing => []
    case Last(word) => [Meaning(lang, word)]
    case Then(word, sep, more) =>
      (if Calls(lang, word, sep) then [CallReading(word)] else [Meaning(lang, word)] + SepReading(sep))
      + Meanings(lang, more)
    case Op(sep, more) => SepReading(sep) + Meanings(lang, more)
  }

  /** One token for each reading, in order. */
  predicate SaysAll(tok: seq<Token>, readings: seq<Reading>) {
    |tok| == |readings| && forall i :: 0 <= i < |readings| ==> Says(tok[i], readings[i])
  }

  // ---- what a word ends in

  lemma {:induction false} LastChFed(lang: Lang, c: Config, chunks: seq<string>)
    requires chunks != [] && Feed(lang, c, chunks).s.error.None?
    ensures Feed(lang, c, chunks).s.lastCh == Some(chunks[|chunks| - 1])
    decreases |chunks|
  {
    hide StepIn;
    if c.s.error.None? && |chunks| > 1 {
      LastChFed(lang, Advance(lang, c, chunks[0]), chunks[1..]);
    } else {
      assert chunks[1..] == [];
    }
  }

  lemma {:induction false} ChunksEnd(msg: string)
    requires msg != ""
    ensures var chunks := Chunks(msg);
            chunks != [] && var ch := chunks[|chunks| - 1]; ch != "" && ch[|ch| - 1] == msg[|msg| - 1]
    decreases |msg|
  {
    var n := NextStart(msg, 1);
    if n < |msg| {
      ChunksEnd(msg[n..]);
    } else {
      assert Chunks(msg[n..]) == [];
    }
  }

  /** The last character of a word of normal mode is no blank. */
  lemma WrittenEnds(lang: Lang, x: Lexeme)
    requires WellFormed(lang, x) && !lang.simple
    ensures Written(x) != "" && Written(x)[|Written(x)| - 1] != ' '
  {
    var w := Written(x);
    match x
    case Quoted(text) => assert w[|w| - 1] == '\"';
    case Numeral(_, radix, digits) => NumeralEnd(x);
    case Name(word) => NameEnd(word);
    case Address(space, word) =>
      if word != "" {
        NameEnd(word);
        assert w[|w| - 1] == word[|word| - 1];
      } else {
        assert w[|w| - 1] == '.';
      }
    case Call(word) => assert w[|w| - 1] == '(';
    case AddressCall(_, _) => assert w[|w| - 1] == '(';
    case Bare(_, _) =>
    case Sign(sign) => assert w == [sign] && sign != ' ';
  }

  lemma NameEnd(word: string)
    requires IsName(word)
    ensures word[|word| - 1] != ' '
  {
    assert NameTail(word[|word| - 1]);
  }

  lemma NumeralEnd(x: Lexeme)
    requires x.Numeral? && (x.radix.Decimal? ==> x.digits != "")
    requires forall i :: 0 <= i < |x.digits| ==> DigitOf(x.radix, x.digits[i])
    ensures var w := Written(x); w != "" && w[|w| - 1] != ' '
  {
    var w, u := Written(x), Unsigned(x.radix, x.digits);
    assert x.digits != "" ==> DigitOf(x.radix, x.digits[|x.digits| - 1]);
    assert w[|w| - 1] == u[|u| - 1] == if x.digits != "" then x.digits[|x.digits| - 1]
                                       else if x.radix.Hex? then 'x' else 'b';
  }

  /** Inside a name the end of the message leaves a symbol, which has no word only if nothing is buffered. */
  lemma NameAtEnd(lang: Lang, c: Config)
    requires c.scope.Symbol? && c.s.error.None? && c.s.buffer != ""
    ensures var f := Finish(lang, c).tok;
            f != [] && f[|f| - 1].kind in {SYMBOL, BOOLEAN} && f[|f| - 1].data != Some("")
  {
    assert !IsSymCh(c.s.buffer, "\0", |c.s.buffer|);
  }

  lemma WordActs(lang: Lang, x: Lexeme, g: char)
    requires WellFormed(lang, x) && Divides(lang, g) && !Calls(lang, x, g) && (g == '-' ==> !x.Sign?)
    requires ReadsAs(lang, Written(x), Meaning(lang, x)) && Visible(Written(x))
    ensures Acts(lang, Written(x), g)
  {
    var a := Written(x);
    var c := Feed(lang, BEGIN, Chunks(a));
    PlainIsTokenize(lang, a);
    EndsWell(lang, a);
    ChunksEnd(a);
    hide Feed, Chunks, Tokenize, Finish, Written, WellFormed, Meaning, Divides, TokenizeAny;
    LastChFed(lang, BEGIN, Chunks(a));
    if g == '(' && c.scope.Symbol? && c.s.buffer != "" {
      NameAtEnd(lang, c);
      CalledNot(lang, x, Finish(lang, c).tok[0]);
    }
    SimpleKeepsMinus(lang, g);
    if g == '-' {
      WrittenEnds(lang, x);
      OperatorNot(lang, x, Tokenize(lang, a).tok[0]);
    }
  }

  lemma SimpleKeepsMinus(lang: Lang, g: char)
    requires Divides(lang, g)
    ensures g == '-' ==> !lang.simple
  {
  }

  lemma CalledNot(lang: Lang, x: Lexeme, t: Token)
    requires WellFormed(lang, x) && !Calls(lang, x, '(') && Says(t, Meaning(lang, x))
    ensures t.kind !in {SYMBOL, BOOLEAN} || t.data == Some("")
  {
    assert Lower("") == "";
  }

  lemma OperatorNot(lang: Lang, x: Lexeme, t: Token)
    requires WellFormed(lang, x) && !x.Sign? && Says(t, Meaning(lang, x))
    ensures !t.kind.OPERATOR?
  {
  }

  /** A word, a separator directly behind it, and any message at all: the word is read as its token, an operator as
      itself, and the message as it is alone, exactly when it starts a sequence, no NUL byte delays a word in it, and
      no sign turns. */
  lemma WordThenIff(lang: Lang, x: Lexeme, g: char, b: string)
    requires WellFormed(lang, x) && Divides(lang, g) && !Calls(lang, x, g) && (g == '-' ==> !x.Sign?)
    requires TokenizeAny(lang, b).Answered?
    ensures var a := Written(x);
            && ReadsAs(lang, a, Meaning(lang, x)) && TokenizeAny(lang, a) == Answered(Tokenize(lang, a))
            && (Composes(lang, a, g, b) <==> Fits(lang, Tokenize(lang, a).tok + Mark(g, |a| + 1), g, b))
  {
    hide Written, WellFormed, Meaning, Tokenize, TokenizeAny, PendingEscape, Divides, Acts, Fits, GoesOn, Calls;
    WordReads(lang, x);
    WrittenVisible(lang, x);
    PlainIsTokenize(lang, Written(x));
    WordActs(lang, x, g);
    CompositionalIff(lang, Written(x), g, b);
  }

  // ---- phrases

  /** A message that ends in a name of normal mode. */
  lemma NameIsOpen(lang: Lang, x: Lexeme)
    requires WellFormed(lang, x) && Calls(lang, x, '(')
    ensures EndsInName(lang, Written(x))
  {
    hide Finish, Advance, Chunks, IsName;
    if x.Name? {
      var d := NameBegins(lang, x.word, "");
      NameStartIs(lang, x.word, d);
      assert x.word + "" == x.word;
      FeedLast(lang, d);
    } else {
      NotContinued(x.word);
      var e := PointRead(lang, x.space, x.word);
      var f := AddressedRun(lang, e, x.word);
      assert Written(x) == x.space + ("." + x.word);
    }
  }

  lemma NameStartIs(lang: Lang, word: string, d: Config)
    requires !lang.simple && IsName(word) && Buffered(NameStart(lang), d, word)
    ensures d.scope.Symbol? && d.s.buffer != ""
  {
  }

  lemma NotContinued(word: string)
    requires IsName(word)
    ensures StartsSequence(word) && word != ""
  {
  }

  /** `GoesOn` on messages without NUL bytes. */
  lemma GoesOnPlain(lang: Lang, x: seq<Token>, whole: string, b: string, d: int)
    requires Plain(whole) && Plain(b) && StartsSequence(b)
    ensures TokenizeAny(lang, b).Answered? && !NulDelaysWord(lang, b)
    ensures GoesOn(lang, x, whole, b, d)
            <==> Tokenize(lang, whole).error == Tokenize(lang, b).error
                 && Tokenize(lang, whole).tok == x + Shift(Tokenize(lang, b).tok, d)
  {
    PlainIsTokenize(lang, whole);
    PlainIsTokenize(lang, b);
    PlainCString(b);
  }

  /** What comes of a word and the separator behind it. */
  lemma CallSays(lang: Lang, x: Lexeme, t: Token)
    requires WellFormed(lang, x) && Calls(lang, x, '(') && Says(t, Meaning(lang, x))
    ensures Says(CallOf(t), CallReading(x))
  {
  }

  lemma NoTurn(lang: Lang, tok: seq<Token>, g: char, p: Phrase)
    requires GoodPhrase(lang, p) && (p != Nothing ==> Visible(Spelled(p)))
    requires !lang.simple && OpensWithMinus(p) ==> SignBehind(tok, g)
    ensures !SignTurns(lang, tok, g, Spelled(p))
  {
    hide Written, WellFormed, Meaning;
    var b := Spelled(p);
    if p != Nothing {
      assert Blanks(b) == 0;
      if b[0] == '-' && !lang.simple {
        FirstMinus(lang, p);
      }
    }
  }

  lemma FirstMinus(lang: Lang, p: Phrase)
    requires GoodPhrase(lang, p) && Spelled(p) != "" && Spelled(p)[0] == '-' && !lang.simple
    ensures OpensWithMinus(p)
  {
    if p.Last? || p.Then? {
      WrittenEnds(lang, p.word);
      assert Spelled(p)[0] == Written(p.word)[0];
      MinusWords(lang, p.word);
    }
  }

  lemma MinusWords(lang: Lang, y: Lexeme)
    requires WellFormed(lang, y) && !lang.simple && Written(y) != "" && Written(y)[0] == '-'
    ensures y == Sign('-') || (y.Numeral? && y.negative)
  {
    if y.Numeral? {
      UnsignedTail(y);
    }
  }

  /** Any words, in any order, with blanks or operators between them, are read as exactly the tokens they stand for and
      the operators; a name in front of a parenthesis is a call. */
  lemma {:induction false} PhraseReads(lang: Lang, p: Phrase)
    requires GoodPhrase(lang, p)
    ensures SaysAll(Tokenize(lang, Spelled(p)).tok, Meanings(lang, p))
    ensures Tokenize(lang, Spelled(p)).error.None?
    ensures p != Nothing ==> Visible(Spelled(p))
    decreases p
  {
    hide Written, WellFormed, Meaning, Tokenize, PendingEscape, Says, SaysAll, Visible, Acts, Divides;
    match p
    case Nothing => NothingSaid(lang);
    case Last(word) =>
      WordReads(lang, word);
      WrittenVisible(lang, word);
      SaysOne(Tokenize(lang, Written(word)).tok, Meaning(lang, word));
    case Then(word, sep, more) =>
      WordReads(lang, word);
      WrittenVisible(lang, word);
      PhraseReads(lang, more);
      if Calls(lang, word, sep) {
        CalledReads(lang, word, more);
      } else {
        SeparatedReads(lang, word, sep, more);
      }
    case Op(sep, more) =>
      PhraseReads(lang, more);
      OperatorReads(lang, sep, more);
  }

  lemma NothingSaid(lang: Lang)
    ensures SaysAll(Tokenize(lang, "").tok, []) && Tokenize(lang, "").error.None?
  {
  }

  lemma SeparatedReads(lang: Lang, x: Lexeme, g: char, p: Phrase)
    requires GoodPhrase(lang, Then(x, g, p)) && !Calls(lang, x, g)
    requires ReadsAs(lang, Written(x), Meaning(lang, x)) && Visible(Written(x))
    requires var t := Tokenize(lang, Spelled(p)); t.error.None? && SaysAll(t.tok, Meanings(lang, p))
    requires p != Nothing ==> Visible(Spelled(p))
    ensures var t := Tokenize(lang, Spelled(Then(x, g, p)));
            t.error.None? && SaysAll(t.tok, Meanings(lang, Then(x, g, p))) && Visible(Spelled(Then(x, g, p)))
  {
    hide Written, WellFormed, Meaning, Tokenize, PendingEscape, Says, SaysAll, Acts, Divides, SignTurns;
    var a, b := Written(x), Spelled(p);
    var tok := Tokenize(lang, a).tok;
    WordActs(lang, x, g);
    SeparatorPlain(lang, g);
    MarkSigns(lang, tok, g, |a| + 1);
    NoTurn(lang, tok + Mark(g, |a| + 1), g, p);
    PlainComposes(lang, a, g, b);
    SaysAppend(tok, Tokenize(lang, b).tok, |a| + 1, g, Meaning(lang, x), Meanings(lang, p));
  }

  /** Behind a blank proper and behind an operator a minus is a sign. */
  lemma MarkSigns(lang: Lang, tok: seq<Token>, g: char, ofs: int)
    requires Divides(lang, g)
    ensures g != '\t' && g != '\n' ==> SignBehind(tok + Mark(g, ofs), g)
  {
  }

  lemma CalledReads(lang: Lang, x: Lexeme, p: Phrase)
    requires GoodPhrase(lang, Then(x, '(', p)) && Calls(lang, x, '(')
    requires ReadsAs(lang, Written(x), Meaning(lang, x)) && Visible(Written(x))
    requires var t := Tokenize(lang, Spelled(p)); t.error.None? && SaysAll(t.tok, Meanings(lang, p))
    requires p != Nothing ==> Visible(Spelled(p))
    ensures var t := Tokenize(lang, Spelled(Then(x, '(', p)));
            t.error.None? && SaysAll(t.tok, Meanings(lang, Then(x, '(', p))) && Visible(Spelled(Then(x, '(', p)))
  {
    hide Written, WellFormed, Meaning, Tokenize, TokenizeAny, PendingEscape, Says, Divides, SignTurns, NulDelaysWord;
    hide GoesOn, EndsInName, CallOf, CallReading;
    var a, b := Written(x), Spelled(p);
    var tok := Tokenize(lang, a).tok;
    PlainIsTokenize(lang, a);
    NameIsOpen(lang, x);
    NoTurn(lang, CallFront(tok), '(', p);
    GoesOnPlain(lang, CallFront(tok), a + "(" + b, b, |a| + 1);
    CallGoesOnIff(lang, a, b);
    CallSays(lang, x, tok[0]);
    assert CallFront(tok) == [CallOf(tok[0])];
    CallAppend(CallOf(tok[0]), Tokenize(lang, b).tok, |a| + 1, CallReading(x), Meanings(lang, p));
  }

  lemma OperatorReads(lang: Lang, g: char, p: Phrase)
    requires GoodPhrase(lang, Op(g, p))
    requires var t := Tokenize(lang, Spelled(p)); t.error.None? && SaysAll(t.tok, Meanings(lang, p))
    requires p != Nothing ==> Visible(Spelled(p))
    ensures var t := Tokenize(lang, Spelled(Op(g, p)));
            t.error.None? && SaysAll(t.tok, Meanings(lang, Op(g, p))) && Visible(Spelled(Op(g, p)))
  {
    hide Tokenize, Says, Divides, SignTurns, Acts, PendingEscape;
    var b := Spelled(p);
    NothingBefore(lang, g);
    SeparatorPlain(lang, g);
    assert [] + Mark(g, 1) == Mark(g, 1) && "" + [g] + b == [g] + b;
    MarkSigns(lang, [], g, 1);
    NoTurn(lang, Mark(g, 1), g, p);
    PlainComposes(lang, "", g, b);
    MarkAppend(Tokenize(lang, b).tok, 1, g, Meanings(lang, p));
  }

  lemma NothingBefore(lang: Lang, g: char)
    requires Divides(lang, g) && g != '-'
    ensures Tokenize(lang, "").error.None? && Tokenize(lang, "").tok == [] && !PendingEscape(lang, "")
    ensures Acts(lang, "", g)
  {
  }

  lemma SaysOne(tok: seq<Token>, r: Reading)
    requires |tok| == 1 && Says(tok[0], r)
    ensures SaysAll(tok, [r])
  {
  }

  lemma SaysAppend(x: seq<Token>, y: seq<Token>, d: int, g: char, r: Reading, others: seq<Reading>)
    requires |x| == 1 && Says(x[0], r) && SaysAll(y, others)
    ensures SaysAll(x + Mark(g, d) + Shift(y, d), [r] + SepReading(g) + others)
  {
    var tok, all, k := x + Mark(g, d) + Shift(y, d), [r] + SepReading(g) + others, 1 + |Mark(g, d)|;
    forall i | 0 <= i < |all|
      ensures Says(tok[i], all[i])
    {
      if i >= k {
        assert tok[i] == Shift(y, d)[i - k] && all[i] == others[i - k];
      }
    }
  }

  lemma CallAppend(t: Token, y: seq<Token>, d: int, r: Reading, others: seq<Reading>)
    requires Says(t, r) && SaysAll(y, others)
    ensures SaysAll([t] + Shift(y, d), [r] + others)
  {
  }

  lemma MarkAppend(y: seq<Token>, d: int, g: char, others: seq<Reading>)
    requires SaysAll(y, others)
    ensures SaysAll(Mark(g, d) + Shift(y, d), SepReading(g) + others)
  {
  }

  // ------------------------------------------------------------------ signs and points in front

  /** Reading `word` from the front of a message and from behind a minus differ by the token of the minus. */
  lemma NameBehindMinus(lang: Lang, word: string) returns (d: Config)
    requires !lang.simple && IsName(word) && word[0] != 'b' && word[0] != 'x'
    ensures d == Feed(lang, BEGIN, Chunks("-" + word))
    ensures d.scope.Symbol? && d.s.error.None? && d.s.buffer == word && d.s.gotAddr.None?
    ensures d.s.tok == [Token(OPERATOR, Operator(OP_SUB), 2, None)]
  {
    var c := Advance(lang, BEGIN, "-");
    var x, tail := word[0], word[1..];
    var a := Advance(lang, c, [x]);
    assert word == [x] + tail && "-" + word == ['-'] + word && !Continues(x);
    assert tail != "" ==> NameTail(tail[0]);
    LetterBehindMinus(lang, x);
    d := Feed(lang, a, Chunks(tail));
    hide Advance, Chunks, Feed;
    FeedHead(lang, BEGIN, '-', word);
    FeedHead(lang, c, x, tail);
    NameRun(lang, a, tail);
  }

  lemma LetterBehindMinus(lang: Lang, x: char)
    requires !lang.simple && Letter(x)
    ensures var c := Advance(lang, BEGIN, "-");
            var a := Advance(lang, c, [x]);
            && c.s.error.None?
            && (if x == 'b' || x == 'x' then a.s.error.Some? && a.scope.Err?
                else InName(a) && a.scope.Symbol? && a.s.buffer == [x] && a.s.gotAddr.None?
                     && a.s.tok == [Token(OPERATOR, Operator(OP_SUB), 2, None)])
  {
    var c := Advance(lang, BEGIN, "-");
    assert c == Config(Num, START.(negate := true, lastCh := Some("-")), 2);
    var t := NumToken(lang, c.s, 2);
    assert t == Some(AddToken(c.s, OPERATOR, Operator(OP_SUB), 2, None).(negate := false));
    if x != 'b' && x != 'x' {
      assert StepNum(lang, c.s, [x], 2) == EndNum(lang, c.s, [x], 2);
      assert EndNum(lang, c.s, [x], 2) == StepDefault(lang, t.value, [x], 2);
      assert IsSymCh("", [x], 0);
    }
  }

  /** A minus in front of a name is an operator and the name, unless the name starts with the letter of a number
      base: then, and only then, it is an error. */
  lemma MinusBeforeName(lang: Lang, word: string)
    requires !lang.simple && IsName(word)
    ensures var t := Tokenize(lang, "-" + word);
            && (t.error.Some? <==> word[0] == 'b' || word[0] == 'x')
            && (t.error.None? ==> SaysAll(t.tok, [Meaning(lang, Sign('-')), Meaning(lang, Name(word))]))
  {
    hide Tokenize, Feed, Finish, Chunks, Meaning, IsName;
    var msg := "-" + word;
    MinusStarts(word);
    TokenizeIsFeed(lang, msg);
    if word[0] == 'b' || word[0] == 'x' {
      MinusFails(lang, word);
    } else {
      var d := NameBehindMinus(lang, word);
      SymbolEnds(lang, d);
      SignThenName(lang, word, Finish(lang, d).tok);
    }
  }

  lemma MinusStarts(word: string)
    requires IsName(word)
    ensures word != "" && StartsSequence("-" + word)
  {
  }

  lemma SignThenName(lang: Lang, word: string, tok: seq<Token>)
    requires !lang.simple && IsName(word) && |tok| == 2 && tok[..1] == [Token(OPERATOR, Operator(OP_SUB), 2, None)]
    requires Says(tok[1], Meaning(lang, Name(word)))
    ensures SaysAll(tok, [Meaning(lang, Sign('-')), Meaning(lang, Name(word))])
  {
    assert tok[0] == tok[..1][0];
  }

  lemma MinusFails(lang: Lang, word: string)
    requires !lang.simple && IsName(word) && (word[0] == 'b' || word[0] == 'x')
    ensures Finish(lang, Feed(lang, BEGIN, Chunks("-" + word))).error.Some?
  {
    var x, tail := word[0], word[1..];
    var c := Advance(lang, BEGIN, "-");
    assert word == [x] + tail && "-" + word == ['-'] + word && !Continues(x);
    assert tail != "" ==> NameTail(tail[0]);
    LetterBehindMinus(lang, x);
    ErrorStays(lang, Advance(lang, c, [x]), Chunks(tail));
    hide Advance, Chunks, Feed, Finish;
    FeedHead(lang, BEGIN, '-', word);
    FeedHead(lang, c, x, tail);
  }

  lemma ErrorStays(lang: Lang, c: Config, more: seq<string>)
    requires c.s.error.Some? && c.scope.Err?
    ensures Finish(lang, Feed(lang, c, more)).error.Some?
  {
  }

  /** The end of a message inside a symbol. */
  lemma SymbolEnds(lang: Lang, d: Config)
    requires !lang.simple && d.scope.Symbol? && d.s.error.None? && d.s.gotAddr.None? && IsName(d.s.buffer)
    ensures var t := Finish(lang, d);
            && t.error.None? && |t.tok| == |d.s.tok| + 1 && t.tok[..|d.s.tok|] == d.s.tok
            && Says(t.tok[|d.s.tok|], Meaning(lang, Name(d.s.buffer)))
  {
    assert !IsSymCh(d.s.buffer, "\0", |d.s.buffer|);
  }

  lemma PointOpens(lang: Lang)
    requires !lang.simple
    ensures var c := Advance(lang, BEGIN, ".");
            NumeralStart(c) && !c.s.negate && c.s.tok == []
  {
  }

  /** A point in front of a numeral is dropped: the numeral is read as if it were not there. */
  lemma LeadingPointIsDropped(lang: Lang, radix: Radix, digits: string)
    requires !lang.simple && WellFormed(lang, Numeral(false, radix, digits))
    ensures ReadsAs(lang, "." + Unsigned(radix, digits), Meaning(lang, Numeral(false, radix, digits)))
  {
    var x, u := Numeral(false, radix, digits), Unsigned(radix, digits);
    var c := Advance(lang, BEGIN, ".");
    var d := Feed(lang, c, Chunks(u));
    PointOpens(lang);
    UnsignedTail(x);
    UnsignedRun(lang, c, radix, digits);
    NumeralEnds(lang, x, c, d);
    hide Advance, Chunks, Feed, Meaning, Finish, Unsigned;
    assert "." + u == ['.'] + u;
    FeedHead(lang, BEGIN, '.', u);
    ReadsIf(lang, "." + u, d, Meaning(lang, x));
  }

  /** A point in front of a name is an error. */
  lemma PointBeforeNameFails(lang: Lang, word: string)
    requires !lang.simple && IsName(word)
    ensures Tokenize(lang, "." + word).error.Some?
  {
    var x, tail := word[0], word[1..];
    var c := Advance(lang, BEGIN, ".");
    assert word == [x] + tail && "." + word == ['.'] + word && !Continues(x);
    assert tail != "" ==> NameTail(tail[0]);
    LetterBehindPoint(lang, x);
    ErrorStays(lang, Advance(lang, c, [x]), Chunks(tail));
    TokenizeIsFeed(lang, "." + word);
    hide Advance, Chunks, Feed, Finish, Tokenize;
    FeedHead(lang, BEGIN, '.', word);
    FeedHead(lang, c, x, tail);
  }

  lemma LetterBehindPoint(lang: Lang, x: char)
    requires !lang.simple && Letter(x)
    ensures var c := Advance(lang, BEGIN, ".");
            var a := Advance(lang, c, [x]);
            c.s.error.None? && a.s.error.Some? && a.scope.Err?
  {
    var c := Advance(lang, BEGIN, ".");
    assert c.scope.Num? && c.s.buffer == "" && !c.s.negate && !c.s.numberHex;
    assert NumToken(lang, c.s, 2) == None;
    if x != 'b' && x != 'x' {
      assert StepNum(lang, c.s, [x], 2) == EndNum(lang, c.s, [x], 2);
    }
  }
}
