/** What the lexer reads, stated without the lexer: a grammar of words, how each is written, and the token it
    stands for; and how runs of characters end up in the buffer.
    The grammar knows no lexer states.  That the lexer agrees with it is proved in modules LexerReadings and
    Sentences. */
module Grammar {
  import opened Common
  import opened Utf8Step
  import opened Lexer
  import opened LexerProofs
  import opened Quoting

  datatype Radix = Decimal | Hex | Binary

  datatype Lexeme =
    | Quoted(text: string)
    | Numeral(negative: bool, radix: Radix, digits: string)
    | Name(word: string)
    | Address(space: string, word: string)
    | Call(word: string)
    | AddressCall(space: string, word: string)
    | Bare(head: string, tail: string)
    | Sign(sign: char)

  /** What a token says, its position aside. */
  datatype Reading = Reading(kind: Kind, value: Value, data: Option<string>)

  // ------------------------------------------------------------------ the grammar

  function Written(x: Lexeme): string {
    match x
    case Quoted(text) => Quote(text)
    case Numeral(negative, radix, digits) => (if negative then "-" else "") + Unsigned(radix, digits)
    case Name(word) => word
    case Address(space, word) => space + "." + word
    case Call(word) => word + "("
    case AddressCall(space, word) => space + "." + word + "("
    case Bare(head, tail) => head + Escape(Ends, tail)
    case Sign(sign) => [sign]
  }

  /** What ends a word of simple mode unless it is escaped. */
  predicate Ends(c: char) {
    c == ' ' || c == '\t' || c == '\n' || c == '\"' || c == '\\' || (OperatorCode([c]).Some? && !Kept(c))
  }

  /** The operators that simple mode reads as parts of words. */
  predicate Kept(c: char) {
    c in {'+', '-', '/', ',', '='}
  }

  /** What can open a word of simple mode: a sequence that starts with a letter, or a point or an operator that
      is part of words. */
  predicate Opens(head: string) {
    && head != "" && (forall i :: 1 <= i < |head| ==> Continues(head[i]))
    && (Letter(head[0]) || (|head| == 1 && (head[0] == '.' || Kept(head[0]))))
  }

  function Unsigned(radix: Radix, digits: string): string {
    (match radix case Decimal => "" case Hex => "0x" case Binary => "0b") + digits
  }

  predicate DigitOf(radix: Radix, c: char) {
    match radix
    case Decimal => '0' <= c <= '9'
    case Hex => '0' <= c <= '9' || 'a' <= c <= 'f' || 'A' <= c <= 'F'
    case Binary => c == '0' || c == '1'
  }

  predicate Letter(c: char) {
    'a' <= c <= 'z' || 'A' <= c <= 'Z'
  }

  predicate NameTail(c: char) {
    Letter(c) || '0' <= c <= '9' || c == '_' || c == ':'
  }

  predicate IsName(s: string) {
    s != "" && Letter(s[0]) && forall i :: 0 <= i < |s| ==> NameTail(s[i])
  }

  function BaseOf(radix: Radix): nat {
    match radix case Decimal => 10 case Hex => 16 case Binary => 2
  }

  /** What is handed to the number conversion: the leading zero of a prefix is a part of it. */
  function Body(radix: Radix, digits: string): string {
    (if radix.Decimal? then "" else "0") + digits
  }

  /** The words that are read.  Signed numerals, addresses and calls are known to normal mode only, bare words
      to simple mode only. */
  predicate WellFormed(lang: Lang, x: Lexeme) {
    match x
    case Quoted(text) => Plain(text) && StartsSequence(text)
    case Numeral(negative, radix, digits) =>
      && (forall i :: 0 <= i < |digits| ==> DigitOf(radix, digits[i]))
      && (radix.Decimal? ==> digits != "") && (negative ==> !lang.simple)
      && Positional(digits, BaseOf(radix)) <= MAX_EXACT
    case Name(word) => IsName(word)
    case Address(space, word) => !lang.simple && IsName(space) && (word == "" || IsName(word))
    case Call(word) => !lang.simple && IsName(word)
    case AddressCall(space, word) => !lang.simple && IsName(space) && IsName(word)
    case Bare(head, tail) => lang.simple && Opens(head) && Plain(tail) && StartsSequence(tail)
    case Sign(sign) => OperatorCode([sign]).Some?
  }

  function Meaning(lang: Lang, x: Lexeme): Reading
    requires WellFormed(lang, x)
  {
    match x
    case Quoted(text) => Reading(STRING, Text(text), None)
    case Numeral(negative, radix, digits) =>
      var v := Positional(digits, BaseOf(radix)) as real;
      Reading(NUMBER, Number(if negative then -v else v), None)
    case Name(word) =>
      if lang.simple then Reading(STRING, Text(word), None)
      else if Lower(word) == "true" then Reading(BOOLEAN, Truth(true), None)
      else if Lower(word) == "false" then Reading(BOOLEAN, Truth(false), None)
      else Reading(SYMBOL, Text(Lower(word)), None)
    case Address(space, word) => Reading(SYMBOL, Text(Lower(space)), Some(Lower(word)))
    case Call(word) => Reading(FCALL, Text(Lower(word)), None)
    case AddressCall(space, word) => Reading(FCALL, Text(Lower(word)), Some(Lower(space)))
    case Bare(head, tail) => Reading(STRING, Text(head + tail), None)
    case Sign(sign) =>
      if lang.simple && Kept(sign) then Reading(STRING, Text([sign]), None)
      else Reading(OPERATOR, Operator(OperatorCode([sign]).value), None)
  }

  predicate Says(t: Token, r: Reading) {
    t.kind == r.kind && t.value == r.value && t.data == r.data
  }

  /** `msg` tokenizes to the one token `r`, and more may follow behind a blank. */
  predicate ReadsAs(lang: Lang, msg: string, r: Reading) {
    && Tokenize(lang, msg).error.None? && !PendingEscape(lang, msg)
    && |Tokenize(lang, msg).tok| == 1 && Says(Tokenize(lang, msg).tok[0], r)
  }

  // ------------------------------------------------------------------ runs of characters

  lemma FeedHead(lang: Lang, c: Config, x: char, rest: string)
    requires c.s.error.None? && !Continues(x) && StartsSequence(rest)
    ensures Feed(lang, c, Chunks([x] + rest)) == Feed(lang, Advance(lang, c, [x]), Chunks(rest))
  {
    SingleChunk([x]);
    ChunksAppend([x], rest);
    hide Chunks, Advance;
    assert ([[x]] + Chunks(rest))[1..] == Chunks(rest);
  }

  /** Nothing but the buffer, the last chunk and the offset has changed. */
  predicate Buffered(c: Config, d: Config, s: string) {
    d == Config(c.scope, c.s.(buffer := c.s.buffer + s, lastCh := d.s.lastCh), c.ofs + |s|)
  }

  lemma BufferedThen(c: Config, d: Config, e: Config, s: string, t: string)
    requires Buffered(c, d, s) && Buffered(d, e, t)
    ensures Buffered(c, e, s + t)
  {
    assert c.s.buffer + s + t == c.s.buffer + (s + t);
  }

  lemma BufferedNothing(c: Config)
    ensures Buffered(c, c, "")
  {
    assert c.s.buffer + "" == c.s.buffer;
  }

  predicate NumeralTail(s: State, c: char) {
    || ('0' <= c <= '9' && (s.numberBin ==> c == '0' || c == '1'))
    || (s.numberHex && 'a' <= LowerChar(c) <= 'f')
  }

  predicate InNumeral(c: Config) {
    c.scope.Num? && c.s.error.None?
  }

  lemma NumeralStep(lang: Lang, c: Config, x: char)
    requires InNumeral(c) && NumeralTail(c.s, x)
    ensures var d := Advance(lang, c, [x]);
            Buffered(c, d, [x]) && InNumeral(d) && d.s.numberBin == c.s.numberBin && d.s.numberHex == c.s.numberHex
  {
  }

  lemma {:induction false} NumeralRun(lang: Lang, c: Config, s: string)
    requires InNumeral(c) && forall i :: 0 <= i < |s| ==> NumeralTail(c.s, s[i])
    ensures Buffered(c, Feed(lang, c, Chunks(s)), s)
    decreases |s|
  {
    if s == "" {
      BufferedNothing(c);
    } else {
      var d := Advance(lang, c, [s[0]]);
      NumeralStep(lang, c, s[0]);
      assert s == [s[0]] + s[1..];
      FeedHead(lang, c, s[0], s[1..]);
      hide Advance, Chunks, Buffered;
      NumeralRun(lang, d, s[1..]);
      BufferedThen(c, d, Feed(lang, d, Chunks(s[1..])), [s[0]], s[1..]);
    }
  }

  /** The two states that take up the letters of a name. */
  predicate InName(c: Config) {
    && c.s.error.None? && c.s.buffer != ""
    && (c.scope.Symbol? || (c.scope.WhStr? && !c.s.whstrEscape))
  }

  lemma NameChar(x: char)
    requires NameTail(x)
    ensures OperatorCode([x]).None? && !IsSpace([x]) && !IsEnd([x]) && !Is([x], '\"') && !Is([x], '\\')
    ensures !Is([x], '.') && !Is([x], '(') && forall buffer, ofs: nat :: ofs > 0 ==> IsSymCh(buffer, [x], ofs)
  {
  }

  lemma NameStep(lang: Lang, c: Config, x: char)
    requires InName(c) && NameTail(x)
    ensures Buffered(c, Advance(lang, c, [x]), [x]) && InName(Advance(lang, c, [x]))
  {
    NameChar(x);
    hide OperatorCode, IsSpace, IsEnd, Is, IsSymCh, StepDefault;
  }

  lemma {:induction false} NameRun(lang: Lang, c: Config, s: string)
    requires InName(c) && forall i :: 0 <= i < |s| ==> NameTail(s[i])
    ensures Buffered(c, Feed(lang, c, Chunks(s)), s)
    decreases |s|
  {
    if s == "" {
      BufferedNothing(c);
    } else {
      var d := Advance(lang, c, [s[0]]);
      NameStep(lang, c, s[0]);
      assert s == [s[0]] + s[1..] && c.s.error.None?;
      FeedHead(lang, c, s[0], s[1..]);
      hide Advance, Chunks, Buffered, InName, NameTail;
      NameRun(lang, d, s[1..]);
      BufferedThen(c, d, Feed(lang, d, Chunks(s[1..])), [s[0]], s[1..]);
    }
  }

  function NameStart(lang: Lang): Config {
    Config(if lang.simple then WhStr else Symbol, START, 1)
  }

  lemma NameOpens(lang: Lang, x: char)
    requires Letter(x)
    ensures var d := Advance(lang, BEGIN, [x]); Buffered(NameStart(lang), d, [x]) && InName(d)
  {
    assert "" + [x] == [x];
  }

  /** A name from the front of the message. */
  lemma NameBegins(lang: Lang, word: string, rest: string) returns (d: Config)
    requires IsName(word) && StartsSequence(rest)
    ensures Buffered(NameStart(lang), d, word)
    ensures Feed(lang, BEGIN, Chunks(word + rest)) == Feed(lang, d, Chunks(rest))
  {
    var x, tail := word[0], word[1..];
    var a := Advance(lang, BEGIN, [x]);
    assert word == [x] + tail && word + rest == [x] + (tail + rest) && !Continues(x);
    assert tail != "" ==> NameTail(tail[0]);
    NameOpens(lang, x);
    hide Advance, Chunks, Buffered, NameStart, InName;
    FeedHead(lang, BEGIN, x, tail + rest);
    NameRun(lang, a, tail);
    d := Feed(lang, a, Chunks(tail));
    BufferedThen(NameStart(lang), a, d, [x], tail);
    ChunksAppend(tail, rest);
    FeedSplit(lang, a, Chunks(tail), Chunks(rest));
  }
}
