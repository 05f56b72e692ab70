/** The command lexer of `lua/examples/lash.lua`: five states, two operator modes.  `ch` is one chunk of
    the message, or "\0" for its end. */
module Lexer {
  import opened Common
  import opened Utf8Step

  datatype Kind = SYMBOL | FCALL | OPERATOR | STRING | NUMBER | BOOLEAN

  datatype Value = Text(text: string) | Number(number: real) | Truth(truth: bool) | Operator(code: nat)

  /** A token with the byte offset that is current when it is emitted. */
  datatype Token = Token(kind: Kind, value: Value, pos: int, data: Option<string>)

  datatype Scope = Default | WhStr | Num | Symbol | Str | Err

  datatype LexError =
    | UnexpectedEnd(buffer: string)
    | InvalidToken(ch: string)
    | BadBinaryDigit(ch: string)
    | MultipleRadix
    | BadBinary
    | BadHex
    | BadNumber(buffer: string, base: nat)
    | SecondNamespace
    | Unterminated

  /** The next state function and the state it finds. */
  datatype Next = Next(scope: Scope, s: State)

  /** The mode flag, and the number conversion where it depends on the version of Lua; both fixed during a
      run. */
  datatype Lang = Lang(simple: bool, other: (string, nat) -> Option<real>)

  // ------------------------------------------------------------------ number conversion

  /** Up to here every version of Lua converts integers exactly. */
  const MAX_EXACT: nat := 9007199254740992

  function DigitValue(c: char): nat {
    if '0' <= c <= '9' then (c - '0') as nat
    else if 'a' <= c <= 'f' then (c - 'a') as nat + 10
    else if 'A' <= c <= 'F' then (c - 'A') as nat + 10
    else 16
  }

  predicate IsIntegral(s: string, base: nat) {
    s != "" && forall i :: 0 <= i < |s| ==> DigitValue(s[i]) < base
  }

  /** The value of a string of digits, the last one having weight 1. */
  function Positional(s: string, base: nat): nat {
    if s == "" then 0 else Positional(s[..|s| - 1], base) * base + DigitValue(s[|s| - 1])
  }

  /** `tonumber` of what the lexer buffers: nothing is no number, and integers have their positional value. */
  function ToNumber(lang: Lang, s: string, base: nat): Option<real> {
    if s == "" then None
    else if IsIntegral(s, base) && Positional(s, base) <= MAX_EXACT then Some(Positional(s, base) as real)
    else lang.other(s, base)
  }

  // ------------------------------------------------------------------ the lexer

  datatype State = State(
    buffer: string,
    negate: bool, numberFract: bool, numberHex: bool, numberBin: bool, base: nat,
    lexStrOfs: Option<int>, inEscape: bool, whstrEscape: bool, gotAddr: Option<string>,
    lastCh: Option<string>, error: Option<LexError>, errorOfs: Option<int>,
    tok: seq<Token>)

  const START := State("", false, false, false, false, 10, None, false, false, None, None, None, None, [])

  const OP_SUB: nat := 21

  /** The chunk is the one byte `c`. */
  predicate Is(ch: string, c: char) {
    |ch| == 1 && ch[0] == c
  }

  /** The operator table; `None` for a chunk that is no operator. */
  function OperatorCode(ch: string): Option<nat> {
    if |ch| != 1 then None
    else
      match ch[0]
      case '+' => Some(20)
      case '-' => Some(21)
      case '/' => Some(22)
      case '*' => Some(23)
      case '(' => Some(24)
      case ')' => Some(25)
      case '%' => Some(26)
      case '=' => Some(27)
      case ',' => Some(28)
      case '|' => Some(29)
      case '$' => Some(31)
      case '@' => Some(32)
      case ';' => Some(33)
      case '!' => Some(34)
      case '#' => Some(35)
      case _ => None
  }

  /** Operators that simple mode reads as parts of strings. */
  predicate Masked(lang: Lang, ch: string) {
    lang.simple && |ch| == 1 && ch[0] in {'+', '-', '/', ',', '='}
  }

  predicate IsSpace(ch: string) {
    Is(ch, ' ') || Is(ch, '\t') || Is(ch, '\n')
  }

  predicate IsEnd(ch: string) {
    |ch| == 0 || Is(ch, '\0')
  }

  /** Like `string.byte`, which looks at the first byte only. */
  function First(ch: string): char {
    if |ch| == 0 then '\0' else ch[0]
  }

  predicate IsNum(ch: string) {
    '0' <= First(ch) <= '9'
  }

  predicate IsAlpha(ch: string) {
    'A' <= First(ch) <= 'Z' || 'a' <= First(ch) <= 'z'
  }

  function LowerChar(c: char): char {
    if 'A' <= c <= 'Z' then (c as int + 32) as char else c
  }

  function Lower(s: string): string {
    seq(|s|, i requires 0 <= i < |s| => LowerChar(s[i]))
  }

  predicate IsSymCh(buffer: string, ch: string, ofs: nat) {
    if IsNum(ch) || Is(ch, '_') || Is(ch, '.') || Is(ch, ':') then ofs > 0
    else if Is(buffer, '$') && (Is(ch, '-') || Is(ch, '+')) then true
    else IsAlpha(ch)
  }

  function Fail(s: State, e: LexError, ofs: Option<int>): Next {
    Next(Err, s.(error := Some(e), errorOfs := ofs))
  }

  function AddToken(s: State, kind: Kind, value: Value, ofs: int, data: Option<string>): State {
    s.(tok := s.tok + [Token(kind, value, ofs, data)])
  }

  function FreshNumber(s: State, fract: bool): State {
    s.(numberFract := fract, numberHex := false, numberBin := false, base := 10)
  }

  /** A minus at the front, behind a blank, or behind an operator is a sign. */
  predicate StartsNegative(s: State) {
    || s.lastCh.None? || s.lastCh.value == " "
    || (s.tok != [] && s.tok[|s.tok| - 1].kind.OPERATOR?)
  }

  function StepOperator(lang: Lang, s: State, ch: string, ofs: int): Next
    requires OperatorCode(ch).Some?
  {
    if Masked(lang, ch) then Next(WhStr, s.(buffer := ch))
    else if Is(ch, '-') && StartsNegative(s) then Next(Num, FreshNumber(s.(negate := true), false))
    else Next(Default, AddToken(s, OPERATOR, Operator(OperatorCode(ch).value), ofs, None))
  }

  function StepDefault(lang: Lang, s: State, ch: string, ofs: int): Next
    decreases 1
  {
    if IsEnd(ch) then
      if |s.buffer| > 0 then Fail(s, UnexpectedEnd(s.buffer), Some(ofs)) else Next(Default, s)
    else if IsSymCh(s.buffer, ch, 0) then Next(if lang.simple then WhStr else Symbol, s.(buffer := ch))
    else if IsNum(ch) then StepNum(lang, FreshNumber(s, false), ch, ofs)
    else if Is(ch, '.') then
      if lang.simple then Next(WhStr, s.(buffer := ch)) else Next(Num, FreshNumber(s, true))
    else if Is(ch, '\"') then Next(Str, s.(buffer := "", lexStrOfs := Some(ofs)))
    else if IsSpace(ch) then Next(Default, s)
    else if OperatorCode(ch).Some? then StepOperator(lang, s, ch, ofs)
    else Fail(s, InvalidToken(ch), Some(ofs))
  }

  function StepWhStr(lang: Lang, s: State, ch: string, ofs: int): Next {
    if IsEnd(ch) then
      var t := if |s.buffer| > 0 then AddToken(s, STRING, Text(s.buffer), ofs, None) else s;
      Next(Default, t.(whstrEscape := false))
    else if s.whstrEscape then Next(WhStr, s.(whstrEscape := false, buffer := s.buffer + ch))
    else if IsSpace(ch) || Is(ch, '\"') then
      Next(Default, AddToken(s, STRING, Text(s.buffer), ofs, None).(buffer := ""))
    else if OperatorCode(ch).Some? && !Masked(lang, ch) then
      var t := AddToken(s, STRING, Text(s.buffer), ofs, None).(buffer := "");
      Next(Default, AddToken(t, OPERATOR, Operator(OperatorCode(ch).value), ofs, None))
    else if Is(ch, '\\') then Next(WhStr, s.(whstrEscape := true))
    else Next(WhStr, s.(buffer := s.buffer + ch))
  }

  /** The token for a finished number, or for a sign without one; `None` when there is no number. */
  function NumToken(lang: Lang, s: State, ofs: int): Option<State> {
    var num := ToNumber(lang, s.buffer, s.base);
    if num.Some? then
      var value := if s.negate then num.value * -1.0 else num.value;
      Some(AddToken(s, NUMBER, Number(value), ofs, None).(negate := false, buffer := ""))
    else if s.negate && |s.buffer| == 0 then
      Some(AddToken(s, OPERATOR, Operator(OP_SUB), ofs, None).(negate := false))
    else None
  }

  /** The end of a number: convert what is buffered, then look at `ch` from the default state again. */
  function EndNum(lang: Lang, s: State, ch: string, ofs: int): Next
    requires !IsNum(ch)
    decreases 2
  {
    var t := NumToken(lang, s, ofs);
    if t.Some? then StepDefault(lang, t.value, ch, ofs)
    else Fail(s, BadNumber(s.buffer, s.base), Some(ofs))
  }

  function StepNum(lang: Lang, s: State, ch: string, ofs: int): Next
    decreases if IsNum(ch) then 0 else 3
  {
    if IsNum(ch) then
      if s.numberBin && !Is(ch, '0') && !Is(ch, '1') then Fail(s, BadBinaryDigit(ch), Some(ofs))
      else Next(Num, s.(buffer := s.buffer + ch))
    else if Is(ch, '.') then
      if s.numberFract then Fail(s, MultipleRadix, Some(ofs))
      else Next(Num, s.(numberFract := true, buffer := s.buffer + ch))
    else if Is(ch, 'b') && !s.numberHex then
      if s.numberBin || !Is(s.buffer, '0') then Fail(s, BadBinary, Some(ofs))
      else Next(Num, s.(numberBin := true, base := 2))
    else if Is(ch, 'x') then
      if s.numberHex || !Is(s.buffer, '0') then Fail(s, BadHex, Some(ofs))
      else Next(Num, s.(numberHex := true, base := 16))
    else if First(ch) != '\0' && s.numberHex && 'a' <= LowerChar(First(ch)) <= 'f' then
      Next(Num, s.(buffer := s.buffer + ch))
    else EndNum(lang, s, ch, ofs)
  }

  /** What a finished symbol turns out to be. */
  datatype Word = Word(kind: Kind, value: Value, data: Option<string>)

  function WordOf(buffer: string, gotAddr: Option<string>): Word {
    var word := Lower(buffer);
    if gotAddr.Some? then Word(SYMBOL, Text(gotAddr.value), Some(word))
    else if word == "true" then Word(BOOLEAN, Truth(true), None)
    else if word == "false" then Word(BOOLEAN, Truth(false), None)
    else Word(SYMBOL, Text(word), None)
  }

  /** The token for a finished symbol. */
  function SymbolToken(s: State, ofs: int): State {
    var w := WordOf(s.buffer, s.gotAddr);
    AddToken(s, w.kind, w.value, ofs, w.data)
  }

  function StepSymbol(lang: Lang, s: State, ch: string, ofs: int): Next {
    if Is(ch, '(') && |s.buffer| > 0 then
      Next(Default, AddToken(s, FCALL, Text(Lower(s.buffer)), ofs, s.gotAddr).(buffer := "", gotAddr := None))
    else if IsSymCh(s.buffer, ch, |s.buffer|) then
      if Is(ch, '.') then
        if s.gotAddr.Some? then Fail(s, SecondNamespace, s.lexStrOfs)
        else Next(Symbol, s.(gotAddr := Some(Lower(s.buffer)), buffer := ""))
      else Next(Symbol, s.(buffer := s.buffer + ch))
    else StepDefault(lang, SymbolToken(s, ofs).(buffer := "", gotAddr := None), ch, ofs)
  }

  function StepStr(s: State, ch: string, ofs: int): Next {
    if IsEnd(ch) then Fail(s, Unterminated, s.lexStrOfs)
    else if s.inEscape then Next(Str, s.(buffer := s.buffer + ch, inEscape := false))
    else if Is(ch, '\"') then Next(Default, AddToken(s, STRING, Text(s.buffer), ofs, None).(buffer := ""))
    else if Is(ch, '\\') then Next(Str, s.(inEscape := true))
    else Next(Str, s.(buffer := s.buffer + ch))
  }

  function StepIn(lang: Lang, scope: Scope, s: State, ch: string, ofs: int): Next {
    match scope
    case Default => StepDefault(lang, s, ch, ofs)
    case WhStr => StepWhStr(lang, s, ch, ofs)
    case Num => StepNum(lang, s, ch, ofs)
    case Symbol => StepSymbol(lang, s, ch, ofs)
    case Str => StepStr(s, ch, ofs)
    case Err => Next(Err, s)
  }

  /** What the driver loop has after some chunks: state function, state, and offset of the next chunk. */
  datatype Config = Config(scope: Scope, s: State, ofs: int)

  function Advance(lang: Lang, c: Config, ch: string): Config {
    var Next(scope, s) := StepIn(lang, c.scope, c.s, ch, c.ofs);
    Config(scope, s.(lastCh := Some(ch)), c.ofs + |ch|)
  }

  /** The loop over the chunks; it stops at the first error. */
  function Feed(lang: Lang, c: Config, chunks: seq<string>): Config
    decreases |chunks|
  {
    if chunks == [] || c.s.error.Some? then c
    else Feed(lang, Advance(lang, c, chunks[0]), chunks[1..])
  }

  function Finish(lang: Lang, c: Config): State {
    StepIn(lang, c.scope, c.s, "\0", c.ofs).s
  }

  /** The driver's last round when `utf8_step` has failed: everything up to the byte before the last is one
      chunk, and the offset is -1. */
  function LastChunk(lang: Lang, c: Config, ch: string): Config {
    var Next(scope, s) := StepIn(lang, c.scope, c.s, ch, c.ofs);
    Config(scope, s.(lastCh := Some(ch)), -1)
  }

  const BEGIN := Config(Default, START, 1)

  /** The message starts with the start of a sequence. */
  predicate Regular(msg: string) {
    msg != "" && !Continues(msg[0])
  }

  /** The whole tokenizer on a message without NUL bytes.  A message that starts inside a sequence makes the
      first step fail. */
  function Tokenize(lang: Lang, msg: string): State {
    if !Regular(msg) then Finish(lang, LastChunk(lang, BEGIN, CutOff(msg, 0)))
    else Finish(lang, Feed(lang, BEGIN, Chunks(msg)))
  }

  /** What `string.sub` gives from `start` on when the end is -2. */
  function CutOff(msg: string, start: nat): string {
    if start < |msg| then msg[start..|msg| - 1] else ""
  }

  /** A state function may raise a Lua error instead of returning. */
  datatype Answer = Answered(s: State) | Raised

  /** The number and the symbol state compare the first byte of a chunk that has none. */
  predicate Raises(c: Config, ch: string) {
    ch == "" && (c.scope.Num? || c.scope.Symbol?)
  }

  /** Where the driver stands when it is through with what `utf8_step` sees of the message. */
  function Reached(lang: Lang, msg: string): Config {
    if Regular(CString(msg)) then Feed(lang, BEGIN, Chunks(CString(msg))) else BEGIN
  }

  /** The chunk that is cut off when `utf8_step` then fails. */
  function Odd(msg: string): string {
    CutOff(msg, if Regular(CString(msg)) then |CString(msg)| else 0)
  }

  /** The whole tokenizer.  `utf8_step` sees the message up to its first NUL byte only and fails there, and
      then everything from there on but the last byte is taken as one chunk. */
  function TokenizeAny(lang: Lang, msg: string): Answer {
    var from := Reached(lang, msg);
    if Regular(CString(msg)) && (CString(msg) == msg || from.s.error.Some?) then Answered(Finish(lang, from))
    else if Raises(from, Odd(msg)) then Raised
    else Answered(Finish(lang, LastChunk(lang, from, Odd(msg))))
  }
}
