/** Each kind of word of the grammar is read as the token it stands for: names, addresses, calls, signs and
    numerals.
    The proofs follow one word through the lexer, character by character.  Bare words, quoted strings and
    lists of words are in module Sentences. */
module LexerReadings {
  import opened Common
  import opened Utf8Step
  import opened Lexer
  import opened LexerProofs
  import opened Grammar

  // ------------------------------------------------------------------ one word

  lemma ReadsIf(lang: Lang, msg: string, d: Config, r: Reading)
    requires StartsSequence(msg) && d == Feed(lang, BEGIN, Chunks(msg)) && !d.s.whstrEscape
    requires var t := Finish(lang, d); t.error.None? && |t.tok| == 1 && Says(t.tok[0], r)
    ensures ReadsAs(lang, msg, r)
  {
    TokenizeIsFeed(lang, msg);
    hide Finish, Feed, Chunks, Tokenize;
  }

  lemma FeedLast(lang: Lang, c: Config)
    ensures Feed(lang, c, Chunks("")) == c
  {
  }

  lemma NameReads(lang: Lang, word: string)
    requires IsName(word)
    ensures ReadsAs(lang, word, Meaning(lang, Name(word)))
  {
    assert !Continues(word[0]);
    hide Finish, Chunks, Meaning, Buffered, IsName, NameStart;
    var d := NameBegins(lang, word, "");
    assert word + "" == word;
    FeedLast(lang, d);
    NameEnds(lang, word, d);
    hide Feed;
    ReadsIf(lang, word, d, Meaning(lang, Name(word)));
  }

  lemma NameEnds(lang: Lang, word: string, d: Config)
    requires IsName(word) && Buffered(NameStart(lang), d, word)
    ensures var t := Finish(lang, d);
            t.error.None? && !d.s.whstrEscape && |t.tok| == 1 && Says(t.tok[0], Meaning(lang, Name(word)))
  {
    assert "" + word == word;
    assert !IsSymCh(d.s.buffer, "\0", |d.s.buffer|);
  }

  lemma CallReads(lang: Lang, word: string)
    requires WellFormed(lang, Call(word))
    ensures ReadsAs(lang, word + "(", Meaning(lang, Call(word)))
  {
    var d := NameBegins(lang, word, "(");
    var e := Advance(lang, d, "(");
    CallEnds(lang, word, d);
    hide Advance, Finish, Meaning, Buffered;
    assert "(" + "" == "(" && !Continues((word + "(")[0]);
    FeedHead(lang, d, '(', "");
    FeedLast(lang, e);
    hide Feed, Chunks;
    ReadsIf(lang, word + "(", e, Meaning(lang, Call(word)));
  }

  lemma CallEnds(lang: Lang, word: string, d: Config)
    requires WellFormed(lang, Call(word)) && Buffered(NameStart(lang), d, word)
    ensures var e := Advance(lang, d, "(");
            var t := Finish(lang, e);
            && d.s.error.None? && !e.s.whstrEscape
            && t.error.None? && |t.tok| == 1 && Says(t.tok[0], Meaning(lang, Call(word)))
  {
    assert "" + word == word;
  }

  /** Behind the point of an address. */
  predicate Addressed(c: Config, space: string) {
    && c.scope.Symbol? && c.s.error.None? && c.s.buffer == "" && c.s.gotAddr == Some(Lower(space))
    && c.s.tok == [] && !c.s.whstrEscape
  }

  lemma AddressReads(lang: Lang, space: string, word: string)
    requires WellFormed(lang, Address(space, word))
    ensures ReadsAs(lang, space + "." + word, Meaning(lang, Address(space, word)))
  {
    var msg := space + "." + word;
    assert msg == space + ("." + word) && !Continues(msg[0]);
    assert word != "" ==> !Continues(word[0]);
    hide Advance, Meaning, Finish, Chunks;
    var e := PointRead(lang, space, word);
    var f := AddressedRun(lang, e, word);
    hide Feed;
    AddressEnds(lang, f, space, word);
    ReadsIf(lang, msg, f, Meaning(lang, Address(space, word)));
  }

  /** A namespace and the point behind it. */
  lemma PointRead(lang: Lang, space: string, rest: string) returns (e: Config)
    requires !lang.simple && IsName(space) && StartsSequence(rest)
    ensures Feed(lang, BEGIN, Chunks(space + ("." + rest))) == Feed(lang, e, Chunks(rest))
    ensures Addressed(e, space)
  {
    assert "." + rest == ['.'] + rest;
    hide Meaning, Buffered, Chunks, IsName;
    var d := NameBegins(lang, space, "." + rest);
    e := Advance(lang, d, ".");
    PointFollows(lang, space, d);
    FeedHead(lang, d, '.', rest);
  }

  lemma AddressCallReads(lang: Lang, space: string, word: string)
    requires WellFormed(lang, AddressCall(space, word))
    ensures ReadsAs(lang, space + "." + word + "(", Meaning(lang, AddressCall(space, word)))
  {
    var msg := space + "." + word + "(";
    assert msg == space + ("." + (word + "(")) && !Continues(msg[0]);
    assert !Continues(word[0]) && word != "" && "(" + "" == "(";
    hide Advance, Meaning, Finish, Chunks, Feed;
    var e := PointRead(lang, space, word + "(");
    var f := AddressedRun(lang, e, word);
    ChunksAppend(word, "(");
    FeedSplit(lang, e, Chunks(word), Chunks("("));
    FeedHead(lang, f, '(', "");
    FeedLast(lang, Advance(lang, f, "("));
    AddressCallEnds(lang, f, space, word);
    ReadsIf(lang, msg, Advance(lang, f, "("), Meaning(lang, AddressCall(space, word)));
  }

  lemma AddressCallEnds(lang: Lang, d: Config, space: string, word: string)
    requires WellFormed(lang, AddressCall(space, word))
    requires Addressed(d.(s := d.s.(buffer := "")), space) && d.s.buffer == word
    ensures var e := Advance(lang, d, "(");
            var t := Finish(lang, e);
            && !e.s.whstrEscape
            && t.error.None? && |t.tok| == 1 && Says(t.tok[0], Meaning(lang, AddressCall(space, word)))
  {
  }

  lemma PointFollows(lang: Lang, space: string, d: Config)
    requires !lang.simple && IsName(space) && Buffered(NameStart(lang), d, space)
    ensures d.s.error.None? && Addressed(Advance(lang, d, "."), space)
  {
    assert "" + space == space;
  }

  lemma AddressedRun(lang: Lang, c: Config, word: string) returns (d: Config)
    requires c.scope.Symbol? && c.s.error.None? && c.s.buffer == "" && (word == "" || IsName(word))
    ensures d == Feed(lang, c, Chunks(word))
    ensures Buffered(c, d, word) && d.s.buffer == word
  {
    hide Advance, Chunks, Feed, InName, IsName, NameTail;
    assert "" + word == word;
    if word == "" {
      d := c;
      FeedLast(lang, c);
    } else {
      var x, tail := word[0], word[1..];
      var a := Advance(lang, c, [x]);
      NameParts(word);
      AddressGoesOn(lang, c, x);
      d := Feed(lang, a, Chunks(tail));
      FeedHead(lang, c, x, tail);
      NameRun(lang, a, tail);
      BufferedThen(c, a, d, [x], tail);
    }
  }

  lemma NameParts(word: string)
    requires IsName(word)
    ensures word == [word[0]] + word[1..] && Letter(word[0]) && !Continues(word[0]) && StartsSequence(word[1..])
    ensures forall i :: 0 <= i < |word[1..]| ==> NameTail(word[1..][i])
  {
    assert word[1..] != "" ==> NameTail(word[1..][0]);
  }

  lemma AddressGoesOn(lang: Lang, c: Config, x: char)
    requires c.scope.Symbol? && c.s.error.None? && c.s.buffer == "" && Letter(x)
    ensures var a := Advance(lang, c, [x]); Buffered(c, a, [x]) && InName(a)
  {
    NameChar(x);
    assert IsSymCh("", [x], 0) && "" + [x] == [x];
  }

  lemma AddressEnds(lang: Lang, d: Config, space: string, word: string)
    requires WellFormed(lang, Address(space, word))
    requires Addressed(d.(s := d.s.(buffer := "")), space) && d.s.buffer == word
    ensures var t := Finish(lang, d);
            t.error.None? && |t.tok| == 1 && Says(t.tok[0], Meaning(lang, Address(space, word)))
  {
    assert !IsSymCh(d.s.buffer, "\0", |d.s.buffer|);
  }

  lemma SignReads(lang: Lang, sign: char)
    requires WellFormed(lang, Sign(sign))
    ensures ReadsAs(lang, [sign], Meaning(lang, Sign(sign)))
  {
    hide Advance, Finish, Meaning, Feed, Chunks;
    var d := Advance(lang, BEGIN, [sign]);
    SignEnds(lang, sign);
    assert !Continues(sign);
    FeedHead(lang, BEGIN, sign, "");
    assert [sign] + "" == [sign];
    FeedLast(lang, d);
    ReadsIf(lang, [sign], d, Meaning(lang, Sign(sign)));
  }

  /** No two operators are read as the same token. */
  lemma OperatorsDiffer(x: string, y: string)
    requires OperatorCode(x).Some? && OperatorCode(x) == OperatorCode(y)
    ensures x == y
  {
    assert x == [x[0]] && y == [y[0]];
  }

  lemma SignEnds(lang: Lang, sign: char)
    requires WellFormed(lang, Sign(sign))
    ensures var d := Advance(lang, BEGIN, [sign]);
            var t := Finish(lang, d);
            && !d.s.whstrEscape && t.error.None?
            && |t.tok| == 1 && Says(t.tok[0], Meaning(lang, Sign(sign)))
  {
    assert !IsSymCh("", [sign], 0) && !IsNum([sign]) && !Is([sign], '.');
    assert StepDefault(lang, START, [sign], 1) == StepOperator(lang, START, [sign], 1);
    hide OperatorCode;
    if !lang.simple && sign == '-' {
      var s := FreshNumber(START.(negate := true), false);
      assert StepOperator(lang, START, "-", 1) == Next(Num, s);
      MinusEnds(lang, s.(lastCh := Some("-")));
    }
  }

  /** A sign with nothing behind it. */
  lemma MinusEnds(lang: Lang, s: State)
    requires s.negate && s.buffer == "" && s.error.None?
    ensures StepNum(lang, s, "\0", 2).s == AddToken(s, OPERATOR, Operator(OP_SUB), 2, None).(negate := false)
  {
    assert StepNum(lang, s, "\0", 2) == EndNum(lang, s, "\0", 2);
    assert EndNum(lang, s, "\0", 2) == StepDefault(lang, NumToken(lang, s, 2).value, "\0", 2);
  }

  /** Inside a number of which only a sign may have been read. */
  predicate NumeralStart(c: Config) {
    && c.scope.Num? && c.s.error.None? && c.s.buffer == "" && c.s.base == 10
    && !c.s.numberHex && !c.s.numberBin && !c.s.whstrEscape
  }

  /** Inside a number of which everything has been read. */
  predicate NumeralDone(c: Config, d: Config, radix: Radix, digits: string) {
    && d.scope.Num? && d.s.error.None? && d.s.buffer == Body(radix, digits) && d.s.base == BaseOf(radix)
    && d.s.negate == c.s.negate && d.s.tok == c.s.tok && !d.s.whstrEscape
  }

  lemma PrefixFollows(lang: Lang, c: Config, radix: Radix)
    requires NumeralStart(c) && !radix.Decimal?
    ensures var a := Advance(lang, c, "0");
            var b := Advance(lang, a, if radix.Hex? then "x" else "b");
            && a.s.error.None? && InNumeral(b) && b.s.buffer == "0" && b.s.base == BaseOf(radix)
            && b.s.numberHex == radix.Hex? && b.s.numberBin == radix.Binary?
            && b.s.negate == c.s.negate && b.s.tok == c.s.tok && !b.s.whstrEscape
  {
    assert "" + "0" == "0";
  }

  lemma UnsignedRun(lang: Lang, c: Config, radix: Radix, digits: string)
    requires NumeralStart(c) && forall i :: 0 <= i < |digits| ==> DigitOf(radix, digits[i])
    ensures NumeralDone(c, Feed(lang, c, Chunks(Unsigned(radix, digits))), radix, digits)
  {
    hide Advance;
    if radix.Decimal? {
      assert Unsigned(radix, digits) == digits && "" + digits == digits;
      NumeralRun(lang, c, digits);
    } else {
      var b := PrefixRun(lang, c, radix, digits);
      TailDigits(b.s, radix, digits);
      hide Feed, Chunks;
      NumeralRun(lang, b, digits);
    }
  }

  lemma TailDigits(s: State, radix: Radix, digits: string)
    requires s.numberHex == radix.Hex? && s.numberBin == radix.Binary?
    requires forall i :: 0 <= i < |digits| ==> DigitOf(radix, digits[i])
    ensures forall i :: 0 <= i < |digits| ==> NumeralTail(s, digits[i])
  {
  }

  /** The prefix of a number base. */
  lemma PrefixRun(lang: Lang, c: Config, radix: Radix, digits: string) returns (b: Config)
    requires NumeralStart(c) && !radix.Decimal? && StartsSequence(digits)
    ensures Feed(lang, c, Chunks(Unsigned(radix, digits))) == Feed(lang, b, Chunks(digits))
    ensures InNumeral(b) && b.s.buffer == "0" && b.s.base == BaseOf(radix)
    ensures b.s.numberHex == radix.Hex? && b.s.numberBin == radix.Binary?
    ensures b.s.negate == c.s.negate && b.s.tok == c.s.tok && !b.s.whstrEscape
  {
    var mark := if radix.Hex? then 'x' else 'b';
    var a := Advance(lang, c, "0");
    b := Advance(lang, a, [mark]);
    PrefixFollows(lang, c, radix);
    hide Advance;
    assert Unsigned(radix, digits) == ['0'] + ([mark] + digits);
    FeedHead(lang, c, '0', [mark] + digits);
    FeedHead(lang, a, mark, digits);
  }

  lemma NumeralReads(lang: Lang, x: Lexeme)
    requires x.Numeral? && WellFormed(lang, x)
    ensures ReadsAs(lang, Written(x), Meaning(lang, x))
  {
    var u := Unsigned(x.radix, x.digits);
    var c := NumeralOpens(lang, x);
    UnsignedRun(lang, c, x.radix, x.digits);
    var d := Feed(lang, c, Chunks(u));
    NumeralEnds(lang, x, c, d);
    hide Feed, Chunks, Meaning, Finish;
    ReadsIf(lang, Written(x), d, Meaning(lang, x));
  }

  /** The start of a numeral, signed or not, comes down to the number state with nothing read. */
  lemma NumeralOpens(lang: Lang, x: Lexeme) returns (c: Config)
    requires x.Numeral? && WellFormed(lang, x)
    ensures NumeralStart(c) && c.s.negate == x.negative && c.s.tok == []
    ensures Feed(lang, BEGIN, Chunks(Written(x))) == Feed(lang, c, Chunks(Unsigned(x.radix, x.digits)))
    ensures StartsSequence(Written(x))
  {
    var u := Unsigned(x.radix, x.digits);
    assert u != "" && '0' <= u[0] <= '9';
    hide Chunks, Feed;
    if x.negative {
      c := Advance(lang, BEGIN, "-");
      MinusOpens(lang);
      FeedHead(lang, BEGIN, '-', u);
      assert "-" + u == ['-'] + u;
    } else {
      c := Config(Num, START, 1);
      UnsignedTail(x);
      hide Unsigned, WellFormed;
      assert "" + u == u;
      DigitOpens(lang, u);
    }
  }

  lemma UnsignedTail(x: Lexeme)
    requires x.Numeral? && (x.radix.Decimal? ==> x.digits != "")
    requires forall i :: 0 <= i < |x.digits| ==> DigitOf(x.radix, x.digits[i])
    ensures var u := Unsigned(x.radix, x.digits); u != "" && '0' <= u[0] <= '9' && StartsSequence(u[1..])
  {
  }

  lemma MinusOpens(lang: Lang)
    requires !lang.simple
    ensures var c := Advance(lang, BEGIN, "-"); NumeralStart(c) && c.s.negate && c.s.tok == []
  {
  }

  /** A digit from the default state is a digit in the number state. */
  lemma DigitOpens(lang: Lang, u: string)
    requires u != "" && '0' <= u[0] <= '9' && StartsSequence(u[1..])
    ensures Feed(lang, BEGIN, Chunks(u)) == Feed(lang, Config(Num, START, 1), Chunks(u))
  {
    var y, rest := u[0], u[1..];
    assert u == [y] + rest;
    assert FreshNumber(START, false) == START;
    assert StepDefault(lang, START, [y], 1) == StepNum(lang, START, [y], 1);
    assert Advance(lang, BEGIN, [y]) == Advance(lang, Config(Num, START, 1), [y]);
    hide Advance, Chunks;
    FeedHead(lang, BEGIN, y, rest);
    FeedHead(lang, Config(Num, START, 1), y, rest);
  }

  lemma NumeralEnds(lang: Lang, x: Lexeme, c: Config, d: Config)
    requires x.Numeral? && WellFormed(lang, x) && c.s.negate == x.negative && c.s.tok == []
    requires NumeralDone(c, d, x.radix, x.digits)
    ensures var t := Finish(lang, d);
            t.error.None? && |t.tok| == 1 && Says(t.tok[0], Meaning(lang, x))
  {
    BodyConverts(lang, x.radix, x.digits);
    hide ToNumber, Positional, Body;
    assert StepNum(lang, d.s, "\0", d.ofs) == EndNum(lang, d.s, "\0", d.ofs);
    assert EndNum(lang, d.s, "\0", d.ofs) == StepDefault(lang, NumToken(lang, d.s, d.ofs).value, "\0", d.ofs);
  }

  /** The digits are converted to their positional value, the leading zero of a prefix changing nothing. */
  lemma BodyConverts(lang: Lang, radix: Radix, digits: string)
    requires forall i :: 0 <= i < |digits| ==> DigitOf(radix, digits[i])
    requires (radix.Decimal? ==> digits != "") && Positional(digits, BaseOf(radix)) <= MAX_EXACT
    ensures ToNumber(lang, Body(radix, digits), BaseOf(radix)) == Some(Positional(digits, BaseOf(radix)) as real)
  {
    hide Positional, Body;
    LeadingZero(digits, BaseOf(radix));
    BodyIsIntegral(radix, digits);
  }

  lemma BodyIsIntegral(radix: Radix, digits: string)
    requires (radix.Decimal? ==> digits != "") && forall i :: 0 <= i < |digits| ==> DigitOf(radix, digits[i])
    ensures Body(radix, digits) != "" && IsIntegral(Body(radix, digits), BaseOf(radix))
    ensures Body(radix, digits) == if radix.Decimal? then digits else "0" + digits
  {
    var zeroed := "0" + digits;
    assert "" + digits == digits;
    assert forall i :: 0 <= i < |zeroed| ==> zeroed[i] == if i == 0 then '0' else digits[i - 1];
  }

  lemma {:induction false} LeadingZero(digits: string, base: nat)
    ensures Positional("0" + digits, base) == Positional(digits, base)
    decreases |digits|
  {
    if digits == "" {
      assert "0" + digits == "0" && "0"[..0] == "";
    } else {
      var n := |digits| - 1;
      var zeroed := "0" + digits;
      LeadingZero(digits[..n], base);
      assert zeroed[..|zeroed| - 1] == "0" + digits[..n];
    }
  }

  // ------------------------------------------------------------------ numbers and names round trip

  function DigitChar(v: nat): char
    requires v < 16
  {
    "0123456789abcdef"[v]
  }

  /** A number as it is written. */
  function DigitsOf(n: nat, base: nat): string
    requires 2 <= base <= 16
  {
    if n < base then [DigitChar(n)] else DigitsOf(n / base, base) + [DigitChar(n % base)]
  }

  lemma {:induction false} DigitsValue(n: nat, radix: Radix)
    ensures var s := DigitsOf(n, BaseOf(radix));
            s != "" && Positional(s, BaseOf(radix)) == n && forall i :: 0 <= i < |s| ==> DigitOf(radix, s[i])
    decreases n
  {
    var base := BaseOf(radix);
    DigitIs(n % base);
    if n < base {
      var s := [DigitChar(n)];
      assert s[..0] == "" && Positional(s[..0], base) == 0;
    } else {
      DigitsValue(n / base, radix);
      var s, front := DigitsOf(n, base), DigitsOf(n / base, base);
      assert s[..|s| - 1] == front && s[|s| - 1] == DigitChar(n % base);
    }
  }

  lemma DigitIs(v: nat)
    requires v < 16
    ensures DigitValue(DigitChar(v)) == v && DigitOf(Hex, DigitChar(v))
    ensures (v < 10 ==> DigitOf(Decimal, DigitChar(v))) && (v < 2 ==> DigitOf(Binary, DigitChar(v)))
    ensures v >= 10 ==> DigitValue(("ABCDEF")[v - 10]) == v
  {
  }

  /** Every number that all versions of Lua convert exactly, written in any base, is read back as it is. */
  lemma NumberRoundTrips(lang: Lang, n: nat, radix: Radix, negative: bool)
    requires n <= MAX_EXACT && (negative ==> !lang.simple)
    ensures var s := (if negative then "-" else "") + Unsigned(radix, DigitsOf(n, BaseOf(radix)));
            ReadsAs(lang, s, Reading(NUMBER, Number(if negative then -(n as real) else n as real), None))
  {
    hide ReadsAs, Positional, DigitsOf, Unsigned;
    DigitsValue(n, radix);
    NumeralReads(lang, Numeral(negative, radix, DigitsOf(n, BaseOf(radix))));
  }

  /** The same letter, or the same but for its case. */
  predicate SameLetter(c: char, d: char) {
    c == d || (Letter(c) && Letter(d) && (c as int - d as int == 32 || d as int - c as int == 32))
  }

  /** Two names are lowered to the same word exactly when they differ in case only. */
  lemma CaseIgnoredIff(x: string, y: string)
    ensures Lower(x) == Lower(y) <==> |x| == |y| && forall i :: 0 <= i < |x| ==> SameLetter(x[i], y[i])
  {
    if Lower(x) == Lower(y) {
      forall i | 0 <= i < |x|
        ensures SameLetter(x[i], y[i])
      {
        assert Lower(x)[i] == Lower(y)[i];
        SameLowerIff(x[i], y[i]);
      }
    } else if |x| == |y| {
      var i :| 0 <= i < |x| && Lower(x)[i] != Lower(y)[i];
      SameLowerIff(x[i], y[i]);
    }
  }

  lemma SameLowerIff(c: char, d: char)
    ensures LowerChar(c) == LowerChar(d) <==> SameLetter(c, d)
  {
  }
}
