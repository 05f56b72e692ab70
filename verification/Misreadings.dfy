/** What the lexer takes for an error inside numbers, names and strings, and exactly when.
    Numbers are followed digit by digit, with their radix points and the letters of their bases.
    What begins no token at all is told for single chunks.
    Errors of the grammar's own words are in module Sentences. */
module Misreadings {
  import opened Common
  import opened Utf8Step
  import opened Lexer
  import opened LexerProofs
  import opened LexerSteps
  import opened Quoting
  import opened Grammar
  import opened LexerReadings

  // ------------------------------------------------------------------ decimal numbers

  function Points(s: string): nat {
    if s == "" then 0 else (if s[0] == '.' then 1 else 0) + Points(s[1..])
  }

  predicate Decimals(s: string) {
    forall i :: 0 <= i < |s| ==> '0' <= s[i] <= '9' || s[i] == '.'
  }

  /** Inside a decimal number. */
  predicate InDecimal(c: Config) {
    c.scope.Num? && c.s.error.None? && c.s.base == 10 && !c.s.numberHex && !c.s.numberBin
  }

  lemma DecimalStep(lang: Lang, c: Config, x: char)
    requires InDecimal(c) && ('0' <= x <= '9' || x == '.')
    ensures var d := Advance(lang, c, [x]);
            if x == '.' && c.s.numberFract then d.scope.Err? && d.s.error == Some(MultipleRadix) && d.s.tok == c.s.tok
            else
              && InDecimal(d) && d.s.buffer == c.s.buffer + [x] && d.s.tok == c.s.tok && d.s.negate == c.s.negate
              && d.s.numberFract == (c.s.numberFract || x == '.')
  {
  }

  /** What a run of digits and points makes of a number. */
  predicate DecimalAfter(c: Config, d: Config, s: string) {
    if Points(s) + (if c.s.numberFract then 1 else 0) <= 1
    then InDecimal(d) && d.s.buffer == c.s.buffer + s && d.s.tok == c.s.tok && d.s.negate == c.s.negate
         && d.s.numberFract == (c.s.numberFract || Points(s) > 0)
    else d.scope.Err? && d.s.error == Some(MultipleRadix) && d.s.tok == c.s.tok
  }

  lemma {:induction false} DecimalRun(lang: Lang, c: Config, s: string)
    requires InDecimal(c) && Decimals(s)
    ensures DecimalAfter(c, Feed(lang, c, Chunks(s)), s)
    decreases |s|
  {
    hide Advance, Chunks, Feed, DecimalAfter;
    if s == "" {
      FeedLast(lang, c);
      NothingAfter(c);
    } else {
      var d := Advance(lang, c, [s[0]]);
      var e := Feed(lang, d, Chunks(s[1..]));
      DecimalStep(lang, c, s[0]);
      assert s == [s[0]] + s[1..] && c.s.error.None?;
      FeedHead(lang, c, s[0], s[1..]);
      if d.s.error.None? {
        DecimalRun(lang, d, s[1..]);
      } else {
        ErrorFed(lang, d, Chunks(s[1..]));
      }
      AfterOneMore(c, d, e, s);
    }
  }

  lemma NothingAfter(c: Config)
    requires InDecimal(c)
    ensures DecimalAfter(c, c, "")
  {
    assert c.s.buffer + "" == c.s.buffer;
  }

  lemma AfterOneMore(c: Config, d: Config, e: Config, s: string)
    requires s != "" && InDecimal(c)
    requires if s[0] == '.' && c.s.numberFract
             then e == d && d.scope.Err? && d.s.error == Some(MultipleRadix) && d.s.tok == c.s.tok
             else InDecimal(d) && d.s.buffer == c.s.buffer + [s[0]] && d.s.tok == c.s.tok
                  && d.s.negate == c.s.negate && d.s.numberFract == (c.s.numberFract || s[0] == '.')
                  && DecimalAfter(d, e, s[1..])
    ensures DecimalAfter(c, e, s)
  {
    assert c.s.buffer + [s[0]] + s[1..] == c.s.buffer + s;
  }

  lemma ErrorFed(lang: Lang, c: Config, chunks: seq<string>)
    requires c.s.error.Some?
    ensures Feed(lang, c, chunks) == c
  {
  }

  /** A run of digits and points that begins with a digit is one number, converted as a whole, unless it has a
      second point or the conversion refuses it. */
  lemma DecimalReadsIff(lang: Lang, s: string)
    requires s != "" && '0' <= s[0] <= '9' && Decimals(s)
    ensures var t, num := Tokenize(lang, s), ToNumber(lang, s, 10);
            && t.error == (if Points(s) > 1 then Some(MultipleRadix)
                           else if num.None? then Some(BadNumber(s, 10)) else None)
            && (t.error.None? ==> t.tok == [Token(NUMBER, Number(num.value), |s| + 1, None)])
            && (t.error.Some? ==> t.tok == [])
  {
    hide Chunks, Tokenize, Finish, Feed, ToNumber;
    var c := Config(Num, START, 1);
    assert (s[1..] != "" ==> s[1] == s[1..][0]) && !Continues(s[0]);
    TokenizeIsFeed(lang, s);
    DigitOpens(lang, s);
    DecimalRun(lang, c, s);
    var d := Feed(lang, c, Chunks(s));
    assert "" + s == s;
    if Points(s) <= 1 {
      FeedOffset(lang, c, Chunks(s));
      ChunksCover(s);
      NumberAtEnd(lang, d);
    } else {
      ErrorLasts(lang, d);
    }
  }

  lemma NumberAtEnd(lang: Lang, d: Config)
    requires d.scope.Num? && d.s.error.None? && d.s.buffer != "" && !d.s.negate
    ensures var t, num := Finish(lang, d), ToNumber(lang, d.s.buffer, d.s.base);
            if num.Some? then t.error.None? && t.tok == d.s.tok + [Token(NUMBER, Number(num.value), d.ofs, None)]
            else t.error == Some(BadNumber(d.s.buffer, d.s.base)) && t.tok == d.s.tok
  {
    hide ToNumber;
    var u := NumToken(lang, d.s, d.ofs);
    assert StepNum(lang, d.s, "\0", d.ofs) == EndNum(lang, d.s, "\0", d.ofs);
    if u.Some? {
      EndInDefault(lang, u.value, d.ofs);
    }
  }

  // ------------------------------------------------------------------ prefixes of a base

  /** The letter of a base is an error exactly behind anything but a single zero. */
  lemma BaseLetterIff(lang: Lang, s: string, mark: char)
    requires s != "" && '0' <= s[0] <= '9' && Decimals(s) && Points(s) <= 1 && mark in {'b', 'x'}
    ensures var t := Tokenize(lang, s + [mark]);
            if s == "0" then t.error.None? && t.tok == [Token(NUMBER, Number(0.0), 3, None)]
            else t.error == Some(if mark == 'b' then BadBinary else BadHex) && t.tok == []
  {
    hide Chunks, Tokenize, Finish, Advance, Feed, DecimalAfter, Decimals, Points;
    var c := Config(Num, START, 1);
    var d := Feed(lang, c, Chunks(s));
    var e := Advance(lang, d, [mark]);
    DigitFirst(lang, s, [mark]);
    DecimalRun(lang, c, s);
    FewPoints(d, s);
    MarkFollows(lang, d, mark);
    TokenizeIsFeed(lang, s + [mark]);
    FeedHead(lang, d, mark, "");
    assert [mark] + "" == [mark];
    FeedLast(lang, e);
    FeedOffset(lang, c, Chunks(s));
    ChunksCover(s);
    if s == "0" {
      MarkedAtEnd(lang, e);
    } else {
      ErrorLasts(lang, e);
    }
  }

  lemma FewPoints(d: Config, s: string)
    requires DecimalAfter(Config(Num, START, 1), d, s) && Points(s) <= 1
    ensures InDecimal(d) && d.s.buffer == s && d.s.tok == [] && !d.s.negate
  {
    assert "" + s == s;
  }

  /** A number that begins a message, fed in two parts. */
  lemma DigitFirst(lang: Lang, s: string, more: string)
    requires s != "" && '0' <= s[0] <= '9' && Decimals(s) && StartsSequence(more)
    ensures Feed(lang, BEGIN, Chunks(s + more))
            == Feed(lang, Feed(lang, Config(Num, START, 1), Chunks(s)), Chunks(more))
    ensures StartsSequence(s + more)
  {
    var whole := s + more;
    assert whole[0] == s[0] && (whole[1..] != "" ==> whole[1] == if |s| > 1 then s[1] else more[0]);
    DigitOpens(lang, whole);
    ChunksAppend(s, more);
    hide Chunks;
    FeedSplit(lang, Config(Num, START, 1), Chunks(s), Chunks(more));
  }

  lemma MarkFollows(lang: Lang, d: Config, mark: char)
    requires InDecimal(d) && d.s.buffer != "" && mark in {'b', 'x'}
    ensures var e := Advance(lang, d, [mark]);
            && e.s.tok == d.s.tok
            && if d.s.buffer == "0"
               then e.scope.Num? && e.s.error.None? && e.s.buffer == "0" && e.s.negate == d.s.negate
                    && e.s.base == (if mark == 'b' then 2 else 16) && e.ofs == d.ofs + 1
               else e.scope.Err? && e.s.error == Some(if mark == 'b' then BadBinary else BadHex)
  {
  }

  /** A prefix with no digits is zero. */
  lemma MarkedAtEnd(lang: Lang, e: Config)
    requires e.scope.Num? && e.s.error.None? && e.s.buffer == "0" && !e.s.negate && e.s.base in {2, 16} && e.s.tok == []
    ensures var t := Finish(lang, e); t.error.None? && t.tok == [Token(NUMBER, Number(0.0), e.ofs, None)]
  {
    NumberAtEnd(lang, e);
    BodyConverts(lang, if e.s.base == 2 then Binary else Hex, "");
    assert "0" + "" == "0";
  }

  /** Behind the prefix of a binary number the first digit that is none of its base is an error. */
  lemma BinaryDigitFails(lang: Lang, digits: string, bad: char, rest: string)
    requires (forall i :: 0 <= i < |digits| ==> DigitOf(Binary, digits[i])) && '2' <= bad <= '9'
    requires StartsSequence(rest)
    ensures var t := Tokenize(lang, "0b" + (digits + ([bad] + rest)));
            t.error == Some(BadBinaryDigit([bad])) && t.tok == []
  {
    var more := [bad] + rest;
    var c := Config(Num, START, 1);
    var b := PrefixRun(lang, c, Binary, digits);
    var d := Feed(lang, b, Chunks(digits));
    BinaryFed(lang, c, b, digits, more);
    TailDigits(b.s, Binary, digits);
    hide Feed, Chunks, Advance, Finish, Tokenize;
    NumeralRun(lang, b, digits);
    BadDigit(lang, d, bad);
    FeedHead(lang, d, bad, rest);
    ErrorFed(lang, Advance(lang, d, [bad]), Chunks(rest));
    TokenizeIsFeed(lang, "0b" + (digits + more));
    ErrorLasts(lang, Advance(lang, d, [bad]));
  }

  lemma BinaryFed(lang: Lang, c: Config, b: Config, digits: string, more: string)
    requires c == Config(Num, START, 1) && StartsSequence(digits) && StartsSequence(more) && more != ""
    requires Feed(lang, c, Chunks(Unsigned(Binary, digits))) == Feed(lang, b, Chunks(digits))
    ensures Feed(lang, BEGIN, Chunks("0b" + (digits + more)))
            == Feed(lang, Feed(lang, b, Chunks(digits)), Chunks(more))
    ensures StartsSequence("0b" + (digits + more))
  {
    hide Chunks, Feed;
    var u := Unsigned(Binary, digits);
    PrefixStarts(digits, more);
    DigitOpens(lang, u + more);
    ChunksAppend(u, more);
    FeedSplit(lang, c, Chunks(u), Chunks(more));
  }

  lemma PrefixStarts(digits: string, more: string)
    ensures var u := Unsigned(Binary, digits);
            "0b" + (digits + more) == u + more && (u + more)[0] == '0' && (u + more)[1..][0] == 'b'
  {
  }

  lemma BadDigit(lang: Lang, d: Config, bad: char)
    requires InNumeral(d) && d.s.numberBin && '2' <= bad <= '9'
    ensures var e := Advance(lang, d, [bad]);
            e.scope.Err? && e.s.error == Some(BadBinaryDigit([bad])) && e.s.tok == d.s.tok
  {
  }

  /** A second letter of the same base is an error, wherever it comes. */
  lemma SecondPrefixFails(lang: Lang, radix: Radix, digits: string, rest: string)
    requires !radix.Decimal? && (forall i :: 0 <= i < |digits| ==> DigitOf(radix, digits[i])) && StartsSequence(rest)
    ensures var mark := if radix.Hex? then 'x' else 'b';
            Tokenize(lang, Unsigned(radix, digits) + ([mark] + rest)).error
            == Some(if radix.Hex? then BadHex else BadBinary)
  {
    var mark := if radix.Hex? then 'x' else 'b';
    var c, more, u := Config(Num, START, 1), [mark] + rest, Unsigned(radix, digits);
    var b := PrefixRun(lang, c, radix, digits);
    var d := Feed(lang, b, Chunks(digits));
    TailDigits(b.s, radix, digits);
    hide Feed, Chunks, Advance, Finish, Tokenize;
    NumeralRun(lang, b, digits);
    assert u[0] == '0' && (u + more)[0] == '0' && (u + more)[1] == u[1];
    DigitOpens(lang, u + more);
    ChunksAppend(u, more);
    FeedSplit(lang, c, Chunks(u), Chunks(more));
    MarkAgain(lang, d, mark);
    FeedHead(lang, d, mark, rest);
    ErrorFed(lang, Advance(lang, d, [mark]), Chunks(rest));
    TokenizeIsFeed(lang, u + more);
    ErrorLasts(lang, Advance(lang, d, [mark]));
  }

  lemma MarkAgain(lang: Lang, d: Config, mark: char)
    requires InNumeral(d) && (if mark == 'x' then d.s.numberHex else mark == 'b' && d.s.numberBin && !d.s.numberHex)
    ensures var e := Advance(lang, d, [mark]);
            e.scope.Err? && e.s.error == Some(if mark == 'x' then BadHex else BadBinary)
  {
  }

  /** A point at the front of a number of normal mode counts as its radix point, although it is dropped. */
  lemma LeadingPointReadsIff(lang: Lang, s: string)
    requires !lang.simple && s != "" && '0' <= s[0] <= '9' && Decimals(s)
    ensures var t, num := Tokenize(lang, "." + s), ToNumber(lang, s, 10);
            && t.error == (if Points(s) > 0 then Some(MultipleRadix)
                           else if num.None? then Some(BadNumber(s, 10)) else None)
            && (t.error.None? ==> t.tok == [Token(NUMBER, Number(num.value), |s| + 2, None)])
  {
    var c := Advance(lang, BEGIN, ".");
    var d := Feed(lang, c, Chunks(s));
    PointBegins(lang);
    DecimalRun(lang, c, s);
    TokenizeIsFeed(lang, "." + s);
    assert "" + s == s && "." + s == ['.'] + s;
    hide Chunks, Tokenize, Finish, Advance;
    FeedHead(lang, BEGIN, '.', s);
    if Points(s) == 0 {
      FeedOffset(lang, c, Chunks(s));
      ChunksCover(s);
      NumberAtEnd(lang, d);
    } else {
      ErrorLasts(lang, d);
    }
    hide Feed;
  }

  lemma PointBegins(lang: Lang)
    requires !lang.simple
    ensures var c := Advance(lang, BEGIN, ".");
            InDecimal(c) && c.s.numberFract && c.s.buffer == "" && !c.s.negate && c.s.tok == [] && c.ofs == 2
  {
  }

  // ------------------------------------------------------------------ names and strings

  /** A second point behind a namespace and a word is an error. */
  lemma SecondNamespaceFails(lang: Lang, space: string, word: string, rest: string)
    requires !lang.simple && IsName(space) && IsName(word) && StartsSequence(rest)
    ensures Tokenize(lang, space + ("." + (word + ("." + rest)))).error == Some(SecondNamespace)
  {
    var more := "." + rest;
    var msg := space + ("." + (word + more));
    assert more == ['.'] + rest && msg[0] == space[0] && (word + more)[0] == word[0];
    assert !Continues(space[0]) && !Continues(word[0]);
    var e := PointRead(lang, space, word + more);
    var f := AddressedRun(lang, e, word);
    ChunksAppend(word, more);
    PointAgain(lang, f);
    hide Feed, Chunks, Advance, Finish, Tokenize;
    FeedSplit(lang, e, Chunks(word), Chunks(more));
    FeedHead(lang, f, '.', rest);
    ErrorFed(lang, Advance(lang, f, "."), Chunks(rest));
    TokenizeIsFeed(lang, msg);
    ErrorLasts(lang, Advance(lang, f, "."));
  }

  lemma PointAgain(lang: Lang, f: Config)
    requires f.scope.Symbol? && f.s.error.None? && f.s.buffer != "" && f.s.gotAddr.Some?
    ensures var e := Advance(lang, f, "."); e.scope.Err? && e.s.error == Some(SecondNamespace)
  {
    assert IsSymCh(f.s.buffer, ".", |f.s.buffer|);
  }

  /** A quoted string without its closing quote is an error, at the offset of the opening one. */
  lemma UnterminatedFails(lang: Lang, text: string)
    requires Plain(text) && StartsSequence(text)
    ensures var t := Tokenize(lang, "\"" + Escape(Special, text));
            t.error == Some(Unterminated) && t.errorOfs == Some(1) && t.tok == []
  {
    var c, e := Advance(lang, BEGIN, "\""), Escape(Special, text);
    EscapeStarts(Special, text);
    OpeningQuote(lang);
    QuoteAtOne(lang);
    hide Advance, Chunks, Escape, Finish, StepIn, Feed, Tokenize;
    EscapedBuffered(lang, c, Special, text);
    QuoteFirst(lang, e);
    StringAtEnd(lang, Feed(lang, c, Chunks(e)));
  }

  lemma QuoteAtOne(lang: Lang)
    ensures Advance(lang, BEGIN, "\"").s.lexStrOfs == Some(1)
  {
  }

  lemma QuoteFirst(lang: Lang, e: string)
    requires StartsSequence(e)
    ensures Tokenize(lang, "\"" + e) == Finish(lang, Feed(lang, Advance(lang, BEGIN, "\""), Chunks(e)))
  {
    ChunksAppend("\"", e);
    SingleChunk("\"");
    hide Chunks, Advance, Finish;
    assert (["\""] + Chunks(e))[1..] == Chunks(e);
  }

  lemma StringAtEnd(lang: Lang, d: Config)
    requires InString(d)
    ensures var t := Finish(lang, d); t.error == Some(Unterminated) && t.errorOfs == d.s.lexStrOfs && t.tok == d.s.tok
  {
  }

  // ------------------------------------------------------------------ what begins nothing

  /** Where a token may begin, exactly a chunk that is no end, starts with neither a digit nor a letter, and is no
      point, quote, blank or operator, is an invalid token. */
  lemma InvalidIff(lang: Lang, s: State, ch: string, ofs: int)
    requires s.buffer == "" && s.error.None?
    ensures StepDefault(lang, s, ch, ofs).s.error == Some(InvalidToken(ch))
            <==> !IsEnd(ch) && !IsNum(ch) && !IsAlpha(ch) && !Is(ch, '.') && !Is(ch, '\"') && !IsSpace(ch)
                 && OperatorCode(ch).None?
  {
    hide StepOperator, StepNum, OperatorCode, IsSpace, Is, IsEnd, IsNum, IsSymCh, IsAlpha, FreshNumber;
    NameBegun(s.buffer, ch);
    FreshClean(s);
    if OperatorCode(ch).Some? {
      OperatorBlames(lang, s, ch, ofs);
    }
    if IsNum(ch) {
      DigitNotInvalid(lang, FreshNumber(s, false), ch, ofs);
    }
  }

  lemma NameBegun(buffer: string, ch: string)
    requires buffer == ""
    ensures IsSymCh(buffer, ch, 0) ==> IsAlpha(ch)
    ensures IsAlpha(ch) ==> !IsEnd(ch) && IsSymCh(buffer, ch, 0)
  {
  }

  lemma FreshClean(s: State)
    ensures FreshNumber(s, true).error == FreshNumber(s, false).error == s.error
  {
  }

  lemma DigitNotInvalid(lang: Lang, s: State, ch: string, ofs: int)
    requires IsNum(ch) && s.error.None?
    ensures var n := StepNum(lang, s, ch, ofs); n.s.error.Some? ==> !n.s.error.value.InvalidToken?
  {
  }
}
