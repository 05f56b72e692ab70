/** Quoting: any string in double quotes, with quotes and backslashes escaped, is read back as it is. */
module Quoting {
  import opened Utf8Step
  import opened Lexer
  import opened LexerProofs
  import opened Landing
  import opened Composition

  predicate Special(c: char) {
    c == '\"' || c == '\\'
  }

  /** A backslash in front of every special character. */
  function Escape(special: char -> bool, s: string): string {
    if s == "" then ""
    else (if special(s[0]) then ['\\', s[0]] else [s[0]]) + Escape(special, s[1..])
  }

  /** What continues a sequence is not special. */
  ghost predicate StartsOnly(special: char -> bool) {
    forall c :: special(c) ==> !Continues(c)
  }

  /** At least the quotes and backslashes are escaped, and only whole sequences. */
  ghost predicate Covers(special: char -> bool) {
    StartsOnly(special) && forall c :: Special(c) ==> special(c)
  }

  /** A backslash in front of every quote and backslash. */
  function Quote(s: string): string {
    "\"" + Escape(Special, s) + "\""
  }

  function JoinQuoted(list: seq<string>): string {
    if list == [] then ""
    else if |list| == 1 then Quote(list[0])
    else Quote(list[0]) + " " + JoinQuoted(list[1..])
  }

  /** The tokens are exactly the strings of the list. */
  predicate AreStrings(tok: seq<Token>, list: seq<string>) {
    |tok| == |list| &&
    forall i :: 0 <= i < |list| ==> tok[i].kind.STRING? && tok[i].value == Text(list[i]) && tok[i].data.None?
  }

  lemma {:induction false} EscapeAppend(special: char -> bool, a: string, b: string)
    ensures Escape(special, a + b) == Escape(special, a) + Escape(special, b)
  {
    if a == "" {
      assert a + b == b;
    } else {
      assert (a + b)[1..] == a[1..] + b;
      EscapeAppend(special, a[1..], b);
    }
  }

  lemma {:induction false} EscapeContinuing(special: char -> bool, s: string)
    requires StartsOnly(special) && forall i :: 0 <= i < |s| ==> Continues(s[i])
    ensures Escape(special, s) == s
  {
    if s != "" {
      EscapeContinuing(special, s[1..]);
    }
  }

  lemma EscapeStarts(special: char -> bool, s: string)
    requires StartsSequence(s)
    ensures StartsSequence(Escape(special, s)) && (Escape(special, s) == "" <==> s == "")
  {
  }

  lemma {:induction false} EscapePlain(special: char -> bool, s: string)
    requires Plain(s)
    ensures Plain(Escape(special, s))
  {
    if s != "" {
      EscapePlain(special, s[1..]);
    }
  }

  lemma EscapeHead(special: char -> bool, head: string)
    requires StartsOnly(special) && head != "" && forall i :: 1 <= i < |head| ==> Continues(head[i])
    ensures Escape(special, head) == if special(head[0]) then "\\" + head else head
  {
    EscapeContinuing(special, head[1..]);
  }

  lemma AppendAssoc<T>(a: seq<T>, b: seq<T>, c: seq<T>)
    ensures (a + b) + c == a + (b + c)
  {
  }

  lemma ConsTwice<T>(x: T, y: T, s: seq<T>)
    ensures [x] + ([y] + s) == [x, y] + s && ([x] + s)[1..] == s
  {
  }

  /** Escaping works chunk by chunk. */
  lemma EscapeChunks(special: char -> bool, head: string, rest: string)
    requires StartsOnly(special) && StartsSequence(rest)
    requires head != "" && (forall i :: 1 <= i < |head| ==> Continues(head[i])) && !Continues(head[0])
    ensures Chunks(Escape(special, head + rest))
            == (if special(head[0]) then ["\\", head] else [head]) + Chunks(Escape(special, rest))
  {
    hide Chunks, Escape;
    EscapeAppend(special, head, rest);
    EscapeHead(special, head);
    EscapeStarts(special, rest);
    SingleChunk(head);
    SingleChunk("\\");
    var e := Escape(special, rest);
    ChunksAppend(head, e);
    if special(head[0]) {
      AppendAssoc("\\", head, e);
      ChunksAppend("\\", head + e);
      ConsTwice("\\", head, Chunks(e));
    }
  }

  /** Inside a quoted string, with no escape pending. */
  predicate InString(c: Config) {
    c.scope.Str? && !c.s.inEscape && c.s.error.None?
  }

  /** Tokens, escapes of words and the place of the opening quote are what they were. */
  predicate InsideAlike(c: Config, d: Config) {
    d.s.tok == c.s.tok && d.s.whstrEscape == c.s.whstrEscape && d.s.lexStrOfs == c.s.lexStrOfs
  }

  /** One chunk of a string, escaped if need be, ends up in the buffer as it is. */
  lemma ChunkBuffered(lang: Lang, c: Config, head: string, escaped: bool)
    requires InString(c) && !IsEnd(head) && (Special(head[0]) ==> escaped)
    ensures var d := if escaped then Advance(lang, Advance(lang, c, "\\"), head) else Advance(lang, c, head);
            InString(d) && d.s.buffer == c.s.buffer + head && InsideAlike(c, d)
  {
  }

  /** The effect of feeding one chunk of a string, in the form the escaped text has. */
  lemma EscapedChunk(lang: Lang, c: Config, special: char -> bool, head: string, rest: string) returns (d: Config)
    requires Covers(special) && InString(c) && Plain(head) && StartsSequence(rest)
    requires head != "" && !Continues(head[0]) && forall i :: 1 <= i < |head| ==> Continues(head[i])
    ensures Feed(lang, c, Chunks(Escape(special, head + rest))) == Feed(lang, d, Chunks(Escape(special, rest)))
    ensures InString(d) && d.s.buffer == c.s.buffer + head && InsideAlike(c, d)
  {
    EscapeChunks(special, head, rest);
    ChunkBuffered(lang, c, head, special(head[0]));
    hide Chunks, Escape;
    var more := Chunks(Escape(special, rest));
    if special(head[0]) {
      d := Advance(lang, Advance(lang, c, "\\"), head);
      BackslashHolds(lang, c);
      FeedTwo(lang, c, "\\", head, more);
    } else {
      d := Advance(lang, c, head);
      hide Advance;
      assert ([head] + more)[1..] == more;
    }
  }

  lemma BackslashHolds(lang: Lang, c: Config)
    requires InString(c)
    ensures Advance(lang, c, "\\").s.error.None?
  {
  }

  lemma {:induction false} EscapedBuffered(lang: Lang, c: Config, special: char -> bool, s: string)
    requires Covers(special) && InString(c) && StartsSequence(s) && Plain(s)
    ensures var d := Feed(lang, c, Chunks(Escape(special, s)));
            InString(d) && d.s.buffer == c.s.buffer + s && InsideAlike(c, d)
    decreases |s|
  {
    if s == "" {
      assert c.s.buffer + s == c.s.buffer;
    } else {
      var n := NextStart(s, 1);
      var head, rest := s[..n], s[n..];
      assert head + rest == s && head[0] == s[0];
      AppendAssoc(c.s.buffer, head, rest);
      var d := EscapedChunk(lang, c, special, head, rest);
      hide Feed, Chunks, Escape;
      EscapedBuffered(lang, d, special, rest);
    }
  }

  lemma FeedTwo(lang: Lang, c: Config, x: string, y: string, more: seq<string>)
    requires c.s.error.None? && Advance(lang, c, x).s.error.None?
    ensures Feed(lang, c, [x, y] + more) == Feed(lang, Advance(lang, Advance(lang, c, x), y), more)
  {
    hide Advance;
    assert ([x, y] + more)[1..] == [y] + more && ([y] + more)[1..] == more;
  }

  /** One quoted string is one token, and what it says is taken as it is, whatever else is escaped in it. */
  lemma EscapedIsOneToken(lang: Lang, special: char -> bool, s: string)
    requires Covers(special) && StartsSequence(s) && Plain(s)
    ensures var q := "\"" + Escape(special, s) + "\"";
            && AreStrings(Tokenize(lang, q).tok, [s]) && Tokenize(lang, q).error.None? && !PendingEscape(lang, q)
            && StartsSequence(q) && Plain(q)
  {
    var c := Advance(lang, BEGIN, "\"");
    var e := Escape(special, s);
    EscapeStarts(special, s);
    EscapePlain(special, s);
    QuoteFed(lang, e);
    OpeningQuote(lang);
    hide Advance, Chunks, Escape, Finish, StepIn, Feed;
    EscapedBuffered(lang, c, special, s);
    assert "" + s == s;
    ClosingQuote(lang, Feed(lang, c, Chunks(e)), s);
  }

  lemma QuoteIsOneToken(lang: Lang, s: string)
    requires StartsSequence(s) && Plain(s)
    ensures AreStrings(Tokenize(lang, Quote(s)).tok, [s])
    ensures Tokenize(lang, Quote(s)).error.None? && !PendingEscape(lang, Quote(s))
    ensures StartsSequence(Quote(s)) && Plain(Quote(s))
  {
    hide Tokenize, Escape, AreStrings, PendingEscape;
    EscapedIsOneToken(lang, Special, s);
  }

  /** The opening quote, the text and the closing quote are fed one after the other. */
  lemma QuoteFed(lang: Lang, e: string)
    requires StartsSequence(e)
    ensures var c := Advance(lang, BEGIN, "\"");
            Feed(lang, BEGIN, Chunks("\"" + e + "\"")) == Feed(lang, Feed(lang, c, Chunks(e)), ["\""])
  {
    var start := BEGIN;
    var c := Advance(lang, start, "\"");
    SingleChunk("\"");
    hide Advance, Chunks;
    ChunksAppend(e, "\"");
    ChunksAppend("\"", e + "\"");
    AppendAssoc("\"", e, "\"");
    FeedSplit(lang, c, Chunks(e), ["\""]);
    ConsTwice("\"", "", Chunks(e) + ["\""]);
    assert Feed(lang, start, ["\""] + (Chunks(e) + ["\""])) == Feed(lang, c, Chunks(e) + ["\""]);
  }

  lemma OpeningQuote(lang: Lang)
    ensures var c := Advance(lang, BEGIN, "\"");
            InString(c) && c.s.buffer == "" && c.s.tok == [] && !c.s.whstrEscape
  {
  }

  lemma ClosingQuote(lang: Lang, d: Config, s: string)
    requires InString(d) && d.s.buffer == s && d.s.tok == [] && !d.s.whstrEscape
    ensures var f := Feed(lang, d, ["\""]);
            && f == Advance(lang, d, "\"") && !f.s.whstrEscape
            && AreStrings(Finish(lang, f).tok, [s]) && Finish(lang, f).error.None?
  {
    assert ["\""][1..] == [];
  }

  /** Quoting round-trips: the quoted strings of a list, separated by blanks, tokenize to exactly that list
      as strings, in both modes.  A string that starts inside a sequence is the one exception: its first
      bytes would be taken for a part of the opening quote. */
  lemma {:induction false} QuotingRoundTrips(lang: Lang, list: seq<string>)
    requires forall i :: 0 <= i < |list| ==> Plain(list[i]) && StartsSequence(list[i])
    ensures AreStrings(Tokenize(lang, JoinQuoted(list)).tok, list)
    ensures Tokenize(lang, JoinQuoted(list)).error.None?
    ensures StartsSequence(JoinQuoted(list)) && Plain(JoinQuoted(list))
  {
    if list == [] {
    } else {
      QuoteIsOneToken(lang, list[0]);
      if |list| == 1 {
        assert list == [list[0]];
      } else {
        var a, b := Quote(list[0]), JoinQuoted(list[1..]);
        QuotingRoundTrips(lang, list[1..]);
        assert b[0] == '\"';
        BlankBetween(lang, a, b);
        hide Tokenize;
        StringsAppend(Tokenize(lang, a).tok, Tokenize(lang, b).tok, |a| + 1, list);
      }
    }
  }

  /** A blank in front of something visible. */
  lemma BlankBetween(lang: Lang, a: string, b: string)
    requires Plain(a) && StartsSequence(a) && Tokenize(lang, a).error.None? && !PendingEscape(lang, a)
    requires Plain(b) && b != "" && b[0] == '\"'
    ensures var whole := Tokenize(lang, a + " " + b);
            && whole.tok == Tokenize(lang, a).tok + Shift(Tokenize(lang, b).tok, |a| + 1)
            && whole.error == Tokenize(lang, b).error
  {
    hide Tokenize, PendingEscape, Acts;
    BlankActs(lang, a, ' ');
    assert Tokenize(lang, a).tok + [] == Tokenize(lang, a).tok;
    PlainComposes(lang, a, ' ', b);
  }

  lemma StringsAppend(x: seq<Token>, y: seq<Token>, d: int, list: seq<string>)
    requires |list| > 1 && AreStrings(x, [list[0]]) && AreStrings(y, list[1..])
    ensures AreStrings(x + Shift(y, d), list)
  {
    var all := x + Shift(y, d);
    forall i | 0 <= i < |list|
      ensures all[i].kind.STRING? && all[i].value == Text(list[i]) && all[i].data.None?
    {
      if i == 0 {
        assert all[0] == x[0] && [list[0]][0] == list[0];
      } else {
        assert all[i] == Shift(y, d)[i - 1] && list[1..][i - 1] == list[i];
      }
    }
  }

  /** The quoted form of a string that starts inside a sequence is an error, whatever comes behind it. */
  lemma MisreadFirst(lang: Lang, s: string, more: string)
    requires !StartsSequence(s)
    ensures Tokenize(lang, Quote(s) + more).error.Some?
  {
    hide Advance, Finish, Feed, StepIn;
    var msg := Quote(s) + more;
    QuoteBegins(s);
    var n := NextStart(msg, 1);
    assert msg[1] == s[0] && n >= 2 && msg[..n][0] == '\"';
    var ch, others := msg[..n], Chunks(msg[n..]);
    assert Chunks(msg) == [ch] + others;
    hide Chunks;
    OpeningMisread(lang, ch);
    StopsAtError(lang, ch, others);
  }

  lemma QuoteBegins(s: string)
    requires s != "" && Continues(s[0])
    ensures |Quote(s)| > 2 && Quote(s)[0] == '\"' && Quote(s)[1] == s[0]
  {
    assert Escape(Special, s)[0] == s[0];
  }

  lemma StopsAtError(lang: Lang, ch: string, others: seq<string>)
    requires Advance(lang, BEGIN, ch).s.error.Some?
    ensures Feed(lang, BEGIN, [ch] + others) == Advance(lang, BEGIN, ch)
  {
    hide Advance;
    assert ([ch] + others)[1..] == others;
  }

  /** A string survives quoting exactly when it does not start inside a sequence. */
  lemma QuotingWorksIff(lang: Lang, s: string)
    requires Plain(s)
    ensures Tokenize(lang, Quote(s)).error.None? <==> StartsSequence(s)
  {
    if StartsSequence(s) {
      QuoteIsOneToken(lang, s);
    } else {
      MisreadFirst(lang, s, "");
      assert Quote(s) + "" == Quote(s);
    }
  }

  /** Quoting round-trips exactly when no string of the list starts inside a sequence: a list is read back as it
      is, or with an error. */
  lemma {:induction false} QuotingRoundTripsIff(lang: Lang, list: seq<string>)
    requires forall i :: 0 <= i < |list| ==> Plain(list[i])
    ensures var t := Tokenize(lang, JoinQuoted(list));
            && (t.error.None? <==> forall i :: 0 <= i < |list| ==> StartsSequence(list[i]))
            && (t.error.None? ==> AreStrings(t.tok, list))
  {
    hide Tokenize, Quote, AreStrings;
    if forall i :: 0 <= i < |list| ==> StartsSequence(list[i]) {
      QuotingRoundTrips(lang, list);
    } else if !StartsSequence(list[0]) {
      JoinBegins(list);
      MisreadFirst(lang, list[0], JoinQuoted(list)[|Quote(list[0])|..]);
    } else {
      assert |list| > 1;
      var a, b := Quote(list[0]), JoinQuoted(list[1..]);
      assert forall i :: 1 <= i < |list| ==> list[i] == list[1..][i - 1];
      QuoteIsOneToken(lang, list[0]);
      JoinPlain(list[1..]);
      QuotingRoundTripsIff(lang, list[1..]);
      BlankBetween(lang, a, b);
    }
  }

  lemma JoinBegins(list: seq<string>)
    requires list != []
    ensures Quote(list[0]) <= JoinQuoted(list)
    ensures Quote(list[0]) + JoinQuoted(list)[|Quote(list[0])|..] == JoinQuoted(list)
  {
  }

  lemma {:induction false} JoinPlain(list: seq<string>)
    requires list != [] && forall i :: 0 <= i < |list| ==> Plain(list[i])
    ensures Plain(JoinQuoted(list)) && JoinQuoted(list) != "" && JoinQuoted(list)[0] == '\"'
  {
    EscapePlain(Special, list[0]);
    if |list| > 1 {
      JoinPlain(list[1..]);
    }
  }

  /** A quote with something that continues it is no token. */
  lemma OpeningMisread(lang: Lang, ch: string)
    requires |ch| >= 2 && ch[0] == '\"'
    ensures var c := Advance(lang, BEGIN, ch);
            c.s.error.Some? && c.scope.Err? && Finish(lang, c).error.Some?
  {
  }
}
