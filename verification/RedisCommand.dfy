/** Splitting a Redis command line into its arguments, with double quotes. */
module RedisCommand {

  datatype Scan = Scan(parts: seq<string>, current: string, inQuote: bool)

  const START := Scan([], "", false)

  function Step(s: Scan, ch: char): Scan {
    if ch == '"' then s.(inQuote := !s.inQuote)
    else if ch == ' ' && !s.inQuote then
      if |s.current| > 0 then s.(parts := s.parts + [s.current], current := "") else s
    else s.(current := s.current + [ch])
  }

  function ScanFrom(s: Scan, query: string): Scan {
    if query == [] then s else Step(ScanFrom(s, query[..|query| - 1]), query[|query| - 1])
  }

  function Finish(s: Scan): seq<string> {
    if |s.current| > 0 then s.parts + [s.current] else s.parts
  }

  function Tokens(query: string): seq<string> {
    Finish(ScanFrom(START, query))
  }

  method SplitCommand(query: string) returns (parts: seq<string>)
    ensures parts == Tokens(query)
  {
    parts := [];
    var current := "";
    var inQuote := false;
    for i := 0 to |query|
      invariant Scan(parts, current, inQuote) == ScanFrom(START, query[..i])
    {
      var ch := query[i];
      assert query[..i + 1][..i] == query[..i];
      if ch == '"' {
        inQuote := !inQuote;
      } else if ch == ' ' && !inQuote {
        if |current| > 0 {
          parts := parts + [current];
          current := "";
        }
      } else {
        current := current + [ch];
      }
    }
    assert query[..|query|] == query;
    if |current| > 0 {
      parts := parts + [current];
    }
  }

  // ---------------------------------------------------------------- what is kept

  ghost predicate Clean(token: string) {
    token != "" && '"' !in token
  }

  /** No argument is empty or holds a quote, whatever the input. */
  lemma TokensAreClean(query: string)
    ensures forall t :: t in Tokens(query) ==> Clean(t)
  {
    ScansAreClean(query);
  }

  lemma {:induction false} ScansAreClean(query: string)
    ensures var s := ScanFrom(START, query); '"' !in s.current && forall t :: t in s.parts ==> Clean(t)
  {
    if query != [] {
      ScansAreClean(query[..|query| - 1]);
    }
  }

  function Concat(parts: seq<string>): string {
    if parts == [] then "" else Concat(parts[..|parts| - 1]) + parts[|parts| - 1]
  }

  lemma ConcatStep(parts: seq<string>, t: string)
    ensures Concat(parts + [t]) == Concat(parts) + t
  {
    assert (parts + [t])[..|parts|] == parts;
  }

  ghost function Quotes(s: string): nat {
    if s == [] then 0 else Quotes(s[..|s| - 1]) + if s[|s| - 1] == '"' then 1 else 0
  }

  /** The input minus its quotes and the spaces that an even number of quotes precedes. */
  ghost function Kept(s: string): string {
    if s == [] then ""
    else
      var rest, ch := s[..|s| - 1], s[|s| - 1];
      Kept(rest) + if ch == '"' || (ch == ' ' && Quotes(rest) % 2 == 0) then "" else [ch]
  }

  /** Joined together, the arguments are the input minus quotes and unquoted spaces. */
  lemma TokensKeepText(query: string)
    ensures Concat(Tokens(query)) == Kept(query)
  {
    ScanKeepsText(query);
    var s := ScanFrom(START, query);
    ConcatStep(s.parts, s.current);
  }

  lemma {:induction false} ScanKeepsText(query: string)
    ensures var s := ScanFrom(START, query);
      Concat(s.parts) + s.current == Kept(query) && (s.inQuote <==> Quotes(query) % 2 == 1)
  {
    if query != [] {
      var rest := query[..|query| - 1];
      ScanKeepsText(rest);
      var s := ScanFrom(START, rest);
      ConcatStep(s.parts, s.current);
    }
  }

  // ---------------------------------------------------------------- compositionality and round trip

  lemma {:induction false} ScanConcat(s: Scan, a: string, b: string)
    ensures ScanFrom(s, a + b) == ScanFrom(ScanFrom(s, a), b)
  {
    if b == [] {
      assert a + b == a;
    } else {
      assert (a + b)[..|a + b| - 1] == a + b[..|b| - 1];
      ScanConcat(s, a, b[..|b| - 1]);
    }
  }

  /** Arguments already found do not influence the rest of the scan. */
  lemma {:induction false} ScanShift(parts: seq<string>, q: string)
    ensures var s := ScanFrom(START, q); ScanFrom(Scan(parts, "", false), q) == s.(parts := parts + s.parts)
  {
    if q != [] {
      ScanShift(parts, q[..|q| - 1]);
      var s := ScanFrom(START, q[..|q| - 1]);
      assert parts + (s.parts + [s.current]) == parts + s.parts + [s.current];
    }
  }

  ghost predicate Balanced(s: string) {
    Quotes(s) % 2 == 0
  }

  /** A space after balanced text separates: the arguments are those of both sides. */
  lemma TokensOfTwo(a: string, b: string)
    requires Balanced(a)
    ensures Tokens(a + " " + b) == Tokens(a) + Tokens(b)
  {
    ScanKeepsText(a);
    var s := ScanFrom(START, a);
    ScanConcat(START, a + " ", b);
    ScanConcat(START, a, " ");
    OneStep(s, ' ');
    ScanShift(Finish(s), b);
    assert ScanFrom(START, a + " ") == Scan(Finish(s), "", false);
  }

  lemma OneStep(s: Scan, ch: char)
    ensures ScanFrom(s, [ch]) == Step(s, ch)
  {
    assert [ch][..0] == [];
    assert ScanFrom(s, [ch][..0]) == s;
  }

  /** How an argument is written: always quoted, or bare when it has no space. */
  datatype Written = Written(text: string, quoted: bool)

  ghost predicate Writable(w: Written) {
    Clean(w.text) && (w.quoted || ' ' !in w.text)
  }

  function Show(w: Written): string {
    if w.quoted then "\"" + w.text + "\"" else w.text
  }

  function Print(ws: seq<Written>): string {
    if ws == [] then ""
    else if |ws| == 1 then Show(ws[0])
    else Print(ws[..|ws| - 1]) + " " + Show(ws[|ws| - 1])
  }

  function Texts(ws: seq<Written>): seq<string> {
    seq(|ws|, i requires 0 <= i < |ws| => ws[i].text)
  }

  lemma {:induction false} PlainText(s: Scan, t: string)
    requires '"' !in t && (s.inQuote || ' ' !in t)
    ensures ScanFrom(s, t) == s.(current := s.current + t)
  {
    if t != [] {
      PlainText(s, t[..|t| - 1]);
    }
  }

  lemma {:induction false} NoQuotes(t: string)
    requires '"' !in t
    ensures Quotes(t) == 0
  {
    if t != [] {
      NoQuotes(t[..|t| - 1]);
    }
  }

  lemma {:induction false} QuotesConcat(a: string, b: string)
    ensures Quotes(a + b) == Quotes(a) + Quotes(b)
  {
    if b == [] {
      assert a + b == a;
    } else {
      assert (a + b)[..|a + b| - 1] == a + b[..|b| - 1];
      QuotesConcat(a, b[..|b| - 1]);
    }
  }

  lemma QuotedToken(t: string)
    requires Clean(t)
    ensures Tokens("\"" + t + "\"") == [t]
  {
    hide ScanFrom;
    ScanConcat(START, "\"" + t, "\"");
    ScanConcat(START, "\"", t);
    OneStep(START, '"');
    PlainText(START.(inQuote := true), t);
    OneStep(Scan([], t, true), '"');
    assert "" + t == t && [] + [t] == [t];
  }

  lemma BareToken(t: string)
    requires Clean(t) && ' ' !in t
    ensures Tokens(t) == [t]
  {
    hide ScanFrom;
    PlainText(START, t);
    assert "" + t == t && [] + [t] == [t];
  }

  lemma QuotedIsBalanced(t: string)
    requires '"' !in t
    ensures Quotes("\"" + t + "\"") == 2
  {
    OneQuote();
    hide Quotes;
    QuotesConcat("\"" + t, "\"");
    QuotesConcat("\"", t);
    NoQuotes(t);
  }

  lemma OneQuote()
    ensures Quotes("\"") == 1
  {
    assert "\""[..0] == "";
  }

  lemma ShownToken(w: Written)
    requires Writable(w)
    ensures Tokens(Show(w)) == [w.text] && Balanced(Show(w))
  {
    hide Tokens, Quotes;
    if w.quoted {
      QuotedToken(w.text);
      QuotedIsBalanced(w.text);
    } else {
      BareToken(w.text);
      NoQuotes(w.text);
    }
  }

  lemma PrintStep(rest: seq<Written>, last: Written)
    requires rest != []
    ensures Print(rest + [last]) == Print(rest) + " " + Show(last)
    ensures Texts(rest + [last]) == Texts(rest) + [last.text]
    ensures Balanced(Print(rest)) && Balanced(Show(last)) ==> Balanced(Print(rest + [last]))
  {
    assert (rest + [last])[..|rest|] == rest;
    QuotesConcat(Print(rest) + " ", Show(last));
    QuotesConcat(Print(rest), " ");
    assert " "[..0] == "" && Quotes(" ") == 0;
  }

  /** Splitting inverts printing, for every list of non-empty quote-free arguments. */
  lemma {:induction false} SplitInvertsPrint(ws: seq<Written>)
    requires forall w :: w in ws ==> Writable(w)
    ensures Tokens(Print(ws)) == Texts(ws) && Balanced(Print(ws))
  {
    hide Tokens, Balanced, Texts, Writable, Show;
    if |ws| > 1 {
      var rest, last := ws[..|ws| - 1], ws[|ws| - 1];
      assert last in ws && ws == rest + [last];
      SplitInvertsPrint(rest);
      ShownToken(last);
      TokensOfTwo(Print(rest), Show(last));
      PrintStep(rest, last);
    } else {
      PrintShort(ws);
    }
  }

  lemma PrintShort(ws: seq<Written>)
    requires |ws| <= 1 && forall w :: w in ws ==> Writable(w)
    ensures Tokens(Print(ws)) == Texts(ws) && Balanced(Print(ws))
  {
    if |ws| == 1 {
      ShownToken(ws[0]);
      assert Texts(ws) == [ws[0].text];
    }
  }
}
