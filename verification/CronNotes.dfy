/** Cron expressions as strings and as maps of five named fields. */
module CronNotes {

  // ---------------------------------------------------------------- strings

  /** unicode.IsSpace. */
  predicate IsSpace(c: char) {
    var n := c as int;
    0x09 <= n <= 0x0d || n in {0x20, 0x85, 0xa0, 0x1680, 0x2028, 0x2029, 0x202f, 0x205f, 0x3000} ||
      0x2000 <= n <= 0x200a
  }

  predicate Word(s: string) {
    s != "" && forall c :: c in s ==> !IsSpace(c)
  }

  /** strings.TrimSpace(s) == "". */
  predicate Blank(s: string) {
    forall c :: c in s ==> IsSpace(c)
  }

  function TrimLeft(s: string): string {
    if s != "" && IsSpace(s[0]) then TrimLeft(s[1..]) else s
  }

  function TrimRight(s: string): string {
    if s != "" && IsSpace(s[|s| - 1]) then TrimRight(s[..|s| - 1]) else s
  }

  function TrimSpace(s: string): string {
    TrimRight(TrimLeft(s))
  }

  function WordLength(s: string): (k: nat)
    ensures k <= |s| && forall c :: c in s[..k] ==> !IsSpace(c)
    ensures k < |s| ==> IsSpace(s[k])
  {
    if s == "" || IsSpace(s[0]) then 0 else 1 + WordLength(s[1..])
  }

  /** strings.Fields. */
  function Fields(s: string): (fields: seq<string>)
    ensures forall f :: f in fields ==> Word(f)
    decreases |s|
  {
    if s == "" then []
    else if IsSpace(s[0]) then Fields(s[1..])
    else
      var k := WordLength(s);
      [s[..k]] + Fields(s[k..])
  }

  /** The case mapping, as far as it can produce the letters of a macro name. */
  function LowerChar(c: char): char {
    if 'A' <= c <= 'Z' then (c as int + 32) as char
    else if c as int == 0x212a then 'k'
    else if c as int == 0x130 then 'i'
    else c
  }

  function Lower(s: string): (r: string)
    ensures |r| == |s|
  {
    seq(|s|, i requires 0 <= i < |s| => LowerChar(s[i]))
  }

  function JoinWords(parts: seq<string>): string {
    if parts == [] then ""
    else if |parts| == 1 then parts[0]
    else parts[0] + " " + JoinWords(parts[1..])
  }

  // ---------------------------------------------------------------- the notes

  const YEARLY := "0 0 1 1 *"
  const MONTHLY := "0 0 1 * *"
  const WEEKLY := "0 0 * * 0"
  const DAILY := "0 0 * * *"
  const HOURLY := "0 * * * *"

  function ExpandCronMacro(expr: string): string {
    var name := TrimSpace(Lower(expr));
    if name == "@yearly" || name == "@annually" then YEARLY
    else if name == "@monthly" then MONTHLY
    else if name == "@weekly" then WEEKLY
    else if name == "@daily" || name == "@midnight" then DAILY
    else if name == "@hourly" then HOURLY
    else expr
  }

  /** A schedule map, its values as they print. */
  type CronMap = map<string, string>

  const KEYS := ["minute", "hour", "dayOfMonth", "month", "dayOfWeek"]

  function ToMap(fields: seq<string>): CronMap
    requires |fields| == 5
  {
    map["minute" := fields[0], "hour" := fields[1], "dayOfMonth" := fields[2], "month" := fields[3],
      "dayOfWeek" := fields[4]]
  }

  function StarIfEmpty(s: string): string {
    if Blank(s) then "*" else s
  }

  function CronExpr(minute: string, hour: string, dom: string, month: string, dow: string): string {
    StarIfEmpty(minute) + " " + StarIfEmpty(hour) + " " + StarIfEmpty(dom) + " " + StarIfEmpty(month) + " " +
      StarIfEmpty(dow)
  }

  function FieldOr(m: CronMap, key: string): string {
    if key in m && !Blank(m[key]) then m[key] else "*"
  }

  function CronFromMap(m: CronMap): string {
    CronExpr(FieldOr(m, "minute"), FieldOr(m, "hour"), FieldOr(m, "dayOfMonth"), FieldOr(m, "month"),
      FieldOr(m, "dayOfWeek"))
  }

  /** The five fields of an expression, all "*" when it has not got five. */
  ghost function Parsed(expr: string): (fields: seq<string>)
    ensures |fields| == 5 && forall f :: f in fields ==> Word(f)
  {
    var fields := Fields(ExpandCronMacro(expr));
    if |fields| == 5 then fields else ["*", "*", "*", "*", "*"]
  }

  /** A note argument: a map, or anything else as it prints. */
  datatype Value = Map(m: CronMap) | Printed(text: string)

  method CronToMap(v: Value) returns (out: CronMap)
    ensures out == if v.Map? then v.m else ToMap(Parsed(v.text))
  {
    if v.Map? {
      return v.m;
    }
    var expr := v.text;
    out := map["minute" := "*", "hour" := "*", "dayOfMonth" := "*", "month" := "*", "dayOfWeek" := "*"];
    if Blank(expr) {
      BlankParses(expr);
      return;
    }
    var parts := Fields(ExpandCronMacro(expr));
    if |parts| != 5 {
      return;
    }
    out := out["minute" := parts[0]]["hour" := parts[1]];
    out := out["dayOfMonth" := parts[2]]["month" := parts[3]]["dayOfWeek" := parts[4]];
  }

  method CronField(expr: string, pos: int) returns (value: string, ok: bool)
    ensures 0 <= pos <= 4 ==> value == Parsed(expr)[pos]
    ensures ok <==> Blank(expr) || (0 <= pos <= 4 && |Fields(ExpandCronMacro(expr))| == 5)
    ensures !ok ==> value == "*"
  {
    if Blank(expr) {
      BlankParses(expr);
      return "*", true;
    }
    if pos < 0 || pos > 4 {
      return "*", false;
    }
    var parts := Fields(ExpandCronMacro(expr));
    if |parts| != 5 {
      return "*", false;
    }
    return parts[pos], true;
  }

  const STARS := "* * * * *"

  method StarBlanks(fields: seq<string>) returns (parts: seq<string>)
    ensures |parts| == |fields| && forall i :: 0 <= i < |fields| ==> parts[i] == StarIfEmpty(fields[i])
    ensures (forall f :: f in fields ==> Word(f)) ==> parts == fields
  {
    parts := fields;
    for i := 0 to |parts|
      invariant |parts| == |fields|
      invariant forall j :: 0 <= j < |fields| ==> parts[j] == if j < i then StarIfEmpty(fields[j]) else fields[j]
    {
      if Blank(parts[i]) {
        parts := parts[i := "*"];
      }
    }
    forall i | 0 <= i < |fields| && Word(fields[i]) ensures parts[i] == fields[i] {
      NotBoth(fields[i]);
    }
  }

  method CronNormalize(expr: string) returns (r: string)
    ensures r == JoinWords(Parsed(expr))
  {
    StarsJoin();
    if Blank(expr) {
      BlankParses(expr);
      return STARS;
    }
    var parts := Fields(ExpandCronMacro(expr));
    if |parts| != 5 {
      return STARS;
    }
    parts := StarBlanks(parts);
    assert forall i :: 0 <= i < 5 ==> parts[i] == Parsed(expr)[i];
    r := JoinWords(parts);
  }

  /** cronFromAny: a map, a string, or the safe default. */
  method CronFromAny(v: Value, isString: bool) returns (r: string)
    ensures v.Map? ==> r == CronFromMap(v.m)
    ensures v.Printed? && isString ==> r == JoinWords(Parsed(v.text))
    ensures v.Printed? && !isString ==> r == STARS
  {
    if v.Map? {
      return CronFromMap(v.m);
    }
    if isString {
      r := CronNormalize(v.text);
    } else {
      r := STARS;
    }
  }

  lemma NotBoth(s: string)
    requires Word(s)
    ensures !Blank(s)
  {
    assert s[0] in s;
  }

  lemma StarsJoin()
    ensures STARS == JoinWords(["*", "*", "*", "*", "*"])
  {
    var a := ["*", "*", "*", "*", "*"];
    assert a[1..] == ["*", "*", "*", "*"] && a[1..][1..] == ["*", "*", "*"];
    assert ["*", "*", "*"][1..] == ["*", "*"] && ["*", "*"][1..] == ["*"];
    assert JoinWords(["*", "*"]) == "* *";
    assert JoinWords(["*", "*", "*"]) == "* * *";
    assert JoinWords(["*", "*", "*", "*"]) == "* * * *";
  }

  lemma {:induction false} BlankFields(s: string)
    requires Blank(s)
    ensures Fields(s) == []
  {
    if s != "" {
      assert s[0] in s;
      BlankFields(s[1..]);
    }
  }

  lemma {:induction false} BlankTrims(s: string)
    requires Blank(s)
    ensures TrimLeft(s) == ""
  {
    if s != "" {
      assert s[0] in s;
      BlankTrims(s[1..]);
    }
  }

  lemma BlankParses(expr: string)
    requires Blank(expr)
    ensures Parsed(expr) == ["*", "*", "*", "*", "*"]
  {
    var low := Lower(expr);
    forall c | c in low ensures IsSpace(c) {
      var i :| 0 <= i < |low| && low[i] == c;
      assert expr[i] in expr;
    }
    BlankTrims(low);
    BlankFields(expr);
  }

  // ---------------------------------------------------------------- fields of joined words

  lemma {:induction false} WordLengthOf(w: string, rest: string)
    requires Word(w) && (rest == "" || IsSpace(rest[0]))
    ensures WordLength(w + rest) == |w|
    decreases |w|
  {
    assert (w + rest)[1..] == w[1..] + rest;
    assert w[0] in w;
    if |w| > 1 {
      WordLengthOf(w[1..], rest);
    } else {
      assert w[1..] + rest == rest;
    }
  }

  lemma FieldsOfWord(w: string, rest: string)
    requires Word(w) && (rest == "" || IsSpace(rest[0]))
    ensures Fields(w + rest) == [w] + Fields(rest)
  {
    WordLengthOf(w, rest);
    assert (w + rest)[0] == w[0] && w[0] in w;
    assert (w + rest)[..|w|] == w && (w + rest)[|w|..] == rest;
  }

  /** Words joined by blanks split back into the same words. */
  lemma {:induction false} FieldsOfJoin(words: seq<string>)
    requires forall w :: w in words ==> Word(w)
    ensures Fields(JoinWords(words)) == words
  {
    if words == [] {
    } else if |words| == 1 {
      FieldsOfWord(words[0], "");
      assert words[0] + "" == words[0];
    } else {
      var rest := " " + JoinWords(words[1..]);
      FieldsOfJoin(words[1..]);
      FieldsOfWord(words[0], rest);
      assert rest[1..] == JoinWords(words[1..]);
      assert words[0] + " " + JoinWords(words[1..]) == words[0] + rest;
    }
  }

  /** No macro name has a blank inside. */
  lemma NotAMacro(s: string, i: nat)
    requires 0 < i < |s| - 1 && s[i] == ' ' && !IsSpace(s[0]) && !IsSpace(s[|s| - 1])
    ensures ExpandCronMacro(s) == s
  {
    var low := Lower(s);
    assert low[i] == ' ' && !IsSpace(low[0]) && !IsSpace(low[|low| - 1]);
    assert TrimSpace(low) == low;
    assert ' ' in low;
  }

  lemma JoinedIsNoMacro(words: seq<string>)
    requires |words| == 5 && forall w :: w in words ==> Word(w)
    ensures ExpandCronMacro(JoinWords(words)) == JoinWords(words)
  {
    hide ExpandCronMacro, IsSpace;
    var head, tail := words[0], JoinWords(words[1..]);
    JoinEnds(words);
    JoinEnds(words[1..]);
    assert head in words;
    assert JoinWords(words) == head + " " + tail;
    NotAMacro(head + " " + tail, |head|);
  }

  lemma {:induction false} JoinEnds(words: seq<string>)
    requires words != [] && forall w :: w in words ==> Word(w)
    ensures var s := JoinWords(words); s != "" && !IsSpace(s[0]) && !IsSpace(s[|s| - 1])
  {
    hide IsSpace;
    assert words[0] in words;
    assert words[0][0] in words[0];
    if |words| == 1 {
      assert words[0][|words[0]| - 1] in words[0];
    } else {
      JoinEnds(words[1..]);
    }
  }

  // ---------------------------------------------------------------- the laws

  lemma ParsedOfJoin(words: seq<string>)
    requires |words| == 5 && forall w :: w in words ==> Word(w)
    ensures Parsed(JoinWords(words)) == words
  {
    JoinedIsNoMacro(words);
    FieldsOfJoin(words);
  }

  /** Normalizing twice is normalizing once, and always leaves five fields. */
  lemma NormalizeIdempotent(expr: string)
    ensures JoinWords(Parsed(JoinWords(Parsed(expr)))) == JoinWords(Parsed(expr))
    ensures |Fields(JoinWords(Parsed(expr)))| == 5
  {
    ParsedOfJoin(Parsed(expr));
    FieldsOfJoin(Parsed(expr));
  }

  lemma JoinFive(a: string, b: string, c: string, d: string, e: string)
    ensures JoinWords([a, b, c, d, e]) == a + " " + b + " " + c + " " + d + " " + e
  {
    assert [a, b, c, d, e][1..] == [b, c, d, e] && [b, c, d, e][1..] == [c, d, e] && [c, d, e][1..] == [d, e] &&
      [d, e][1..] == [e];
    assert JoinWords([d, e]) == d + " " + e;
    assert JoinWords([c, d, e]) == c + " " + d + " " + e;
    assert JoinWords([b, c, d, e]) == b + " " + c + " " + d + " " + e;
  }

  /** An expression split into a map and put together again is the normalized expression. */
  lemma FromMapOfToMap(expr: string)
    ensures CronFromMap(ToMap(Parsed(expr))) == JoinWords(Parsed(expr))
  {
    var p := Parsed(expr);
    assert p == [p[0], p[1], p[2], p[3], p[4]];
    JoinFive(p[0], p[1], p[2], p[3], p[4]);
    forall i | 0 <= i < 5 ensures !Blank(p[i]) {
      assert p[i] in p;
      NotBoth(p[i]);
    }
  }

  ghost predicate Schedule(m: CronMap) {
    m.Keys == {"minute", "hour", "dayOfMonth", "month", "dayOfWeek"} && forall k :: k in m ==> Word(m[k])
  }

  lemma ToMapIsSchedule(fields: seq<string>)
    requires |fields| == 5 && forall f :: f in fields ==> Word(f)
    ensures Schedule(ToMap(fields))
  {
  }

  function WordsIn(m: CronMap): seq<string>
    requires m.Keys == {"minute", "hour", "dayOfMonth", "month", "dayOfWeek"}
  {
    [m["minute"], m["hour"], m["dayOfMonth"], m["month"], m["dayOfWeek"]]
  }

  lemma ScheduleIsJoined(m: CronMap)
    requires Schedule(m)
    ensures CronFromMap(m) == JoinWords(WordsIn(m)) && forall w :: w in WordsIn(m) ==> Word(w)
  {
    hide Word, JoinWords, Blank;
    forall k | k in m ensures !Blank(m[k]) {
      NotBoth(m[k]);
    }
    JoinFive(m["minute"], m["hour"], m["dayOfMonth"], m["month"], m["dayOfWeek"]);
  }

  lemma WordsBack(m: CronMap)
    requires m.Keys == {"minute", "hour", "dayOfMonth", "month", "dayOfWeek"}
    ensures ToMap(WordsIn(m)) == m
  {
  }

  lemma ScheduleRoundTrip(m: CronMap)
    requires Schedule(m)
    ensures ToMap(Parsed(CronFromMap(m))) == m
  {
    hide Word, Parsed, ToMap, CronFromMap, JoinWords;
    ScheduleIsJoined(m);
    ParsedOfJoin(WordsIn(m));
    WordsBack(m);
  }

  /** A map survives the trip through an expression exactly when it has the five keys and every value is one word. */
  lemma MapRoundTripIff(m: CronMap)
    ensures ToMap(Parsed(CronFromMap(m))) == m <==> Schedule(m)
  {
    ToMapIsSchedule(Parsed(CronFromMap(m)));
    if Schedule(m) {
      ScheduleRoundTrip(m);
    }
  }

  // ---------------------------------------------------------------- what expressions mean

  /** Five words, in the order minute, hour, day of month, month, day of week. */
  lemma FieldsInOrder(a: string, b: string, c: string, d: string, e: string)
    requires Word(a) && Word(b) && Word(c) && Word(d) && Word(e)
    ensures var expr := a + " " + b + " " + c + " " + d + " " + e;
      && Parsed(expr) == [a, b, c, d, e]
      && ToMap(Parsed(expr)) == map["minute" := a, "hour" := b, "dayOfMonth" := c, "month" := d, "dayOfWeek" := e]
  {
    hide Word, Parsed, JoinWords;
    JoinFive(a, b, c, d, e);
    ParsedOfJoin([a, b, c, d, e]);
  }

  /** The macros, as the expression spells them after lowercasing and trimming. */
  lemma MacrosAsDocumented(expr: string)
    ensures var name := TrimSpace(Lower(expr));
      && (name in {"@yearly", "@annually"} ==> Parsed(expr) == ["0", "0", "1", "1", "*"])
      && (name == "@monthly" ==> Parsed(expr) == ["0", "0", "1", "*", "*"])
      && (name == "@weekly" ==> Parsed(expr) == ["0", "0", "*", "*", "0"])
      && (name in {"@daily", "@midnight"} ==> Parsed(expr) == ["0", "0", "*", "*", "*"])
      && (name == "@hourly" ==> Parsed(expr) == ["0", "*", "*", "*", "*"])
  {
    hide TrimSpace, Lower, Fields, JoinWords;
    assert YEARLY == "0" + " " + "0" + " " + "1" + " " + "1" + " " + "*";
    assert MONTHLY == "0" + " " + "0" + " " + "1" + " " + "*" + " " + "*";
    assert WEEKLY == "0" + " " + "0" + " " + "*" + " " + "*" + " " + "0";
    assert DAILY == "0" + " " + "0" + " " + "*" + " " + "*" + " " + "*";
    assert HOURLY == "0" + " " + "*" + " " + "*" + " " + "*" + " " + "*";
    ShortFields("0", "0", "1", "1", "*");
    ShortFields("0", "0", "1", "*", "*");
    ShortFields("0", "0", "*", "*", "0");
    ShortFields("0", "0", "*", "*", "*");
    ShortFields("0", "*", "*", "*", "*");
  }

  lemma ShortFields(a: string, b: string, c: string, d: string, e: string)
    requires {a, b, c, d, e} <= {"0", "1", "*"}
    ensures Fields(a + " " + b + " " + c + " " + d + " " + e) == [a, b, c, d, e]
  {
    hide Fields, JoinWords;
    assert forall w :: w in {"0", "1", "*"} ==> Word(w);
    assert forall w :: w in [a, b, c, d, e] ==> w in {a, b, c, d, e};
    JoinFive(a, b, c, d, e);
    FieldsOfJoin([a, b, c, d, e]);
  }

  /** Lowercasing is that of Unicode on ASCII letters, and leaves other ASCII characters alone. */
  lemma LowersAscii(s: string, t: string)
    requires |s| == |t|
    requires forall i :: 0 <= i < |s| ==>
      (s[i] == t[i] && s[i] as int < 0x80 && !('A' <= s[i] <= 'Z'))
      || ('a' <= t[i] <= 'z' && s[i] as int == t[i] as int - 32)
    ensures Lower(s) == t
  {
  }

  /** The characters that separate fields are those with the White_Space property of Unicode. */
  lemma SpacesAsInUnicode(c: char)
    ensures IsSpace(c) <==> c as int in {
      0x09, 0x0a, 0x0b, 0x0c, 0x0d, 0x20, 0x85, 0xa0, 0x1680, 0x2000, 0x2001, 0x2002, 0x2003, 0x2004, 0x2005, 0x2006,
      0x2007, 0x2008, 0x2009, 0x200a, 0x2028, 0x2029, 0x202f, 0x205f, 0x3000}
  {
  }

  /** A key that is missing or blank stands for every value. */
  lemma MissingFieldsAreStars(m: CronMap)
    requires forall k :: k in m ==> Word(m[k]) || Blank(m[k])
    ensures var fields := Parsed(CronFromMap(m));
      forall i :: 0 <= i < 5 ==>
        var key := ["minute", "hour", "dayOfMonth", "month", "dayOfWeek"][i];
        fields[i] == if key in m && Word(m[key]) then m[key] else "*"
  {
    hide Word, Blank, Parsed, JoinWords;
    var a, b, c := FieldOr(m, "minute"), FieldOr(m, "hour"), FieldOr(m, "dayOfMonth");
    var d, e := FieldOr(m, "month"), FieldOr(m, "dayOfWeek");
    forall key ensures FieldOr(m, key) == if key in m && Word(m[key]) then m[key] else "*" {
      WordOrBlank(m, key);
    }
    StarIsWord();
    FieldsInOrder(a, b, c, d, e);
    KeepsWord(a);
    KeepsWord(b);
    KeepsWord(c);
    KeepsWord(d);
    KeepsWord(e);
  }

  lemma WordOrBlank(m: CronMap, key: string)
    requires forall k :: k in m ==> Word(m[k]) || Blank(m[k])
    ensures key in m ==> (Blank(m[key]) <==> !Word(m[key]))
  {
    if key in m && Word(m[key]) {
      NotBoth(m[key]);
    }
  }

  lemma StarIsWord()
    ensures Word("*")
  {
  }

  lemma KeepsWord(w: string)
    requires Word(w)
    ensures StarIfEmpty(w) == w
  {
    NotBoth(w);
  }

  /** All the views of one expression agree. */
  method CompareViews(expr: string, pos: int) returns (m: CronMap, back: string, normal: string, field: string)
    requires 0 <= pos <= 4
    ensures back == normal && m == ToMap(Parsed(expr)) && field == Parsed(expr)[pos] == m[KEYS[pos]]
  {
    m := CronToMap(Printed(expr));
    back := CronFromMap(m);
    normal := CronNormalize(expr);
    FromMapOfToMap(expr);
    var ok;
    field, ok := CronField(expr, pos);
  }
}
