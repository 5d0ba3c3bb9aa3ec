/** MySQL string literals as the dump scripts write them, and as MySQL reads them back
    (MySQL 8.0 Reference Manual, section 11.1.1 "String Literals", with the default SQL mode, in which
    backslash escapes are recognised). */
module SqlLiteral {
  import opened PyStr
  import opened Records

  // ---------------------------------------------------------------------------
  // The two escapers
  // ---------------------------------------------------------------------------

  /** `escape_sql_string` of create_mysql_db.py: `None` is the bare word NULL; a string has every backslash
      doubled first, then every quote preceded by a backslash, and is wrapped in single quotes. */
  function EscapeSqlString(text: Option<string>): (r: string)
    ensures text.None? ==> r == "NULL"
    ensures text.Some? ==> |r| >= 2 && r[0] == '\'' && r[|r| - 1] == '\''
  {
    if text.None? then "NULL" else "'" + Replace(Replace(text.value, "\\", "\\\\"), "'", "\\'") + "'"
  }

  /** `escape_sql` of generate_final_sql.py and the nested copy in fill_usage_examples.py: the same, but quotes
      are escaped first and the backslash just inserted is then doubled with the others. */
  function EscapeSql(value: Option<string>): (r: string)
    ensures value.None? ==> r == "NULL"
    ensures value.Some? ==> |r| >= 2 && r[0] == '\'' && r[|r| - 1] == '\''
  {
    if value.None? then "NULL" else "'" + Replace(Replace(value.value, "'", "\\'"), "\\", "\\\\") + "'"
  }

  /** What the backslash-first escaper makes of one character. */
  function EscapeChar(c: char): string {
    if c == '\\' then "\\\\" else if c == '\'' then "\\'" else [c]
  }

  function EscapeChars(s: string): string
    decreases |s|
  {
    if s == [] then [] else EscapeChar(s[0]) + EscapeChars(s[1..])
  }

  /** What the quote-first escaper makes of one character: a quote becomes backslash, backslash, quote. */
  function QuoteFirstChar(c: char): string {
    if c == '\'' then "\\\\'" else if c == '\\' then "\\\\" else [c]
  }

  function QuoteFirstChars(s: string): string
    decreases |s|
  {
    if s == [] then [] else QuoteFirstChar(s[0]) + QuoteFirstChars(s[1..])
  }

  lemma {:induction false} ReplaceCharAppend(x: string, y: string, c: char, r: string)
    ensures ReplaceChar(x + y, c, r) == ReplaceChar(x, c, r) + ReplaceChar(y, c, r)
    decreases |x|
  {
    if x != [] {
      assert (x + y)[0] == x[0];
      assert (x + y)[1..] == x[1..] + y;
      ReplaceCharAppend(x[1..], y, c, r);
    } else {
      assert x + y == y;
    }
  }

  lemma {:induction false} EscapeTwoPasses(s: string)
    ensures ReplaceChar(ReplaceChar(s, '\\', "\\\\"), '\'', "\\'") == EscapeChars(s)
    decreases |s|
  {
    if s != [] {
      EscapeTwoPasses(s[1..]);
      var head := if s[0] == '\\' then "\\\\" else [s[0]];
      ReplaceCharAppend(head, ReplaceChar(s[1..], '\\', "\\\\"), '\'', "\\'");
      assert ReplaceChar("\\\\", '\'', "\\'") == "\\\\";
    }
  }

  lemma {:induction false} QuoteFirstTwoPasses(s: string)
    ensures ReplaceChar(ReplaceChar(s, '\'', "\\'"), '\\', "\\\\") == QuoteFirstChars(s)
    decreases |s|
  {
    if s != [] {
      QuoteFirstTwoPasses(s[1..]);
      var head := if s[0] == '\'' then "\\'" else [s[0]];
      ReplaceCharAppend(head, ReplaceChar(s[1..], '\'', "\\'"), '\\', "\\\\");
      assert ReplaceChar("\\'", '\\', "\\\\") == "\\\\'";
    }
  }

  /** The backslash-first escaper works character by character. */
  lemma {:induction false} EscapeSqlStringChars(s: string)
    ensures EscapeSqlString(Some(s)) == "'" + EscapeChars(s) + "'"
  {
    ReplaceSingleChar(s, '\\', "\\\\");
    ReplaceSingleChar(ReplaceChar(s, '\\', "\\\\"), '\'', "\\'");
    EscapeTwoPasses(s);
  }

  /** The quote-first escaper works character by character, turning a quote into three characters. */
  lemma {:induction false} EscapeSqlChars(s: string)
    ensures EscapeSql(Some(s)) == "'" + QuoteFirstChars(s) + "'"
  {
    ReplaceSingleChar(s, '\'', "\\'");
    ReplaceSingleChar(ReplaceChar(s, '\'', "\\'"), '\\', "\\\\");
    QuoteFirstTwoPasses(s);
  }

  lemma {:induction false} EscapeCharsLength(s: string)
    ensures |EscapeChars(s)| == |s| + Occurrences(s, '\\') + Occurrences(s, '\'')
    decreases |s|
  {
    if s != [] {
      EscapeCharsLength(s[1..]);
    }
  }

  /** Escaping adds only backslashes, so a character other than the quote and backslash stays absent. */
  lemma {:induction false} EscapeCharsKeepsAbsent(s: string, c: char)
    requires c !in s && c != '\\' && c != '\''
    ensures c !in EscapeChars(s)
    decreases |s|
  {
    if s != [] {
      EscapeCharsKeepsAbsent(s[1..], c);
    }
  }

  /** `len(escape_sql_string(s)) == len(s) + s.count("\\") + s.count("'") + 2`. */
  lemma {:induction false} EscapeSqlStringLength(s: string)
    ensures |EscapeSqlString(Some(s))| == |s| + Count(s, "\\") + Count(s, "'") + 2
  {
    EscapeSqlStringChars(s);
    EscapeCharsLength(s);
    CountSingleChar(s, '\\');
    CountSingleChar(s, '\'');
  }

  lemma {:induction false} QuoteFreeAgree(s: string)
    requires Occurrences(s, '\'') == 0
    ensures QuoteFirstChars(s) == EscapeChars(s)
    decreases |s|
  {
    if s != [] {
      QuoteFreeAgree(s[1..]);
    }
  }

  /** The two escapers disagree only on strings holding a quote. */
  lemma {:induction false} EscapersAgreeWithoutQuotes(s: string)
    requires !Contains(s, "'")
    ensures EscapeSql(Some(s)) == EscapeSqlString(Some(s))
  {
    CountSingleChar(s, '\'');
    CountPositiveIffContains(s, "'");
    QuoteFreeAgree(s);
    EscapeSqlChars(s);
    EscapeSqlStringChars(s);
  }

  // ---------------------------------------------------------------------------
  // How MySQL reads a literal back
  // ---------------------------------------------------------------------------

  /** The text MySQL reads for a backslash followed by `c`: the escape sequences of section 11.1.1 (Table 11.1),
      `\%` and `\_` keeping their backslash, and any other character standing for itself. */
  function Unescape(c: char): (r: string)
    ensures |r| > 0
  {
    if c == '0' then ['\U{0}']
    else if c == 'b' then ['\U{8}']
    else if c == 'n' then "\n"
    else if c == 'r' then "\r"
    else if c == 't' then "\t"
    else if c == 'Z' then ['\U{1A}']
    else if c == '%' then "\\%"
    else if c == '_' then "\\_"
    else [c]
  }

  function Prepend(p: string, o: Option<(string, string)>): Option<(string, string)> {
    if o.None? then None else Some((p + o.value.0, o.value.1))
  }

  /** Reads the body of a quoted literal whose opening quote has been consumed: the value, and what follows
      the closing quote.  Inside the literal a doubled quote stands for one quote.  `None` when the input
      ends first. */
  function ReadQuoted(s: string): Option<(string, string)>
    decreases |s|
  {
    if s == [] then None
    else if s[0] == '\'' then
      if |s| > 1 && s[1] == '\'' then Prepend("'", ReadQuoted(s[2..])) else Some(([], s[1..]))
    else if s[0] == '\\' then
      if |s| == 1 then None else Prepend(Unescape(s[1]), ReadQuoted(s[2..]))
    else Prepend([s[0]], ReadQuoted(s[1..]))
  }

  lemma {:induction false} ReadQuotedPlain(c: char, s: string)
    requires c != '\'' && c != '\\'
    ensures ReadQuoted([c] + s) == Prepend([c], ReadQuoted(s))
  {
    assert ([c] + s)[1..] == s;
  }

  lemma {:induction false} ReadQuotedEscape(c: char, s: string)
    ensures ReadQuoted(['\\', c] + s) == Prepend(Unescape(c), ReadQuoted(s))
  {
    assert (['\\', c] + s)[2..] == s;
  }

  lemma {:induction false} ReadQuotedDoubled(s: string)
    ensures ReadQuoted("''" + s) == Prepend("'", ReadQuoted(s))
  {
    assert ("''" + s)[2..] == s;
  }

  lemma {:induction false} PrependSome(p: string, v: string, rest: string, w: string)
    requires w == p + v
    ensures Prepend(p, Some((v, rest))) == Some((w, rest))
  {
    var o := Prepend(p, Some((v, rest)));
    assert o.value.0 == w && o.value.1 == rest;
  }

  /** Reads one value of a VALUES list: the word NULL, or a quoted literal. */
  function ReadLiteral(s: string): Option<(Option<string>, string)> {
    if StartsWith(s, "NULL") then Some((None, s[4..]))
    else if s != [] && s[0] == '\'' then
      var body := ReadQuoted(s[1..]);
      if body.None? then None else Some((Some(body.value.0), body.value.1))
    else None
  }

  lemma {:induction false} NotNull(s: string)
    requires s != [] && s[0] != 'N'
    ensures !StartsWith(s, "NULL")
  {
    if |s| >= 4 {
      assert s[..4][0] == s[0];
    }
  }

  /** One escaped character reads back as itself, whatever follows it. */
  lemma {:induction false} ReadEscapedChar(c: char, t: string)
    ensures ReadQuoted(EscapeChar(c) + t) == Prepend([c], ReadQuoted(t))
  {
    if c == '\\' || c == '\'' {
      assert EscapeChar(c) + t == ['\\', c] + t;
      ReadQuotedEscape(c, t);
      assert Unescape(c) == [c];
    } else {
      assert EscapeChar(c) + t == [c] + t;
      ReadQuotedPlain(c, t);
    }
  }

  /** The escaped body ends exactly at the closing quote and reads back as the original text. */
  lemma {:induction false} ReadEscaped(s: string, rest: string)
    requires rest == [] || rest[0] != '\''
    ensures ReadQuoted(EscapeChars(s) + "'" + rest) == Some((s, rest))
    decreases |s|
  {
    if s == [] {
      assert EscapeChars(s) + "'" + rest == "'" + rest;
      assert ("'" + rest)[1..] == rest;
    } else {
      var t := EscapeChars(s[1..]) + "'" + rest;
      assert ReadQuoted(t) == Some((s[1..], rest)) by {
        ReadEscaped(s[1..], rest);
      }
      assert EscapeChars(s) + "'" + rest == EscapeChar(s[0]) + t;
      ReadEscapedChar(s[0], t);
      assert [s[0]] + s[1..] == s;
      PrependSome([s[0]], s[1..], rest, s);
    }
  }

  /** Round trip: a value written by `escape_sql_string` reads back as that value, and reading stops right
      after it, whatever follows (unless that begins with a quote, which no dump line puts there). */
  lemma {:induction false} EscapeSqlStringRoundTrip(v: Option<string>, rest: string)
    requires rest == [] || rest[0] != '\''
    ensures ReadLiteral(EscapeSqlString(v) + rest) == Some((v, rest))
  {
    if v.Some? {
      EscapeSqlStringChars(v.value);
      ReadEscaped(v.value, rest);
      var e := EscapeSqlString(v) + rest;
      assert e == "'" + (EscapeChars(v.value) + "'" + rest);
      NotNull(e);
      assert e[1..] == EscapeChars(v.value) + "'" + rest;
    } else {
      assert (EscapeSqlString(v) + rest)[..4] == "NULL";
      assert (EscapeSqlString(v) + rest)[4..] == rest;
    }
  }

  lemma {:induction false} QuoteFirstOfQuote()
    ensures EscapeSql(Some("'")) == "'\\\\''"
  {
    EscapeSqlChars("'");
    assert QuoteFirstChars("'") == "\\\\'";
  }

  /** The body after the opening quote: the escaped backslash, then the doubled quote, run on past the
      separator up to the next quote. */
  lemma {:induction false} MisreadBody()
    ensures ReadQuoted("\\\\'', 'x'") == Some(("\\', ", "x'"))
  {
    var a0 := "'x'";
    assert ReadQuoted(a0) == Some(([], "x'"));
    var a1 := [' '] + a0;
    var a2 := [','] + a1;
    var a3 := "''" + a2;
    var a4 := ['\\', '\\'] + a3;
    ReadQuotedPlain(' ', a0);
    PrependSome([' '], [], "x'", " ");
    ReadQuotedPlain(',', a1);
    PrependSome([','], " ", "x'", ", ");
    ReadQuotedDoubled(a2);
    PrependSome("'", ", ", "x'", "', ");
    ReadQuotedEscape('\\', a3);
    assert Unescape('\\') == "\\";
    PrependSome("\\", "', ", "x'", "\\', ");
    assert a4 == "\\\\'', 'x'";
  }

  /** The quote-first escaper turns a lone quote into `'\\''`, which MySQL reads as a backslash, then a
      doubled quote standing for a quote: the literal does not end where it was meant to: it swallows
      the separator and the opening quote of the next value, and reading resumes in the middle of that value. */
  lemma {:induction false} QuoteFirstMisreads()
    ensures EscapeSql(Some("'")) == "'\\\\''"
    ensures ReadLiteral(EscapeSql(Some("'")) + ", 'x'") == Some((Some("\\', "), "x'"))
  {
    QuoteFirstOfQuote();
    var line := "'\\\\'', 'x'";
    assert EscapeSql(Some("'")) + ", 'x'" == line;
    MisreadBody();
    assert line[1..] == "\\\\'', 'x'";
    NotNull(line);
  }

  // ---------------------------------------------------------------------------
  // INSERT lines
  // ---------------------------------------------------------------------------

  const InsertMarker: string := "INSERT INTO `phraseological_dict`"
  /** The column list and the opening of the VALUES list that follow the marker on every INSERT line. */
  const InsertColumns: string :=
    " (`id`, `phrase`, `meaning`," + " `etymology`, `usage_example`," + " `categories`, `source_url`)" + " VALUES ("

  /** `", " + v` for each value: what follows the id in the VALUES list. */
  function ValueTail(values: seq<string>): string
    decreases |values|
  {
    if values == [] then [] else ", " + values[0] + ValueTail(values[1..])
  }

  /** A VALUES row after the fixed text `head`: the id, the already escaped column values, and ");". */
  function Row(head: string, id: nat, values: seq<string>): string {
    head + Decimal(id) + ValueTail(values) + ");"
  }

  /** One INSERT statement of the dumps, for row `id` and the already escaped column values. */
  function InsertLine(id: nat, values: seq<string>): string {
    Row(InsertMarker + InsertColumns, id, values)
  }

  /** The length of the run of digits that `s` starts with. */
  function DigitRun(s: string): (n: nat)
    ensures n <= |s| && forall i :: 0 <= i < n ==> IsDigit(s[i])
    ensures n == |s| || !IsDigit(s[n])
    decreases |s|
  {
    if s != [] && IsDigit(s[0]) then 1 + DigitRun(s[1..]) else 0
  }

  /** Reads `n` values, each preceded by ", ". */
  function ReadTail(s: string, n: nat): Option<(seq<Option<string>>, string)>
    decreases n
  {
    if n == 0 then Some(([], s))
    else if !StartsWith(s, ", ") then None
    else
      var v := ReadLiteral(s[2..]);
      if v.None? then None
      else
        var more := ReadTail(v.value.1, n - 1);
        if more.None? then None else Some(([v.value.0] + more.value.0, more.value.1))
  }

  /** Reads a row written by `Row(head, ...)`: the id and `n` column values, then ");" and nothing else. */
  function ReadRow(head: string, line: string, n: nat): Option<(nat, seq<Option<string>>)> {
    if !StartsWith(line, head) then None else ReadValues(line[|head|..], n)
  }

  /** Reads the id, then `n` values each after ", ", then ");" and nothing else. */
  function ReadValues(s: string, n: nat): Option<(nat, seq<Option<string>>)> {
    var k := DigitRun(s);
    if k == 0 then None
    else
      var values := ReadTail(s[k..], n);
      if values.None? || values.value.1 != ");" then None
      else Some((DigitsValue(s[..k]), values.value.0))
  }

  /** How MySQL reads an INSERT line of the dumps. */
  function ReadInsert(line: string, n: nat): Option<(nat, seq<Option<string>>)> {
    ReadRow(InsertMarker + InsertColumns, line, n)
  }

  function EscapeAll(vs: seq<Option<string>>): (es: seq<string>)
    ensures |es| == |vs|
    decreases |vs|
  {
    if vs == [] then [] else [EscapeSqlString(vs[0])] + EscapeAll(vs[1..])
  }

  lemma {:induction false} ReadTailStep(s: string, n: nat, v: Option<string>, rest: string, vs: seq<Option<string>>, last: string)
    requires n > 0 && StartsWith(s, ", ")
    requires ReadLiteral(s[2..]) == Some((v, rest))
    requires ReadTail(rest, n - 1) == Some((vs, last))
    ensures ReadTail(s, n) == Some(([v] + vs, last))
  {
    var r := ReadTail(s, n);
    assert r.value.0 == [v] + vs && r.value.1 == last;
  }

  lemma {:induction false} ReadTailRoundTrip(vs: seq<Option<string>>)
    ensures ReadTail(ValueTail(EscapeAll(vs)) + ");", |vs|) == Some((vs, ");"))
    decreases |vs|
  {
    if vs != [] {
      var e := EscapeAll(vs);
      var rest := ValueTail(EscapeAll(vs[1..])) + ");";
      var s := ", " + (e[0] + rest);
      assert ValueTail(e) + ");" == s by {
        assert e[1..] == EscapeAll(vs[1..]);
      }
      assert StartsWith(s, ", ") && s[2..] == e[0] + rest by {
        ConcatSlices(", ", e[0] + rest);
      }
      assert ReadLiteral(e[0] + rest) == Some((vs[0], rest)) by {
        assert rest[0] == ',' || rest[0] == ')';
        EscapeSqlStringRoundTrip(vs[0], rest);
      }
      assert ReadTail(rest, |vs| - 1) == Some((vs[1..], ");")) by {
        ReadTailRoundTrip(vs[1..]);
      }
      ReadTailStep(s, |vs|, vs[0], rest, vs[1..], ");");
      assert [vs[0]] + vs[1..] == vs;
    } else {
      assert ValueTail(EscapeAll(vs)) + ");" == ");";
    }
  }

  lemma {:induction false} DigitRunExact(s: string, m: nat)
    requires m <= |s| && forall i :: 0 <= i < m ==> IsDigit(s[i])
    requires m == |s| || !IsDigit(s[m])
    ensures DigitRun(s) == m
    decreases m
  {
    if m > 0 {
      assert IsDigit(s[0]);
      DigitRunExact(s[1..], m - 1);
    } else if s != [] {
      assert !IsDigit(s[0]);
    }
  }

  lemma {:induction false} DigitRunOfDecimal(n: nat, rest: string)
    requires rest == [] || !IsDigit(rest[0])
    ensures DigitRun(Decimal(n) + rest) == |Decimal(n)|
  {
    var d := Decimal(n);
    var s := d + rest;
    forall i | 0 <= i < |d|
      ensures IsDigit(s[i])
    {
      assert s[i] == d[i];
    }
    if rest != [] {
      assert s[|d|] == rest[0];
    }
    DigitRunExact(s, |d|);
  }

  lemma {:induction false} ValuesRoundTrip(id: nat, vs: seq<Option<string>>)
    requires |vs| > 0
    ensures ReadValues(Decimal(id) + ValueTail(EscapeAll(vs)) + ");", |vs|) == Some((id, vs))
  {
    var d := Decimal(id);
    var tail := ValueTail(EscapeAll(vs)) + ");";
    var s := d + tail;
    assert (d + ValueTail(EscapeAll(vs))) + ");" == s;
    assert DigitRun(s) == |d| && s[..|d|] == d && s[|d|..] == tail by {
      assert tail[0] == ',';
      DigitRunOfDecimal(id, tail);
      ConcatSlices(d, tail);
    }
    assert ReadTail(tail, |vs|) == Some((vs, ");")) by {
      ReadTailRoundTrip(vs);
    }
    assert DigitsValue(d) == id by {
      DecimalRoundTrip(id);
    }
    var r := ReadValues(s, |vs|);
    assert r.value.0 == id && r.value.1 == vs;
  }

  lemma {:induction false} RowRoundTrip(head: string, id: nat, vs: seq<Option<string>>)
    requires |vs| > 0
    ensures ReadRow(head, Row(head, id, EscapeAll(vs)), |vs|) == Some((id, vs))
  {
    var s := Decimal(id) + ValueTail(EscapeAll(vs)) + ");";
    assert Row(head, id, EscapeAll(vs)) == head + s;
    ConcatSlices(head, s);
    ValuesRoundTrip(id, vs);
  }

  /** Round trip for a whole INSERT line written with `escape_sql_string`: MySQL reads back the row id and
      every column value. */
  lemma {:induction false} InsertLineRoundTrip(id: nat, vs: seq<Option<string>>)
    requires |vs| > 0
    ensures ReadInsert(InsertLine(id, EscapeAll(vs)), |vs|) == Some((id, vs))
  {
    RowRoundTrip(InsertMarker + InsertColumns, id, vs);
  }
}
