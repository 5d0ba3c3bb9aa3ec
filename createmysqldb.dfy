/** `generate_sql_dump` of create_mysql_db.py: the MySQL dump of the phrase records, written with the
    backslash-first escaper. */
module CreateMysqlDb {
  import opened PyStr
  import opened SeqUtil
  import opened Records
  import opened SqlLiteral
  import opened Schema

  /** The category column: `d.get('category', '')`, with "" turned into `None`. */
  function CategoryValue(f: Field): (v: Option<string>)
    ensures v.None? <==> !Truthy(f)
    ensures v.Some? ==> f == Has(v.value)
  {
    var c := GetOr(f, "");
    if c == Some("") then None else c
  }

  /** The six column values after the id: phrase, first meaning, etymology, usage example, category and source
      URL.  A record without a `meanings` key stops the script with a KeyError. */
  function RowValues(r: Record): (v: Result<seq<Option<string>>>)
    ensures v.Failure? <==> r.meanings.None?
    ensures v.Failure? ==> v.error == KeyError("meanings")
    ensures v.Ok? ==> |v.value| == 6
  {
    if r.meanings.None? then Failure(KeyError("meanings"))
    else
      var meaning := if r.meanings.value != [] then r.meanings.value[0] else "";
      Ok([Some(r.phrase), Some(meaning), Get(r.etymology), None, CategoryValue(r.category), Get(r.sourceUrl)])
  }

  /** What each column holds: the phrase; only the first meaning, or "" for an empty list; the etymology and
      source URL, NULL when absent or `null` but '' when present and empty; always NULL for the usage example;
      the category, NULL when it is absent, `null` or empty. */
  lemma {:induction false} RowColumns(r: Record)
    requires r.meanings.Some?
    ensures var v := RowValues(r).value;
      && v[0] == Some(r.phrase)
      && (r.meanings.value == [] ==> v[1] == Some(""))
      && (r.meanings.value != [] ==> v[1] == Some(r.meanings.value[0]))
      && (v[2].None? <==> !r.etymology.Has?) && (v[2].Some? ==> v[2].value == r.etymology.value)
      && v[3].None?
      && (v[4].None? <==> !Truthy(r.category)) && (v[4].Some? ==> v[4].value == r.category.value)
      && (v[5].None? <==> !r.sourceUrl.Has?) && (v[5].Some? ==> v[5].value == r.sourceUrl.value)
  {
  }

  /** The INSERT line for a record with meanings, as row `id`. */
  function InsertFor(id: nat, r: Record): string
    requires r.meanings.Some?
  {
    InsertLine(id, EscapeAll(RowValues(r).value))
  }

  /** The INSERT lines for `phrases`, with ids 1, 2, ... in input order; the first record without meanings
      stops the script. */
  function Inserts(phrases: seq<Record>): Result<seq<string>>
    decreases |phrases|
  {
    if phrases == [] then Ok([])
    else
      var init := Inserts(phrases[..|phrases| - 1]);
      var row := RowValues(phrases[|phrases| - 1]);
      if init.Failure? then init
      else if row.Failure? then Failure(row.error)
      else Ok(init.value + [InsertFor(|phrases|, phrases[|phrases| - 1])])
  }

  const DumpTitle: string := "-- MySQL dump for " + "phraseological dictionary"
  const TotalPrefix: string := "-- Total phrases: "

  /** The three comment lines at the top, with the record count. */
  function CommentLines(n: nat): (c: seq<string>)
    ensures |c| == 3
  {
    [DumpTitle, "-- Generated from table_phrases.json", TotalPrefix + Decimal(n)]
  }

  /** The comment lines, the schema, and the blank line before the data. */
  function HeaderLines(n: nat): (h: seq<string>)
    ensures |h| == 27
  {
    CommentLines(n) + SchemaLines + [""]
  }

  const FooterLines: seq<string> := ["", "UNLOCK TABLES;", "SET FOREIGN_KEY_CHECKS = 1;"]

  /** The text written to phraseological_dict.sql, or the error that stops the script. */
  function Dump(phrases: seq<Record>): Result<string> {
    var ins := Inserts(phrases);
    if ins.Failure? then Failure(ins.error) else Ok(Join("\n", HeaderLines(|phrases|) + ins.value + FooterLines))
  }

  /** Every record has a `meanings` key. */
  predicate AllHaveMeanings(phrases: seq<Record>) {
    forall i :: 0 <= i < |phrases| ==> phrases[i].meanings.Some?
  }

  /** The script fails exactly when some record lacks meanings, always with the same KeyError. */
  lemma {:induction false} InsertsFailure(phrases: seq<Record>)
    ensures Inserts(phrases).Ok? <==> AllHaveMeanings(phrases)
    ensures Inserts(phrases).Failure? ==> Inserts(phrases).error == KeyError("meanings")
    decreases |phrases|
  {
    if phrases != [] {
      var init := phrases[..|phrases| - 1];
      InsertsFailure(init);
      assert forall i :: 0 <= i < |init| ==> init[i] == phrases[i];
    }
  }

  /** Otherwise it writes one INSERT line per record, line i for row i + 1 with that record's values. */
  lemma {:induction false} InsertsLines(phrases: seq<Record>)
    requires AllHaveMeanings(phrases)
    ensures Inserts(phrases).Ok? && |Inserts(phrases).value| == |phrases|
    ensures forall i :: 0 <= i < |phrases| ==>
      Inserts(phrases).value[i] == InsertFor(i + 1, phrases[i])
    decreases |phrases|
  {
    InsertsFailure(phrases);
    if phrases != [] {
      var n := |phrases|;
      var init := phrases[..n - 1];
      InsertsFailure(init);
      InsertsLines(init);
      var lines := Inserts(phrases).value;
      assert lines == Inserts(init).value + [InsertFor(n, phrases[n - 1])];
      forall i | 0 <= i < n
        ensures lines[i] == InsertFor(i + 1, phrases[i])
      {
        if i < n - 1 {
          assert init[i] == phrases[i];
        }
      }
    }
  }

  lemma {:induction false} InsertsStep(phrases: seq<Record>, i: nat, lines: seq<string>, line: string)
    requires i < |phrases| && phrases[i].meanings.Some?
    requires Inserts(phrases[..i]) == Ok(lines)
    requires line == InsertFor(i + 1, phrases[i])
    ensures Inserts(phrases[..i + 1]) == Ok(lines + [line])
  {
    TakeSnoc(phrases, i);
    assert phrases[..i + 1][..i] == phrases[..i];
  }

  /** The INSERT line of one record reads back as its row id and its six column values. */
  lemma {:induction false} InsertForReadBack(id: nat, r: Record)
    requires r.meanings.Some?
    ensures ReadInsert(InsertFor(id, r), 6) == Some((id, RowValues(r).value))
  {
    InsertLineRoundTrip(id, RowValues(r).value);
  }

  /** Each INSERT line reads back, by MySQL's rules, as its row id and the record's six column values. */
  lemma {:induction false} InsertsReadBack(phrases: seq<Record>)
    requires AllHaveMeanings(phrases)
    ensures Inserts(phrases).Ok? && |Inserts(phrases).value| == |phrases|
    ensures forall i :: 0 <= i < |phrases| ==>
      ReadInsert(Inserts(phrases).value[i], 6) == Some((i + 1, RowValues(phrases[i]).value))
  {
    InsertsLines(phrases);
    var lines := Inserts(phrases).value;
    forall i | 0 <= i < |phrases|
      ensures ReadInsert(lines[i], 6) == Some((i + 1, RowValues(phrases[i]).value))
    {
      assert lines[i] == InsertFor(i + 1, phrases[i]);
      InsertForReadBack(i + 1, phrases[i]);
    }
  }

  lemma {:induction false} HeaderEnds(n: nat)
    ensures HeaderLines(n)[25] == "LOCK TABLES " + TableName + " WRITE;" && HeaderLines(n)[26] == ""
  {
    assert HeaderLines(n)[25] == SchemaLines[22];
  }

  /** The dump's lines: the data section opens with LOCK TABLES, holds row i + 1 on line 27 + i, and is
      closed by UNLOCK TABLES. */
  lemma {:induction false} DumpLayout(phrases: seq<Record>)
    requires AllHaveMeanings(phrases)
    ensures Inserts(phrases).Ok?
    ensures var lines := HeaderLines(|phrases|) + Inserts(phrases).value + FooterLines;
      Dump(phrases) == Ok(Join("\n", lines)) &&
      |lines| == |phrases| + 30 &&
      lines[25] == "LOCK TABLES " + TableName + " WRITE;" &&
      lines[|phrases| + 28] == "UNLOCK TABLES;" &&
      forall i :: 0 <= i < |phrases| ==> ReadInsert(lines[27 + i], 6) == Some((i + 1, RowValues(phrases[i]).value))
  {
    InsertsReadBack(phrases);
    HeaderEnds(|phrases|);
    ThreeParts(HeaderLines(|phrases|), Inserts(phrases).value, FooterLines);
  }

  lemma {:induction false} ThreeParts<T>(a: seq<T>, b: seq<T>, c: seq<T>)
    ensures |a + b + c| == |a| + |b| + |c|
    ensures forall i :: 0 <= i < |a| ==> (a + b + c)[i] == a[i]
    ensures forall i :: 0 <= i < |b| ==> (a + b + c)[|a| + i] == b[i]
    ensures forall i :: 0 <= i < |c| ==> (a + b + c)[|a| + |b| + i] == c[i]
  {
  }

  /** The body of the INSERT loop of `generate_sql_dump` for a record with meanings: its six values, then
      its line. */
  method InsertRow(id: nat, p: Record) returns (line: string)
    requires p.meanings.Some?
    ensures line == InsertFor(id, p)
  {
    var meaning := if p.meanings.value != [] then p.meanings.value[0] else "";
    var etymology := Get(p.etymology);
    var categories := GetOr(p.category, "");
    var sourceUrl := Get(p.sourceUrl);
    if categories == Some("") {
      categories := None;
    }
    var values := [Some(p.phrase), Some(meaning), etymology, None, categories, sourceUrl];
    assert values == RowValues(p).value;
    line := InsertLine(id, EscapeAll(values));
  }

  /** The INSERT loop of `generate_sql_dump`: one line per record with ids 1, 2, ..., stopping at the first
      record without meanings. */
  method InsertLoop(phrases: seq<Record>) returns (r: Result<seq<string>>)
    ensures r == Inserts(phrases)
  {
    var lines := [];
    var i := 0;
    while i < |phrases|
      invariant 0 <= i <= |phrases|
      invariant Inserts(phrases[..i]) == Ok(lines)
    {
      var p := phrases[i];
      if p.meanings.None? {
        InsertsFailure(phrases);
        return Failure(KeyError("meanings"));
      }
      var line := InsertRow(i + 1, p);
      InsertsStep(phrases, i, lines, line);
      lines := lines + [line];
      i := i + 1;
    }
    TakeAll(phrases);
    r := Ok(lines);
  }

  /** `generate_sql_dump`: header, the INSERT lines, footer, joined by newlines; it returns the number of
      records, or stops at the first record without meanings. */
  method GenerateSqlDump(phrases: seq<Record>) returns (r: Result<(string, nat)>)
    ensures Dump(phrases).Failure? ==> r == Failure(Dump(phrases).error)
    ensures Dump(phrases).Ok? ==> r.Ok? && r.value.0 == Dump(phrases).value && r.value.1 == |phrases|
  {
    var header := HeaderLines(|phrases|);
    var inserts := InsertLoop(phrases);
    if inserts.Failure? {
      return Failure(inserts.error);
    }
    r := Ok((Join("\n", header + inserts.value + FooterLines), |phrases|));
  }
}
