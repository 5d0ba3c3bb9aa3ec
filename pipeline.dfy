/** What validate_sql.py makes of the dump that create_mysql_db.py writes: the four schema checks always pass,
    and for records without backticks the INSERT count is the number of records, so the validator accepts
    the dump exactly when there are 1140 records. */
module Pipeline {
  import opened PyStr
  import opened Records
  import opened SqlLiteral
  import opened Schema
  import opened CreateMysqlDb
  import opened ValidateSql

  /** No text field of the record holds a backtick, the character that ends the marker's table name. */
  predicate NoBackticks(r: Record) {
    && '`' !in r.phrase
    && (forall m :: m in MeaningsOf(r) ==> '`' !in m)
    && '`' !in Text(r.etymology)
    && '`' !in Text(r.category)
    && '`' !in Text(r.sourceUrl)
  }

  predicate ValuesWithoutBacktick(vs: seq<Option<string>>) {
    forall k :: 0 <= k < |vs| ==> vs[k].Some? ==> '`' !in vs[k].value
  }

  lemma {:induction false} RowValuesWithoutBacktick(r: Record)
    requires r.meanings.Some? && NoBackticks(r)
    ensures ValuesWithoutBacktick(RowValues(r).value)
  {
    RowColumns(r);
    if r.meanings.value != [] {
      assert r.meanings.value[0] in MeaningsOf(r);
    }
  }

  lemma {:induction false} EscapedWithoutBacktick(v: Option<string>)
    requires v.Some? ==> '`' !in v.value
    ensures '`' !in EscapeSqlString(v)
  {
    if v.Some? {
      EscapeSqlStringChars(v.value);
      EscapeCharsKeepsAbsent(v.value, '`');
    }
  }

  lemma {:induction false} ValueTailWithoutBacktick(vs: seq<Option<string>>)
    requires ValuesWithoutBacktick(vs)
    ensures '`' !in ValueTail(EscapeAll(vs))
    decreases |vs|
  {
    if vs != [] {
      var es := EscapeAll(vs);
      assert es[1..] == EscapeAll(vs[1..]);
      assert ValuesWithoutBacktick(vs[1..]) by {
        forall k | 0 <= k < |vs[1..]| ensures vs[1..][k] == vs[k + 1] { }
      }
      ValueTailWithoutBacktick(vs[1..]);
      EscapedWithoutBacktick(vs[0]);
    }
  }

  lemma {:induction false} InsertColumnsLackI()
    ensures 'I' !in InsertColumns
  {
  }

  lemma {:induction false} ColumnsEnd()
    ensures InsertColumns[|InsertColumns| - 1] == '(' && '(' !in InsertMarker
  {
  }

  lemma {:induction false} MarkerChars()
    ensures |InsertMarker| > 0 && InsertMarker[0] == 'I' && InsertMarker[12] == '`'
  {
  }

  lemma {:induction false} NewlineNotInMarker()
    ensures '\n' !in InsertMarker
  {
  }

  /** After the marker and the column list, text without the marker adds no second occurrence. */
  lemma {:induction false} MarkerOnce(x: string)
    requires !Contains(x, InsertMarker)
    ensures Count(InsertMarker + (InsertColumns + x), InsertMarker) == 1
  {
    MarkerChars();
    assert !Contains(InsertColumns, InsertMarker) by {
      InsertColumnsLackI();
      AbsentCharNotContained(InsertColumns, InsertMarker, 'I');
    }
    ColumnsEnd();
    PrefixOnce(InsertMarker, InsertColumns, x);
  }

  /** An INSERT line of escaped values without backticks holds the marker exactly once, at its start. */
  lemma {:induction false} InsertLineCount(id: nat, vs: seq<Option<string>>)
    requires ValuesWithoutBacktick(vs)
    ensures Count(InsertLine(id, EscapeAll(vs)), InsertMarker) == 1
  {
    var x := Decimal(id) + ValueTail(EscapeAll(vs)) + ");";
    assert !Contains(x, InsertMarker) by {
      ValueTailWithoutBacktick(vs);
      MarkerChars();
      AbsentCharNotContained(x, InsertMarker, '`');
    }
    assert InsertLine(id, EscapeAll(vs)) == InsertMarker + (InsertColumns + x);
    MarkerOnce(x);
  }

  lemma {:induction false} RecordLineCount(id: nat, r: Record)
    requires r.meanings.Some? && NoBackticks(r)
    ensures Count(InsertFor(id, r), InsertMarker) == 1
  {
    RowValuesWithoutBacktick(r);
    InsertLineCount(id, RowValues(r).value);
  }

  lemma {:induction false} CommentWordsLackI()
    ensures 'I' !in DumpTitle && 'I' !in CommentLines(0)[1] && 'I' !in TotalPrefix
  {
  }

  lemma {:induction false} CommentLinesCount(n: nat)
    ensures SumCounts(CommentLines(n), InsertMarker) == 0
  {
    var top := CommentLines(n);
    CommentWordsLackI();
    assert 'I' !in Decimal(n);
    assert 'I' !in top[0] && 'I' !in top[1] && 'I' !in top[2];
    MarkerChars();
    forall k | 0 <= k < |top|
      ensures Count(top[k], InsertMarker) == 0
    {
      AbsentCharNotContained(top[k], InsertMarker, 'I');
      CountNotContained(top[k], InsertMarker);
    }
    NoCountsSum(top, InsertMarker);
  }

  lemma {:induction false} HeaderCount(n: nat)
    ensures SumCounts(HeaderLines(n), InsertMarker) == 0
  {
    MarkerChars();
    CommentLinesCount(n);
    SchemaLinesCount();
    SumCountsAppend(CommentLines(n), SchemaLines, InsertMarker);
    SumCountsAppend(CommentLines(n) + SchemaLines, [""], InsertMarker);
  }

  lemma {:induction false} FooterCount()
    ensures SumCounts(FooterLines, InsertMarker) == 0
  {
    MarkerChars();
    forall k | 0 <= k < |FooterLines|
      ensures Count(FooterLines[k], InsertMarker) == 0
    {
      CountShort(FooterLines[k], InsertMarker);
    }
    NoCountsSum(FooterLines, InsertMarker);
  }

  lemma {:induction false} InsertsCount(phrases: seq<Record>)
    requires AllHaveMeanings(phrases)
    requires forall i :: 0 <= i < |phrases| ==> NoBackticks(phrases[i])
    ensures Inserts(phrases).Ok? && SumCounts(Inserts(phrases).value, InsertMarker) == |phrases|
  {
    InsertsLines(phrases);
    MarkerChars();
    var lines := Inserts(phrases).value;
    forall i | 0 <= i < |lines|
      ensures Count(lines[i], InsertMarker) == 1
    {
      RecordLineCount(i + 1, phrases[i]);
    }
    OneEachSum(lines, InsertMarker);
  }

  /** For records without backticks, the validator counts exactly one INSERT statement per record. */
  lemma {:induction false} CreateDumpInsertCount(phrases: seq<Record>)
    requires AllHaveMeanings(phrases)
    requires forall i :: 0 <= i < |phrases| ==> NoBackticks(phrases[i])
    ensures Dump(phrases).Ok? && Count(Dump(phrases).value, InsertMarker) == |phrases|
  {
    InsertsCount(phrases);
    var h, ins := HeaderLines(|phrases|), Inserts(phrases).value;
    MarkerChars();
    NewlineNotInMarker();
    CountJoin('\n', h + ins + FooterLines, InsertMarker);
    assert "\n" == ['\n'];
    HeaderCount(|phrases|);
    FooterCount();
    SumCountsAppend(h, ins, InsertMarker);
    SumCountsAppend(h + ins, FooterLines, InsertMarker);
  }

  /** Whatever the records, the dump holds the CREATE TABLE, PRIMARY KEY, AUTO_INCREMENT and utf8mb4
      patterns. */
  lemma {:induction false} CreateDumpPatterns(phrases: seq<Record>)
    requires AllHaveMeanings(phrases)
    ensures Dump(phrases).Ok?
    ensures var content := Dump(phrases).value;
      Contains(content, CreateTablePattern) && Contains(content, PrimaryKeyPattern) &&
      Contains(content, AutoIncrementPattern) && Contains(content, CharsetPattern)
  {
    InsertsFailure(phrases);
    var lines := HeaderLines(|phrases|) + Inserts(phrases).value + FooterLines;
    SchemaPatterns();
    assert lines[11] == SchemaLines[8] && lines[19] == SchemaLines[16];
    assert lines[12] == SchemaLines[9] && lines[4] == SchemaLines[1];
    ContainsJoin("\n", lines, 11, CreateTablePattern);
    ContainsJoin("\n", lines, 19, PrimaryKeyPattern);
    ContainsJoin("\n", lines, 12, AutoIncrementPattern);
    ContainsJoin("\n", lines, 4, CharsetPattern);
  }

  /** The validator's verdict on the create_mysql_db.py dump of records without backticks: it accepts exactly
      when there are 1140 records. */
  lemma {:induction false} ValidatorAcceptsCreateDump(phrases: seq<Record>)
    requires AllHaveMeanings(phrases)
    requires forall i :: 0 <= i < |phrases| ==> NoBackticks(phrases[i])
    ensures Dump(phrases).Ok?
    ensures var content := Dump(phrases).value;
      Passed(content, Patterns) == 5 && Count(content, InsertMarker) == ExpectedInserts <==>
      |phrases| == ExpectedInserts
  {
    CreateDumpInsertCount(phrases);
    CreateDumpPatterns(phrases);
    VerdictMeaning(Dump(phrases).value);
  }
}
