/** generate_final_sql.py: the final MySQL dump of the improved records, written with the quote-first escaper,
    and the count of records that have a usage example. */
module GenerateFinalSql {
  import opened PyStr
  import opened SeqUtil
  import opened Records
  import opened SqlLiteral
  import opened Schema
  import opened CreateMysqlDb

  /** The six column values after the id: the phrase, all meanings joined by "; ", then `d.get(k, '')` for the
      etymology, `d.get('usage_example')`, and `d.get(k, '')` for the category and the source URL. */
  function FinalRowValues(r: Record): (v: seq<Option<string>>)
    ensures |v| == 6
  {
    [Some(r.phrase), Some(Join("; ", MeaningsOf(r))), GetOr(r.etymology, ""), Get(r.usageExample),
     GetOr(r.category, ""), GetOr(r.sourceUrl, "")]
  }

  /** Each value through `escape_sql`. */
  function QuoteFirstAll(vs: seq<Option<string>>): (es: seq<string>)
    ensures |es| == |vs|
    decreases |vs|
  {
    if vs == [] then [] else [EscapeSql(vs[0])] + QuoteFirstAll(vs[1..])
  }

  lemma {:induction false} QuoteFirstAllAt(vs: seq<Option<string>>, k: nat)
    requires k < |vs|
    ensures QuoteFirstAll(vs)[k] == EscapeSql(vs[k])
    decreases k
  {
    if k > 0 {
      QuoteFirstAllAt(vs[1..], k - 1);
    }
  }

  /** What each column of the final dump holds: NULL appears only for a `null` etymology, category or source
      URL and for an absent or `null` usage example; an absent etymology, category or source URL is written as
      the empty literal ''. */
  lemma {:induction false} FinalColumns(r: Record)
    ensures var e := QuoteFirstAll(FinalRowValues(r));
      && e[0] == EscapeSql(Some(r.phrase)) && e[0] != "NULL"
      && e[1] != "NULL"
      && (e[2] == "NULL" <==> r.etymology.Null?) && (r.etymology.Missing? ==> e[2] == "''")
      && (e[3] == "NULL" <==> !r.usageExample.Has?)
      && (e[4] == "NULL" <==> r.category.Null?) && (r.category.Missing? ==> e[4] == "''")
      && (e[5] == "NULL" <==> r.sourceUrl.Null?) && (r.sourceUrl.Missing? ==> e[5] == "''")
  {
    var v := FinalRowValues(r);
    var e := QuoteFirstAll(v);
    forall k | 0 <= k < 6
      ensures e[k] == EscapeSql(v[k])
    {
      QuoteFirstAllAt(v, k);
    }
    DefaultColumn(r.etymology, e[2]);
    DefaultColumn(r.category, e[4]);
    DefaultColumn(r.sourceUrl, e[5]);
  }

  /** A `d.get(k, '')` column is NULL only for `null`, and '' when the key is absent. */
  lemma {:induction false} DefaultColumn(f: Field, e: string)
    requires e == EscapeSql(GetOr(f, ""))
    ensures e == "NULL" <==> f.Null?
    ensures f.Missing? ==> e == "''"
  {
    if f.Missing? {
      assert Replace(Replace("", "'", "\\'"), "\\", "\\\\") == "";
    }
  }

  /** The meaning column reads back as the list of meanings when the list is not empty and no meaning holds the
      separator "; ". */
  lemma {:induction false} FinalMeaningSplits(r: Record)
    requires MeaningsOf(r) != [] && forall k :: 0 <= k < |MeaningsOf(r)| ==> !Contains(MeaningsOf(r)[k], "; ")
    ensures SplitOn(FinalRowValues(r)[1].value, "; ") == MeaningsOf(r)
  {
    SplitOnJoin(MeaningsOf(r));
  }

  /** The two escapers agree on values without a quote. */
  lemma {:induction false} QuoteFirstAllAgree(vs: seq<Option<string>>)
    requires forall k :: 0 <= k < |vs| ==> vs[k].Some? ==> !Contains(vs[k].value, "'")
    ensures QuoteFirstAll(vs) == EscapeAll(vs)
    decreases |vs|
  {
    if vs != [] {
      if vs[0].Some? {
        EscapersAgreeWithoutQuotes(vs[0].value);
      }
      assert forall k :: 0 <= k < |vs[1..]| ==> vs[1..][k] == vs[k + 1];
      QuoteFirstAllAgree(vs[1..]);
    }
  }

  /** The INSERT line of the final dump for row `id`. */
  function FinalInsertFor(id: nat, r: Record): string {
    InsertLine(id, QuoteFirstAll(FinalRowValues(r)))
  }

  /** One INSERT line per record, with ids 1, 2, ... in input order. */
  function FinalInserts(phrases: seq<Record>): (lines: seq<string>)
    ensures |lines| == |phrases|
  {
    seq(|phrases|, i requires 0 <= i < |phrases| => FinalInsertFor(i + 1, phrases[i]))
  }

  /** No column value of the record holds a quote. */
  predicate QuoteFree(r: Record) {
    forall k :: 0 <= k < 6 ==> FinalRowValues(r)[k].Some? ==> !Contains(FinalRowValues(r)[k].value, "'")
  }

  /** For records whose values hold no quote, each INSERT line of the final dump reads back, by MySQL's rules,
      as its row id and the record's six column values. */
  lemma {:induction false} FinalInsertsReadBack(phrases: seq<Record>)
    requires forall i :: 0 <= i < |phrases| ==> QuoteFree(phrases[i])
    ensures forall i :: 0 <= i < |phrases| ==>
      ReadInsert(FinalInserts(phrases)[i], 6) == Some((i + 1, FinalRowValues(phrases[i])))
  {
    forall i | 0 <= i < |phrases|
      ensures ReadInsert(FinalInserts(phrases)[i], 6) == Some((i + 1, FinalRowValues(phrases[i])))
    {
      assert FinalInserts(phrases)[i] == FinalInsertFor(i + 1, phrases[i]);
      FinalLineReadBack(i + 1, phrases[i]);
    }
  }

  lemma {:induction false} FinalLineReadBack(id: nat, r: Record)
    requires QuoteFree(r)
    ensures ReadInsert(FinalInsertFor(id, r), 6) == Some((id, FinalRowValues(r)))
  {
    var v := FinalRowValues(r);
    QuoteFirstAllAgree(v);
    InsertLineRoundTrip(id, v);
  }

  /** The INSERT line of the final dump with every value escaped backslash first, as create_mysql_db.py
      escapes: the order the quote-first escaper evidently intended. */
  function IntendedFinalInsertFor(id: nat, r: Record): string {
    InsertLine(id, EscapeAll(FinalRowValues(r)))
  }

  /** With backslash-first escaping every record's line reads back as its id and its six column values,
      whatever quotes and backslashes the values hold; it agrees with the written line when no value holds
      a quote. */
  lemma {:induction false} IntendedFinalLineReadBack(id: nat, r: Record)
    ensures ReadInsert(IntendedFinalInsertFor(id, r), 6) == Some((id, FinalRowValues(r)))
    ensures QuoteFree(r) ==> IntendedFinalInsertFor(id, r) == FinalInsertFor(id, r)
  {
    InsertLineRoundTrip(id, FinalRowValues(r));
    if QuoteFree(r) {
      QuoteFirstAllAgree(FinalRowValues(r));
    }
  }

  const FinalSubtitle: string := "-- Generated with filled " + "usage examples"
  const GeneratedAtPrefix: string := "-- Generated at: "

  /** The four comment lines, with the record count and the generation time. */
  function FinalCommentLines(n: nat, generatedAt: string): (c: seq<string>)
    ensures |c| == 4
  {
    [DumpTitle, FinalSubtitle, TotalPrefix + Decimal(n), GeneratedAtPrefix + generatedAt]
  }

  /** The comment lines, then the schema; no blank line follows LOCK TABLES here. */
  function FinalHeaderLines(n: nat, generatedAt: string): (h: seq<string>)
    ensures |h| == 27
  {
    FinalCommentLines(n, generatedAt) + SchemaLines
  }

  const FinalFooterLines: seq<string> := ["", "UNLOCK TABLES;", "", "SET FOREIGN_KEY_CHECKS = 1;"]

  /** The text written to phraseological_dict_final.sql; `generatedAt` is the formatted current time. */
  function FinalDump(phrases: seq<Record>, generatedAt: string): string {
    Join("\n", FinalHeaderLines(|phrases|, generatedAt) + FinalInserts(phrases) + FinalFooterLines)
  }

  lemma {:induction false} FinalHeaderEnds(n: nat, generatedAt: string)
    ensures FinalHeaderLines(n, generatedAt)[26] == "LOCK TABLES " + TableName + " WRITE;"
  {
    assert FinalHeaderLines(n, generatedAt)[26] == SchemaLines[22];
  }

  /** The dump is its lines joined by newlines: the 27 header lines ending with LOCK TABLES, one line per
      record, and the four footer lines. */
  lemma {:induction false} FinalDumpLines(phrases: seq<Record>, generatedAt: string)
    ensures var lines := FinalHeaderLines(|phrases|, generatedAt) + FinalInserts(phrases) + FinalFooterLines;
      FinalDump(phrases, generatedAt) == Join("\n", lines) &&
      |lines| == |phrases| + 31 &&
      lines[26] == "LOCK TABLES " + TableName + " WRITE;"
  {
    FinalHeaderEnds(|phrases|, generatedAt);
  }

  /** Row i + 1 follows LOCK TABLES directly, on line 27 + i, and UNLOCK TABLES comes after the blank line
      that follows the last row. */
  lemma {:induction false} FinalDumpRows(phrases: seq<Record>, generatedAt: string)
    ensures var lines := FinalHeaderLines(|phrases|, generatedAt) + FinalInserts(phrases) + FinalFooterLines;
      (forall i :: 0 <= i < |phrases| ==> lines[27 + i] == FinalInsertFor(i + 1, phrases[i])) &&
      lines[|phrases| + 27] == "" && lines[|phrases| + 28] == "UNLOCK TABLES;"
  {
    var h, ins := FinalHeaderLines(|phrases|, generatedAt), FinalInserts(phrases);
    forall i | 0 <= i < |phrases|
      ensures (h + ins + FinalFooterLines)[27 + i] == FinalInsertFor(i + 1, phrases[i])
    {
      MiddleAt(h, ins, FinalFooterLines, i);
      assert ins[i] == FinalInsertFor(i + 1, phrases[i]);
    }
    AfterMiddle(h, ins, FinalFooterLines, 0);
    AfterMiddle(h, ins, FinalFooterLines, 1);
  }

  /** `sum(1 for p in phrases if p.get('usage_example'))`. */
  function WithExamples(phrases: seq<Record>): nat
    decreases |phrases|
  {
    if phrases == [] then 0
    else WithExamples(phrases[..|phrases| - 1]) + (if Truthy(phrases[|phrases| - 1].usageExample) then 1 else 0)
  }

  /** The count is at most the number of records, reaches it exactly when every record has a usage example,
      and is zero exactly when none has, so "without examples" is never negative. */
  lemma {:induction false} WithExamplesBounds(phrases: seq<Record>)
    ensures WithExamples(phrases) <= |phrases|
    ensures WithExamples(phrases) == |phrases| <==> forall i :: 0 <= i < |phrases| ==> Truthy(phrases[i].usageExample)
    ensures WithExamples(phrases) == 0 <==> forall i :: 0 <= i < |phrases| ==> !Truthy(phrases[i].usageExample)
    decreases |phrases|
  {
    if phrases != [] {
      var init := phrases[..|phrases| - 1];
      WithExamplesBounds(init);
      assert forall i :: 0 <= i < |init| ==> init[i] == phrases[i];
    }
  }

  lemma {:induction false} WithExamplesAppend(phrases: seq<Record>, r: Record)
    ensures WithExamples(phrases + [r]) == WithExamples(phrases) + (if Truthy(r.usageExample) then 1 else 0)
  {
    assert (phrases + [r])[..|phrases|] == phrases;
  }

  /** The INSERT loop of `generate_sql_dump`. */
  method FinalInsertLoop(phrases: seq<Record>) returns (lines: seq<string>)
    ensures lines == FinalInserts(phrases)
  {
    lines := [];
    var i := 0;
    while i < |phrases|
      invariant 0 <= i <= |phrases|
      invariant lines == FinalInserts(phrases[..i])
    {
      var p := phrases[i];
      var meaning := Join("; ", MeaningsOf(p));
      var values := [Some(p.phrase), Some(meaning), GetOr(p.etymology, ""), Get(p.usageExample),
        GetOr(p.category, ""), GetOr(p.sourceUrl, "")];
      assert values == FinalRowValues(p);
      lines := lines + [InsertLine(i + 1, QuoteFirstAll(values))];
      assert phrases[..i + 1][i] == p;
      assert forall j :: 0 <= j < i ==> phrases[..i + 1][j] == phrases[..i][j];
      i := i + 1;
    }
    TakeAll(phrases);
  }

  /** The report of `generate_sql_dump`: the dump, the records with a usage example and those without. */
  datatype FinalReport = FinalReport(content: string, total: nat, withExamples: nat, withoutExamples: int)

  /** `generate_sql_dump`: header, the INSERT lines and footer joined by newlines, and the counts it reports. */
  method GenerateSqlDump(phrases: seq<Record>, generatedAt: string) returns (r: FinalReport)
    ensures r.content == FinalDump(phrases, generatedAt)
    ensures r.total == |phrases| && r.withExamples == WithExamples(phrases)
    ensures r.withoutExamples == |phrases| - r.withExamples
  {
    var header := FinalHeaderLines(|phrases|, generatedAt);
    var inserts := FinalInsertLoop(phrases);
    var content := Join("\n", header + inserts + FinalFooterLines);
    var withExamples := WithExamples(phrases);
    r := FinalReport(content, |phrases|, withExamples, |phrases| - withExamples);
  }
}
