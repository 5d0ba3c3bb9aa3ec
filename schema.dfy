/** The fixed text shared by the three dump scripts: the table definition between the comment header and
    the INSERT statements, and the patterns the validator looks for in it. */
module Schema {
  import opened PyStr
  import opened SqlLiteral

  const TableName: string := "`phraseological_dict`"

  /** The four schema patterns validate_sql.py looks for, besides the INSERT marker. */
  const CreateTablePattern: string := "CREATE TABLE " + TableName
  const PrimaryKeyPattern: string := "PRIMARY KEY (`id`)"
  const AutoIncrementPattern: string := "AUTO_INCREMENT"
  const CharsetPattern: string := "utf8mb4"

  const Utf8mb4Charset: string := " CHARACTER SET utf8mb4"
  const UnicodeCollation: string := " COLLATE utf8mb4_unicode_ci"
  const Required: string := " NOT NULL"
  const Optional: string := " DEFAULT NULL"
  const OfPhraseologism: string := " \U{444}\U{440}\U{430}\U{437}\U{435}\U{43E}\U{43B}\U{43E}\U{433}\U{438}\U{437}\U{43C}\U{430}"

  /** The Russian comments of the text columns. */
  const PhraseComment: string := "\U{424}\U{440}\U{430}\U{437}\U{435}\U{43E}\U{43B}\U{43E}\U{433}\U{438}\U{437}\U{43C}"
  const MeaningComment: string := "\U{417}\U{43D}\U{430}\U{447}\U{435}\U{43D}\U{438}\U{435}" + OfPhraseologism
  const EtymologyComment: string := "\U{41F}\U{440}\U{43E}\U{438}\U{441}\U{445}\U{43E}\U{436}\U{434}\U{435}\U{43D}\U{438}\U{435}" + OfPhraseologism
  const UsageComment: string := "\U{41F}\U{440}\U{438}\U{43C}\U{435}\U{440} \U{438}\U{441}\U{43F}\U{43E}\U{43B}\U{44C}\U{437}\U{43E}\U{432}\U{430}\U{43D}\U{438}\U{44F}" + OfPhraseologism + " \U{432} \U{442}\U{435}\U{43A}\U{441}\U{442}\U{435}"
  const CategoryComment: string := "\U{41A}\U{430}\U{442}\U{435}\U{433}\U{43E}\U{440}\U{438}\U{44F}" + OfPhraseologism
  const TableOptions: string := ") ENGINE=InnoDB" + " DEFAULT CHARSET=utf8mb4" + " COLLATE=utf8mb4_unicode_ci"
  const TableComment: string := "\U{421}\U{43B}\U{43E}\U{432}\U{430}\U{440}\U{44C} \U{444}\U{440}\U{430}\U{437}\U{435}\U{43E}\U{43B}\U{43E}\U{433}\U{438}\U{437}\U{43C}\U{43E}\U{432}" + " \U{440}\U{443}\U{441}\U{441}\U{43A}\U{43E}\U{433}\U{43E} \U{44F}\U{437}\U{44B}\U{43A}\U{430}"
  const SourceComment: string := "\U{418}\U{441}\U{442}\U{43E}\U{447}\U{43D}\U{438}\U{43A}"

  /** A text column of the table: its name, SQL type, nullability and Russian comment. */
  function ColumnLine(name: string, sqlType: string, nullity: string, comment: string): string {
    "  `" + name + "` " + sqlType + Utf8mb4Charset + UnicodeCollation + nullity + " COMMENT '" + comment + "',"
  }

  /** From the blank line after the comment header to `LOCK TABLES`: the same 23 lines in
      create_mysql_db.py, generate_final_sql.py and fill_usage_examples.py. */
  const Line0: string := ""
  const Line1: string := "SET NAMES " + CharsetPattern + ";"
  const Line2: string := "SET FOREIGN_KEY_CHECKS = 0;"
  const Line3: string := ""
  const Line4: string := "-- Drop table if exists"
  const Line5: string := "DROP TABLE IF EXISTS " + TableName + ";"
  const Line6: string := ""
  const Line7: string := "-- Table structure for " + "phraseological_dict"
  const Line8: string := CreateTablePattern + " ("
  const Line9: string := "  `id` int(11) NOT NULL " + AutoIncrementPattern + ","
  const Line10: string := ColumnLine("phrase", "varchar(500)", Required, PhraseComment)
  const Line11: string := ColumnLine("meaning", "text", Required, MeaningComment)
  const Line12: string := ColumnLine("etymology", "text", Optional, EtymologyComment)
  const Line13: string := ColumnLine("usage_example", "text", Optional, UsageComment)
  const Line14: string := ColumnLine("categories", "varchar(100)", Optional, CategoryComment)
  const Line15: string := ColumnLine("source_url", "text", Optional, SourceComment)
  const Line16: string := "  " + PrimaryKeyPattern + ","
  const Line17: string := "  UNIQUE KEY `phrase` (`phrase`),"
  const Line18: string := "  KEY `categories` (`categories`)"
  const Line19: string := TableOptions + " COMMENT='" + TableComment + "';"
  const Line20: string := ""
  const Line21: string := "-- Data for table phraseological_dict"
  const Line22: string := "LOCK TABLES " + TableName + " WRITE;"

  const SchemaLines: seq<string> := [
    Line0,
    Line1,
    Line2,
    Line3,
    Line4,
    Line5,
    Line6,
    Line7,
    Line8,
    Line9,
    Line10,
    Line11,
    Line12,
    Line13,
    Line14,
    Line15,
    Line16,
    Line17,
    Line18,
    Line19,
    Line20,
    Line21,
    Line22
  ]

  /** A line that lacks one of the characters I, N, S and the backtick, all of which the marker holds, cannot
      contain the marker. */
  predicate LacksMarkerChar(line: string) {
    'I' !in line || 'N' !in line || 'S' !in line || '`' !in line
  }

  lemma {:induction false} LacksMarkerCharNotContained(line: string)
    requires LacksMarkerChar(line)
    ensures !Contains(line, InsertMarker)
  {
    assert InsertMarker[0] == 'I' && InsertMarker[1] == 'N' && InsertMarker[2] == 'S' && InsertMarker[12] == '`';
    if 'I' !in line {
      AbsentCharNotContained(line, InsertMarker, 'I');
    } else if 'N' !in line {
      AbsentCharNotContained(line, InsertMarker, 'N');
    } else if 'S' !in line {
      AbsentCharNotContained(line, InsertMarker, 'S');
    } else {
      AbsentCharNotContained(line, InsertMarker, '`');
    }
  }

  /** A column line lacks a character its four parts and the fixed column words lack. */
  lemma {:induction false} ColumnLineLacks(name: string, sqlType: string, nullity: string, comment: string, c: char)
    requires c !in name && c !in sqlType && c !in nullity && c !in comment
    requires c !in Utf8mb4Charset && c !in UnicodeCollation
    requires c != ' ' && c != '`' && c != '\'' && c != ',' && c !in " COMMENT '"
    ensures c !in ColumnLine(name, sqlType, nullity, comment)
  {
  }

  lemma {:induction false} ColumnWordsLackI()
    ensures 'I' !in Utf8mb4Charset && 'I' !in UnicodeCollation && 'I' !in " COMMENT '"
    ensures 'I' !in Required && 'I' !in Optional
  {
  }

  /** A column line without an I in its name, type and comment has none at all. */
  lemma {:induction false} ColumnLineLacksI(name: string, sqlType: string, nullity: string, comment: string)
    requires 'I' !in name && 'I' !in sqlType && 'I' !in comment
    requires nullity == Required || nullity == Optional
    ensures 'I' !in ColumnLine(name, sqlType, nullity, comment)
  {
    ColumnWordsLackI();
    ColumnLineLacks(name, sqlType, nullity, comment, 'I');
  }

  // Proof steps of SchemaLinesCount, not statements about the scripts: for each non-empty line of the table
  // definition, one character of the INSERT marker that the line lacks, so the marker cannot occur in it.
  lemma {:induction false} Line1Lacks() ensures 'I' !in Line1 { }
  lemma {:induction false} Line2Lacks() ensures '`' !in Line2 { }
  lemma {:induction false} Line4Lacks() ensures 'I' !in Line4 { }
  lemma {:induction false} Line5Lacks() ensures 'N' !in Line5 { }
  lemma {:induction false} Line7Lacks() ensures 'I' !in Line7 { }
  lemma {:induction false} Line8Lacks() ensures 'I' !in Line8 { }
  lemma {:induction false} Line9Lacks() ensures 'S' !in Line9 { }
  lemma {:induction false} Line10Lacks() ensures 'I' !in Line10 {
    assert 'I' !in PhraseComment;
    ColumnLineLacksI("phrase", "varchar(500)", Required, PhraseComment);
  }
  lemma {:induction false} Line11Lacks() ensures 'I' !in Line11 {
    assert 'I' !in MeaningComment;
    ColumnLineLacksI("meaning", "text", Required, MeaningComment);
  }
  lemma {:induction false} Line12Lacks() ensures 'I' !in Line12 {
    assert 'I' !in EtymologyComment;
    ColumnLineLacksI("etymology", "text", Optional, EtymologyComment);
  }
  lemma {:induction false} Line13Lacks() ensures 'I' !in Line13 {
    assert 'I' !in UsageComment;
    ColumnLineLacksI("usage_example", "text", Optional, UsageComment);
  }
  lemma {:induction false} Line14Lacks() ensures 'I' !in Line14 {
    assert 'I' !in CategoryComment;
    ColumnLineLacksI("categories", "varchar(100)", Optional, CategoryComment);
  }
  lemma {:induction false} Line15Lacks() ensures 'I' !in Line15 {
    assert 'I' !in SourceComment;
    ColumnLineLacksI("source_url", "text", Optional, SourceComment);
  }
  lemma {:induction false} Line16Lacks() ensures 'N' !in Line16 { }
  lemma {:induction false} Line17Lacks() ensures 'S' !in Line17 { }
  lemma {:induction false} Line18Lacks() ensures 'I' !in Line18 { }
  lemma {:induction false} TableOptionsLack() ensures '`' !in TableOptions { }
  lemma {:induction false} TableCommentLacks() ensures '`' !in TableComment { }
  lemma {:induction false} Line19Lacks() ensures '`' !in Line19 {
    TableOptionsLack();
    TableCommentLacks();
  }
  lemma {:induction false} Line21Lacks() ensures 'I' !in Line21 { }
  lemma {:induction false} Line22Lacks() ensures 'N' !in Line22 { }

  /** No schema line holds an INSERT statement. */
  lemma {:induction false} SchemaLinesCount()
    ensures SumCounts(SchemaLines, InsertMarker) == 0
  {
    var ls := SchemaLines;
    Line1Lacks();
    Line2Lacks();
    Line4Lacks();
    Line5Lacks();
    Line7Lacks();
    Line8Lacks();
    Line9Lacks();
    Line10Lacks();
    Line11Lacks();
    Line12Lacks();
    Line13Lacks();
    Line14Lacks();
    Line15Lacks();
    Line16Lacks();
    Line17Lacks();
    Line18Lacks();
    Line19Lacks();
    Line21Lacks();
    Line22Lacks();
    forall i | 0 <= i < |ls|
      ensures LacksMarkerChar(ls[i])
    {
    }
    forall i | 0 <= i < |ls|
      ensures Count(ls[i], InsertMarker) == 0
    {
      LacksMarkerCharNotContained(ls[i]);
      CountNotContained(ls[i], InsertMarker);
    }
    NoCountsSum(ls, InsertMarker);
  }

  lemma {:induction false} SelfContains(s: string)
    ensures Contains(s, s)
  {
    assert OccursAt(s, s, 0);
  }

  /** The schema lines hold the four schema patterns the validator looks for. */
  lemma {:induction false} SchemaPatterns()
    ensures Contains(SchemaLines[8], CreateTablePattern)
    ensures Contains(SchemaLines[16], PrimaryKeyPattern)
    ensures Contains(SchemaLines[9], AutoIncrementPattern)
    ensures Contains(SchemaLines[1], CharsetPattern)
  {
    SelfContains(CreateTablePattern);
    ContainsPart(CreateTablePattern, " (", CreateTablePattern);
    SelfContains(PrimaryKeyPattern);
    ContainsPart("  ", PrimaryKeyPattern, PrimaryKeyPattern);
    ContainsPart("  " + PrimaryKeyPattern, ",", PrimaryKeyPattern);
    SelfContains(AutoIncrementPattern);
    ContainsPart("  `id` int(11) NOT NULL ", AutoIncrementPattern, AutoIncrementPattern);
    ContainsPart("  `id` int(11) NOT NULL " + AutoIncrementPattern, ",", AutoIncrementPattern);
    SelfContains(CharsetPattern);
    ContainsPart("SET NAMES ", CharsetPattern, CharsetPattern);
    ContainsPart("SET NAMES " + CharsetPattern, ";", CharsetPattern);
  }
}
