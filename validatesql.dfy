/** `validate_sql_dump` of validate_sql.py: a smoke test of a dump's text, which checks five patterns, counts the
    INSERT statements and accepts the dump only with all five patterns and exactly 1140 statements. */
module ValidateSql {
  import opened PyStr
  import opened SqlLiteral
  import opened Schema

  /** The patterns of the five checks, in order; the names and descriptions beside them are only printed. */
  const Patterns: seq<string> := [CreateTablePattern, PrimaryKeyPattern, AutoIncrementPattern, CharsetPattern, InsertMarker]

  /** The number of INSERT statements the dictionary is expected to hold. */
  const ExpectedInserts: nat := 1140

  /** How many of `patterns` occur in `content`. */
  function Passed(content: string, patterns: seq<string>): (n: nat)
    ensures n <= |patterns|
    ensures n == |patterns| <==> forall k :: 0 <= k < |patterns| ==> Contains(content, patterns[k])
    decreases |patterns|
  {
    if patterns == [] then 0
    else
      var init := patterns[..|patterns| - 1];
      assert forall k :: 0 <= k < |init| ==> init[k] == patterns[k];
      Passed(content, init) + (if Contains(content, patterns[|patterns| - 1]) then 1 else 0)
  }

  /** The outcome of a validation: the passed checks out of the total, the INSERT count, whether an escaped
      quote occurs (reported only), and the verdict. */
  datatype Validation = Validation(passed: nat, total: nat, insertCount: nat, escapedQuotes: bool, ok: bool)

  /** The checks over `content`, with the verdict. */
  method ValidateSqlDump(content: string) returns (v: Validation)
    ensures v.total == |Patterns| == 5
    ensures v.passed == Passed(content, Patterns) && v.passed <= 5
    ensures v.insertCount == Count(content, InsertMarker)
    ensures v.escapedQuotes <==> Contains(content, "\\'")
    ensures v.ok <==> v.passed == 5 && v.insertCount == ExpectedInserts
  {
    var passed := 0;
    var total := |Patterns|;
    var k := 0;
    while k < |Patterns|
      invariant 0 <= k <= |Patterns|
      invariant passed == Passed(content, Patterns[..k])
    {
      if Contains(content, Patterns[k]) {
        passed := passed + 1;
      }
      assert Patterns[..k + 1][..k] == Patterns[..k];
      k := k + 1;
    }
    assert Patterns[..k] == Patterns;
    var insertCount := Count(content, InsertMarker);
    var escaped := Contains(content, "\\'");
    v := Validation(passed, total, insertCount, escaped, passed == total && insertCount == ExpectedInserts);
  }

  /** The fifth check and the INSERT count use the same literal: the count is positive exactly when the fifth
      check passes. */
  lemma {:induction false} InsertCheckAgreesWithCount(content: string)
    ensures Count(content, InsertMarker) >= 1 <==> Contains(content, Patterns[4])
  {
    CountPositiveIffContains(content, InsertMarker);
  }

  /** The verdict in terms of the content alone: all five patterns occur and the marker occurs 1140 times. */
  lemma {:induction false} VerdictMeaning(content: string)
    ensures Passed(content, Patterns) == 5 && Count(content, InsertMarker) == ExpectedInserts <==>
      Contains(content, CreateTablePattern) && Contains(content, PrimaryKeyPattern) &&
      Contains(content, AutoIncrementPattern) && Contains(content, CharsetPattern) &&
      Count(content, InsertMarker) == ExpectedInserts
  {
    CountPositiveIffContains(content, InsertMarker);
    var ps := Patterns;
    assert ps[0] == CreateTablePattern && ps[1] == PrimaryKeyPattern && ps[2] == AutoIncrementPattern;
    assert ps[3] == CharsetPattern && ps[4] == InsertMarker;
    if Contains(content, CreateTablePattern) && Contains(content, PrimaryKeyPattern) &&
      Contains(content, AutoIncrementPattern) && Contains(content, CharsetPattern) &&
      Count(content, InsertMarker) == ExpectedInserts
    {
      forall k | 0 <= k < |ps|
        ensures Contains(content, ps[k])
      {
        if k == 0 { } else if k == 1 { } else if k == 2 { } else if k == 3 { } else { }
      }
    }
  }
}
