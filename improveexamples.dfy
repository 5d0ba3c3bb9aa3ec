/** improve_examples.py: the grammar touch-up of usage examples (a fixed sequence of conditional
    replace-all rewrites, then `strip`) and the loop that applies it to every record with an example. */
module ImproveExamples {
  import opened PyStr
  import opened SeqUtil
  import opened Records

  /** `" " + phrase.lower()`, the form in which the phrase is looked for in the example. */
  function Spaced(phrase: string): string {
    " " + LowerStr(phrase)
  }

  /** Phrases starting with a conjunction get a comma before them where they are followed by a comma, or
      else where they are followed by a space. */
  function ConjunctionFix(phrase: string, example: string): string {
    if !StartsWithConjunction(phrase) then example
    else
      var p := LowerStr(phrase);
      if Contains(example, " " + p + ",") then Replace(example, " " + p + ",", ", " + p + ",")
      else if Contains(example, " " + p + " ") then Replace(example, " " + p + " ", ", " + p + " ")
      else example
  }

  /** `example.replace("  ", " ")`: one left-to-right pass over double spaces. */
  function SingleSpaces(example: string): string {
    Replace(example, "  ", " ")
  }

  /** A phrase that is a question. */
  predicate IsQuestion(phrase: string) {
    EndsWith(phrase, "?")
  }

  /** Questions get a comma before every lower-cased occurrence. */
  function QuestionFix(phrase: string, example: string): string {
    if IsQuestion(phrase) && Contains(example, Spaced(phrase)) then
      Replace(example, Spaced(phrase), ", " + LowerStr(phrase))
    else example
  }

  /** A phrase that is already a sentence: more than three words and one of . ! ? in it. */
  predicate IsSentence(phrase: string) {
    |Split(phrase)| > 3 && ('.' in phrase || '!' in phrase || '?' in phrase)
  }

  /** Sentences replace every lower-cased occurrence by a comma and the phrase in its own case. */
  function SentenceFix(phrase: string, example: string): string {
    if IsSentence(phrase) && Contains(example, Spaced(phrase)) then
      Replace(example, Spaced(phrase), ", " + phrase)
    else example
  }

  /** `improve_example`: the four rewrites in order, then `strip`; the result never starts or ends with
      whitespace. What each rewrite does is stated by its own lemma: ConjunctionBranch, QuestionBranch and
      SentenceBranch below, SingleSpacesLength for the double-space pass, and ImproveNeutral for a phrase that
      takes none of the three branches. */
  function ImproveExample(phrase: string, example: string): (r: string)
    ensures Trimmed(r)
  {
    Strip(SentenceFix(phrase, QuestionFix(phrase, SingleSpaces(ConjunctionFix(phrase, example)))))
  }

  /** A phrase that is neither a conjunction phrase, a question nor a sentence only has its double spaces
      reduced once and is stripped. */
  lemma {:induction false} ImproveNeutral(phrase: string, example: string)
    requires !StartsWithConjunction(phrase) && !IsQuestion(phrase) && !IsSentence(phrase)
    ensures ImproveExample(phrase, example) == Strip(Replace(example, "  ", " "))
  {
  }

  /** The double-space pass removes one character per non-overlapping pair of spaces (so a run of three
      spaces keeps two). */
  lemma {:induction false} SingleSpacesLength(example: string)
    ensures |SingleSpaces(example)| == |example| - Count(example, "  ")
  {
    ReplaceLength(example, "  ", " ");
  }

  /** A replacement one character longer than its pattern adds one character per occurrence. */
  lemma {:induction false} ReplaceOneLonger(s: string, pat: string, rep: string)
    requires |pat| > 0 && |rep| == |pat| + 1
    ensures |Replace(s, pat, rep)| == |s| + Count(s, pat)
  {
    ReplaceLength(s, pat, rep);
  }

  /** The conjunction rewrite, with p the lower-cased phrase: where " p," occurs, every occurrence becomes
      ", p,"; otherwise, where " p " occurs, every occurrence becomes ", p "; either way one comma is
      inserted per occurrence; otherwise nothing changes. */
  lemma {:induction false} ConjunctionBranch(phrase: string, example: string)
    requires StartsWithConjunction(phrase)
    ensures var p := LowerStr(phrase);
      && (Contains(example, " " + p + ",") ==>
            ConjunctionFix(phrase, example) == Join(", " + p + ",", SplitOn(example, " " + p + ",")) &&
            |ConjunctionFix(phrase, example)| == |example| + Count(example, " " + p + ","))
      && (!Contains(example, " " + p + ",") && Contains(example, " " + p + " ") ==>
            ConjunctionFix(phrase, example) == Join(", " + p + " ", SplitOn(example, " " + p + " ")) &&
            |ConjunctionFix(phrase, example)| == |example| + Count(example, " " + p + " "))
      && (!Contains(example, " " + p + ",") && !Contains(example, " " + p + " ") ==>
            ConjunctionFix(phrase, example) == example)
  {
    var p := LowerStr(phrase);
    if Contains(example, " " + p + ",") {
      ReplaceIsJoinOfSplit(example, " " + p + ",", ", " + p + ",");
      ReplaceOneLonger(example, " " + p + ",", ", " + p + ",");
    } else if Contains(example, " " + p + " ") {
      ReplaceIsJoinOfSplit(example, " " + p + " ", ", " + p + " ");
      ReplaceOneLonger(example, " " + p + " ", ", " + p + " ");
    }
  }

  /** A phrase without a conjunction prefix is left alone by the first rewrite. */
  lemma {:induction false} ConjunctionOnlyForConjunctions(phrase: string, example: string)
    requires !StartsWithConjunction(phrase)
    ensures ConjunctionFix(phrase, example) == example
  {
  }

  /** For a question whose lower-cased form occurs after a space, every non-overlapping " p" becomes ", p",
      one comma per occurrence; otherwise nothing changes. */
  lemma {:induction false} QuestionBranch(phrase: string, example: string)
    ensures IsQuestion(phrase) && Contains(example, Spaced(phrase)) ==>
      QuestionFix(phrase, example) == Join(", " + LowerStr(phrase), SplitOn(example, Spaced(phrase))) &&
      |QuestionFix(phrase, example)| == |example| + Count(example, Spaced(phrase))
    ensures !(IsQuestion(phrase) && Contains(example, Spaced(phrase))) ==> QuestionFix(phrase, example) == example
  {
    if IsQuestion(phrase) && Contains(example, Spaced(phrase)) {
      ReplaceIsJoinOfSplit(example, Spaced(phrase), ", " + LowerStr(phrase));
      ReplaceOneLonger(example, Spaced(phrase), ", " + LowerStr(phrase));
    }
  }

  /** For a sentence, every non-overlapping " p" becomes ", " and the phrase in its original case, again one
      character longer per occurrence; otherwise nothing changes. */
  lemma {:induction false} SentenceBranch(phrase: string, example: string)
    ensures IsSentence(phrase) && Contains(example, Spaced(phrase)) ==>
      SentenceFix(phrase, example) == Join(", " + phrase, SplitOn(example, Spaced(phrase))) &&
      |SentenceFix(phrase, example)| == |example| + Count(example, Spaced(phrase))
    ensures !(IsSentence(phrase) && Contains(example, Spaced(phrase))) ==> SentenceFix(phrase, example) == example
  {
    if IsSentence(phrase) && Contains(example, Spaced(phrase)) {
      ReplaceIsJoinOfSplit(example, Spaced(phrase), ", " + phrase);
      ReplaceOneLonger(example, Spaced(phrase), ", " + phrase);
    }
  }

  // ---------------------------------------------------------------------------
  // The loop of main
  // ---------------------------------------------------------------------------

  /** A record whose non-empty example the touch-up changes. */
  predicate Improves(r: Record) {
    Truthy(r.usageExample) && ImproveExample(r.phrase, r.usageExample.value) != r.usageExample.value
  }

  /** One step of the loop: a record with a non-empty example that the touch-up changes gets the new
      example; every other record is kept. */
  function ImproveRecord(r: Record): Record {
    if Improves(r) then r.(usageExample := Has(ImproveExample(r.phrase, r.usageExample.value))) else r
  }

  /** A record is changed exactly when it improves; only its example changes, and then into a trimmed one. */
  lemma {:induction false} ImproveRecordChanges(r: Record)
    ensures ImproveRecord(r) != r <==> Improves(r)
    ensures ImproveRecord(r) == r.(usageExample := ImproveRecord(r).usageExample)
    ensures Improves(r) ==> ImproveRecord(r).usageExample.Has? && Trimmed(ImproveRecord(r).usageExample.value)
  {
  }

  /** The records after the loop, each improved by one step, in order. */
  function ImproveAll(phrases: seq<Record>): (out: seq<Record>)
    ensures |out| == |phrases|
    decreases |phrases|
  {
    if phrases == [] then []
    else ImproveAll(phrases[..|phrases| - 1]) + [ImproveRecord(phrases[|phrases| - 1])]
  }

  /** Record i after the loop is record i improved by one step. */
  lemma {:induction false} ImproveAllElementwise(phrases: seq<Record>)
    ensures forall i :: 0 <= i < |phrases| ==> ImproveAll(phrases)[i] == ImproveRecord(phrases[i])
    decreases |phrases|
  {
    if phrases != [] {
      var init := phrases[..|phrases| - 1];
      ImproveAllElementwise(init);
      assert forall i :: 0 <= i < |init| ==> init[i] == phrases[i];
    }
  }

  /** One more record: one more improved record and possibly one more count. */
  lemma {:induction false} ImproveAllStep(phrases: seq<Record>, i: nat)
    requires i < |phrases|
    ensures ImproveAll(phrases[..i + 1]) == ImproveAll(phrases[..i]) + [ImproveRecord(phrases[i])]
    ensures ImprovedCount(phrases[..i + 1]) == ImprovedCount(phrases[..i]) + (if Improves(phrases[i]) then 1 else 0)
  {
    assert phrases[..i + 1][..i] == phrases[..i];
  }

  /** The number of records the loop changes. */
  function ImprovedCount(phrases: seq<Record>): (n: nat)
    ensures n <= |phrases|
    decreases |phrases|
  {
    if phrases == [] then 0
    else ImprovedCount(phrases[..|phrases| - 1]) + (if Improves(phrases[|phrases| - 1]) then 1 else 0)
  }

  /** After the loop only changed records differ from the input, each only in its example; `improved_count`
      is zero exactly when nothing changed. */
  lemma {:induction false} ImproveAllMeaning(phrases: seq<Record>)
    ensures forall i :: 0 <= i < |phrases| ==> (ImproveAll(phrases)[i] != phrases[i] <==> Improves(phrases[i]))
    ensures forall i :: 0 <= i < |phrases| ==>
      ImproveAll(phrases)[i] == phrases[i].(usageExample := ImproveAll(phrases)[i].usageExample)
    ensures ImprovedCount(phrases) == 0 <==> ImproveAll(phrases) == phrases
  {
    ImproveAllElementwise(phrases);
    forall i | 0 <= i < |phrases| {
      ImproveRecordChanges(phrases[i]);
    }
    ImprovedCountZero(phrases);
    if ImproveAll(phrases) == phrases {
      forall i | 0 <= i < |phrases|
        ensures !Improves(phrases[i])
      {
        assert ImproveAll(phrases)[i] == phrases[i];
      }
    }
  }

  lemma {:induction false} ImprovedCountZero(phrases: seq<Record>)
    ensures ImprovedCount(phrases) == 0 <==> forall i :: 0 <= i < |phrases| ==> !Improves(phrases[i])
  {
    if ImprovedCount(phrases) == 0 {
      CountZeroNoneImprove(phrases);
    } else if forall i :: 0 <= i < |phrases| ==> !Improves(phrases[i]) {
      NoneImproveCountZero(phrases);
    }
  }

  lemma {:induction false} CountZeroNoneImprove(phrases: seq<Record>)
    requires ImprovedCount(phrases) == 0
    ensures forall i :: 0 <= i < |phrases| ==> !Improves(phrases[i])
    decreases |phrases|
  {
    if phrases != [] {
      var init := phrases[..|phrases| - 1];
      CountZeroNoneImprove(init);
      forall i | 0 <= i < |init|
        ensures !Improves(phrases[i])
      {
        assert init[i] == phrases[i];
      }
    }
  }

  lemma {:induction false} NoneImproveCountZero(phrases: seq<Record>)
    requires forall i :: 0 <= i < |phrases| ==> !Improves(phrases[i])
    ensures ImprovedCount(phrases) == 0
    decreases |phrases|
  {
    if phrases != [] {
      var init := phrases[..|phrases| - 1];
      forall i | 0 <= i < |init|
        ensures !Improves(init[i])
      {
        assert init[i] == phrases[i];
      }
      NoneImproveCountZero(init);
    }
  }

  /** The count never exceeds the number of records with a non-empty example. */
  lemma {:induction false} ImprovedCountAtMostWithExamples(phrases: seq<Record>)
    ensures ImprovedCount(phrases) <= |phrases| - Untruthy(phrases)
    decreases |phrases|
  {
    if phrases != [] {
      ImprovedCountAtMostWithExamples(phrases[..|phrases| - 1]);
    }
  }

  /** The number of records without a non-empty example. */
  function Untruthy(phrases: seq<Record>): (n: nat)
    ensures n <= |phrases|
    decreases |phrases|
  {
    if phrases == [] then 0
    else Untruthy(phrases[..|phrases| - 1]) + (if Truthy(phrases[|phrases| - 1].usageExample) then 0 else 1)
  }

  /** The body of the loop for one record: `get` with the default "", the truthiness test, the touch-up
      and the comparison with the old example. */
  method ImproveOne(p: Record) returns (next: Record, changed: bool)
    ensures next == ImproveRecord(p)
    ensures changed <==> Improves(p)
  {
    next, changed := p, false;
    var example := GetOr(p.usageExample, "");
    if example.Some? && example.value != "" {
      var improved := ImproveExample(p.phrase, example.value);
      if improved != example.value {
        next, changed := p.(usageExample := Has(improved)), true;
      }
    }
  }

  /** The loop of `main`, in place: records with a non-empty example are touched up, and those whose example
      changes are rewritten and counted. */
  method ImproveExamplesLoop(phrases: array<Record>) returns (improvedCount: nat)
    modifies phrases
    ensures phrases[..] == ImproveAll(old(phrases[..]))
    ensures improvedCount == ImprovedCount(old(phrases[..]))
  {
    ghost var original := phrases[..];
    ghost var done: seq<Record> := [];
    improvedCount := 0;
    for i := 0 to phrases.Length
      invariant |done| == i
      invariant ImproveAll(original[..i]) == done
      invariant phrases[..] == done + original[i..]
      invariant improvedCount == ImprovedCount(original[..i])
    {
      SpliceAt(done, original, i);
      var next, changed := ImproveOne(phrases[i]);
      if changed {
        phrases[i] := next;
        improvedCount := improvedCount + 1;
      }
      ImproveAllStep(original, i);
      done := done + [next];
    }
    assert original[..phrases.Length] == original;
  }
}
