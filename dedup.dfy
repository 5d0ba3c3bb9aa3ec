/** `deduplicate_phrases.py`: grouping records by a normalised phrase key and merging each group into one record. */
module Deduplicate {
  import opened PyStr
  import opened SeqUtil
  import opened Records

  // ---------------------------------------------------------------------------
  // normalize_phrase
  // ---------------------------------------------------------------------------

  /** `normalize_phrase`: lower-cased, trimmed, and every run of whitespace reduced to one space. */
  function NormalizePhrase(phrase: string): string {
    Join(" ", Split(Strip(LowerStr(phrase))))
  }

  lemma {:induction false} MapLowerIdempotent(ws: seq<string>)
    ensures MapLower(MapLower(ws)) == MapLower(ws)
  {
    forall i | 0 <= i < |ws|
      ensures MapLower(MapLower(ws))[i] == MapLower(ws)[i]
    {
      LowerStrIdempotent(ws[i]);
    }
  }

  /** The words of the key are the lower-cased words of the phrase. */
  lemma {:induction false} NormalizeWords(phrase: string)
    ensures Split(Strip(LowerStr(phrase))) == MapLower(Split(Strip(phrase)))
  {
    StripLower(phrase);
    SplitLower(Strip(phrase));
  }

  /** The key has no leading, trailing or doubled whitespace, and normalising it again changes nothing. */
  lemma {:induction false} NormalizePhraseIdempotent(phrase: string)
    ensures Collapsed(NormalizePhrase(phrase))
    ensures NormalizePhrase(NormalizePhrase(phrase)) == NormalizePhrase(phrase)
  {
    var ws := Split(Strip(LowerStr(phrase)));
    var n := Join(" ", ws);
    SplitWords(Strip(LowerStr(phrase)));
    JoinCollapsed(ws);
    NormalizeWords(phrase);
    MapLowerIdempotent(Split(Strip(phrase)));
    LowerJoin(ws);
    assert LowerStr(n) == n;
    StripJoin(ws);
    SplitJoin(ws);
  }

  /** The merged phrase: the first entry's phrase, trimmed and with whitespace runs collapsed, case kept. */
  function MergedPhrase(phrase: string): string {
    Join(" ", Split(Strip(phrase)))
  }

  /** Merging keeps the key: the merged phrase normalises to the same key as the phrase it came from. */
  lemma {:induction false} MergedPhraseKey(phrase: string)
    ensures Collapsed(MergedPhrase(phrase))
    ensures NormalizePhrase(MergedPhrase(phrase)) == NormalizePhrase(phrase)
  {
    var vs := Split(Strip(phrase));
    SplitWords(Strip(phrase));
    JoinCollapsed(vs);
    LowerJoin(vs);
    AllWordsLower(vs);
    StripJoin(MapLower(vs));
    SplitJoin(MapLower(vs));
    NormalizeWords(phrase);
  }

  // ---------------------------------------------------------------------------
  // merge_duplicate_entries
  // ---------------------------------------------------------------------------

  /** The stripped values of `xs`, without those that strip to "". */
  function NonEmptyStripped(xs: seq<string>): seq<string>
    decreases |xs|
  {
    if xs == [] then []
    else
      var r := NonEmptyStripped(xs[..|xs| - 1]);
      var v := Strip(xs[|xs| - 1]);
      if v != "" then r + [v] else r
  }

  lemma {:induction false} NonEmptyStrippedSnoc(xs: seq<string>, x: string)
    ensures NonEmptyStripped(xs + [x]) == NonEmptyStripped(xs) + (if Strip(x) != "" then [Strip(x)] else [])
  {
    assert (xs + [x])[..|xs|] == xs;
  }

  lemma {:induction false} NonEmptyStrippedMembers(xs: seq<string>)
    ensures forall v :: v in NonEmptyStripped(xs) <==> v != "" && exists r :: r in xs && Strip(r) == v
    decreases |xs|
  {
    if xs != [] {
      var ys, x := xs[..|xs| - 1], xs[|xs| - 1];
      NonEmptyStrippedMembers(ys);
      assert xs == ys + [x];
      forall v
        ensures v in NonEmptyStripped(xs) <==> v != "" && exists r :: r in xs && Strip(r) == v
      {
        if v != "" && (exists r :: r in xs && Strip(r) == v) {
          var r :| r in xs && Strip(r) == v;
          if r != x {
            assert r in ys;
          }
        }
      }
    }
  }

  /** The values the merge collects from a sequence of raw strings: stripped, non-empty, each once,
      in the order of their first appearance. */
  function Cleaned(xs: seq<string>): seq<string> {
    Distinct(NonEmptyStripped(xs))
  }

  /** One more raw value for a seen-set loop: its stripped form is appended unless it is "" or already there. */
  lemma {:induction false} CleanedSnoc(xs: seq<string>, x: string)
    ensures Cleaned(xs + [x]) == if Strip(x) != "" && Strip(x) !in Cleaned(xs) then Cleaned(xs) + [Strip(x)] else Cleaned(xs)
  {
    NonEmptyStrippedSnoc(xs, x);
    DistinctSnoc(NonEmptyStripped(xs), Strip(x));
  }

  /** What the seen-set loops of the merge promise about the values they collect. */
  lemma {:induction false} CleanedProperties(xs: seq<string>)
    ensures forall i :: 0 <= i < |Cleaned(xs)| ==> Cleaned(xs)[i] != "" && Trimmed(Cleaned(xs)[i])
    ensures NoDuplicates(Cleaned(xs))
    ensures forall v :: v in Cleaned(xs) <==> v != "" && exists r :: r in xs && Strip(r) == v
    ensures forall i, j :: 0 <= i < j < |Cleaned(xs)| ==>
      var ns := NonEmptyStripped(xs);
      Cleaned(xs)[i] in ns && Cleaned(xs)[j] in ns && FirstIndex(ns, Cleaned(xs)[i]) < FirstIndex(ns, Cleaned(xs)[j])
  {
    var ns := NonEmptyStripped(xs);
    DistinctElements(ns);
    DistinctNoDuplicates(ns);
    DistinctFirstSeenOrder(ns);
    NonEmptyStrippedMembers(xs);
    forall i | 0 <= i < |Cleaned(xs)|
      ensures Cleaned(xs)[i] != "" && Trimmed(Cleaned(xs)[i])
    {
      var v := Cleaned(xs)[i];
      assert v in Cleaned(xs);
      var r :| r in xs && Strip(r) == v;
    }
  }

  /** Every meaning of every entry, in entry order. */
  function AllMeanings(es: seq<Record>): seq<string>
    decreases |es|
  {
    if es == [] then [] else AllMeanings(es[..|es| - 1]) + MeaningsOf(es[|es| - 1])
  }

  lemma {:induction false} AllMeaningsPrefix(es: seq<Record>, i: nat)
    requires i < |es|
    ensures AllMeanings(es[..i + 1]) == AllMeanings(es[..i]) + MeaningsOf(es[i])
  {
    assert es[..i + 1][..i] == es[..i];
  }

  lemma {:induction false} AllMeaningsMembers(es: seq<Record>)
    ensures forall r :: r in AllMeanings(es) <==> exists k :: 0 <= k < |es| && r in MeaningsOf(es[k])
    decreases |es|
  {
    if es != [] {
      var fs := es[..|es| - 1];
      AllMeaningsMembers(fs);
      assert AllMeanings(es) == AllMeanings(fs) + MeaningsOf(es[|es| - 1]);
      forall r
        ensures r in AllMeanings(es) <==> exists k :: 0 <= k < |es| && r in MeaningsOf(es[k])
      {
        if exists k :: 0 <= k < |es| && r in MeaningsOf(es[k]) {
          var k :| 0 <= k < |es| && r in MeaningsOf(es[k]);
          if k < |fs| {
            assert es[k] == fs[k];
          }
        }
        if r in AllMeanings(fs) {
          var k :| 0 <= k < |fs| && r in MeaningsOf(fs[k]);
          assert es[k] == fs[k];
        }
      }
    }
  }

  function CategoryTexts(es: seq<Record>): (r: seq<string>)
    ensures |r| == |es| && forall i :: 0 <= i < |es| ==> r[i] == Text(es[i].category)
  {
    seq(|es|, i requires 0 <= i < |es| => Text(es[i].category))
  }

  function UrlTexts(es: seq<Record>): (r: seq<string>)
    ensures |r| == |es| && forall i :: 0 <= i < |es| ==> r[i] == Text(es[i].sourceUrl)
  {
    seq(|es|, i requires 0 <= i < |es| => Text(es[i].sourceUrl))
  }

  /** `(entry.get("etymology") or "").strip()`. */
  function Etymology(r: Record): string {
    Strip(Text(r.etymology))
  }

  /** The stripped etymology of each entry, in order. */
  function Etymologies(es: seq<Record>): (r: seq<string>)
    ensures |r| == |es| && forall i :: 0 <= i < |es| ==> r[i] == Etymology(es[i])
  {
    seq(|es|, i requires 0 <= i < |es| => Etymology(es[i]))
  }

  /** The first string of `xs` that is not "", or "". */
  function FirstNonEmpty(xs: seq<string>): string
    decreases |xs|
  {
    if xs == [] then ""
    else if xs[0] != "" then xs[0]
    else FirstNonEmpty(xs[1..])
  }

  lemma {:induction false} FirstNonEmptyEmpty(xs: seq<string>)
    ensures FirstNonEmpty(xs) == "" <==> forall k :: 0 <= k < |xs| ==> xs[k] == ""
    decreases |xs|
  {
    if xs != [] && xs[0] == "" {
      FirstNonEmptyEmpty(xs[1..]);
      assert forall k :: 1 <= k < |xs| ==> xs[k] == xs[1..][k - 1];
    }
  }

  lemma {:induction false} FirstNonEmptyWitness(xs: seq<string>) returns (k: nat)
    requires FirstNonEmpty(xs) != ""
    ensures k < |xs| && FirstNonEmpty(xs) == xs[k]
    ensures forall j :: 0 <= j < k ==> xs[j] == ""
    decreases |xs|
  {
    if xs[0] != "" {
      k := 0;
    } else {
      var k0 := FirstNonEmptyWitness(xs[1..]);
      k := k0 + 1;
      forall j | 0 <= j < k
        ensures xs[j] == ""
      {
        if j > 0 {
          assert xs[j] == xs[1..][j - 1];
        }
      }
    }
  }

  lemma {:induction false} FirstNonEmptyAt(xs: seq<string>, i: nat)
    requires i < |xs|
    ensures FirstNonEmpty(xs[i..]) == if xs[i] != "" then xs[i] else FirstNonEmpty(xs[i + 1..])
  {
    assert xs[i..][0] == xs[i] && xs[i..][1..] == xs[i + 1..];
  }

  /** The first etymology that is not empty once stripped, or "". */
  function FirstEtymology(es: seq<Record>): string {
    FirstNonEmpty(Etymologies(es))
  }

  /** The merge keeps "" as the etymology only when every entry's etymology strips to "". */
  lemma {:induction false} FirstEtymologyEmpty(es: seq<Record>)
    ensures FirstEtymology(es) == "" <==> forall k :: 0 <= k < |es| ==> Etymology(es[k]) == ""
  {
    FirstNonEmptyEmpty(Etymologies(es));
  }

  /** Otherwise it keeps the etymology of the first entry whose etymology is not empty once stripped. */
  lemma {:induction false} FirstEtymologyWitness(es: seq<Record>) returns (k: nat)
    requires FirstEtymology(es) != ""
    ensures k < |es| && FirstEtymology(es) == Etymology(es[k])
    ensures forall j :: 0 <= j < k ==> Etymology(es[j]) == ""
  {
    k := FirstNonEmptyWitness(Etymologies(es));
  }

  /** The record `merge_duplicate_entries` builds from a non-empty group. */
  function Merged(entries: seq<Record>): Record
    requires |entries| > 0
  {
    Record(
      phrase := MergedPhrase(entries[0].phrase),
      meanings := Some(Cleaned(AllMeanings(entries))),
      etymology := Has(FirstEtymology(entries)),
      category := Has(Join(", ", Cleaned(CategoryTexts(entries)))),
      sourceUrl := Has(Join(" | ", Cleaned(UrlTexts(entries)))),
      usageExample := entries[0].usageExample,
      extra := entries[0].extra)
  }

  /** The set of values in `xs`: the `seen` set kept beside each merged list. */
  function Members(xs: seq<string>): set<string> {
    set m | m in xs
  }

  lemma {:induction false} MembersHas(xs: seq<string>, v: string)
    ensures v in Members(xs) <==> v in xs
  {
  }

  lemma {:induction false} MembersSnoc(xs: seq<string>, v: string)
    ensures Members(xs + [v]) == Members(xs) + {v}
  {
  }

  /** The step shared by the three de-duplicating loops of `merge_duplicate_entries`: strip `x` and append it
      unless it is empty or already seen. `xs` are the values met before it. */
  method AddCleaned(x: string, merged: seq<string>, seen: set<string>, ghost xs: seq<string>)
    returns (merged': seq<string>, seen': set<string>)
    requires merged == Cleaned(xs) && seen == Members(merged)
    ensures merged' == Cleaned(xs + [x]) && seen' == Members(merged')
  {
    var normalized := Strip(x);
    CleanedSnoc(xs, x);
    MembersHas(merged, normalized);
    if normalized != "" && normalized !in seen {
      seen' := seen + {normalized};
      merged' := merged + [normalized];
      MembersSnoc(merged, normalized);
    } else {
      merged', seen' := merged, seen;
    }
  }

  /** The inner meanings loop of `merge_duplicate_entries`: the meanings of one entry, added to those
      collected from the entries before it (`done`). */
  method AddMeanings(ms: seq<string>, merged: seq<string>, seen: set<string>, ghost done: seq<string>)
    returns (merged': seq<string>, seen': set<string>)
    requires merged == Cleaned(done) && seen == Members(merged)
    ensures merged' == Cleaned(done + ms) && seen' == Members(merged')
  {
    merged', seen' := merged, seen;
    assert done + ms[..0] == done;
    var j := 0;
    while j < |ms|
      invariant 0 <= j <= |ms|
      invariant merged' == Cleaned(done + ms[..j])
      invariant seen' == Members(merged')
    {
      PrefixSnoc(done, ms, j);
      merged', seen' := AddCleaned(ms[j], merged', seen', done + ms[..j]);
      j := j + 1;
    }
    assert ms[..j] == ms;
  }

  /** The meanings loop of `merge_duplicate_entries`. */
  method MergeMeanings(entries: seq<Record>) returns (mergedMeanings: seq<string>)
    ensures mergedMeanings == Cleaned(AllMeanings(entries))
  {
    mergedMeanings := [];
    var seenMeanings: set<string> := {};
    var i := 0;
    while i < |entries|
      invariant 0 <= i <= |entries|
      invariant mergedMeanings == Cleaned(AllMeanings(entries[..i]))
      invariant seenMeanings == Members(mergedMeanings)
    {
      mergedMeanings, seenMeanings := AddMeanings(MeaningsOf(entries[i]), mergedMeanings, seenMeanings, AllMeanings(entries[..i]));
      AllMeaningsPrefix(entries, i);
      i := i + 1;
    }
    assert entries[..i] == entries;
  }

  /** The etymology loop of `merge_duplicate_entries`: the first non-empty one, or "". */
  method MergeEtymology(entries: seq<Record>) returns (etymology: string)
    ensures etymology == FirstEtymology(entries)
  {
    etymology := "";
    ghost var ets := Etymologies(entries);
    var i := 0;
    while i < |entries|
      invariant 0 <= i <= |entries|
      invariant etymology == ""
      invariant FirstNonEmpty(ets[i..]) == FirstEtymology(entries)
    {
      var etym := Etymology(entries[i]);
      FirstNonEmptyAt(ets, i);
      if etym != "" {
        etymology := etym;
        break;
      }
      i := i + 1;
    }
  }

  /** The categories loop of `merge_duplicate_entries` and the choice that follows it. */
  method MergeCategories(entries: seq<Record>) returns (mergedCategory: string)
    ensures mergedCategory == Join(", ", Cleaned(CategoryTexts(entries)))
  {
    var texts := CategoryTexts(entries);
    var categories: seq<string> := [];
    var seenCategories: set<string> := {};
    var i := 0;
    while i < |entries|
      invariant 0 <= i <= |entries|
      invariant categories == Cleaned(texts[..i])
      invariant seenCategories == Members(categories)
    {
      assert texts[..i + 1] == texts[..i] + [Text(entries[i].category)];
      categories, seenCategories := AddCleaned(Text(entries[i].category), categories, seenCategories, texts[..i]);
      i := i + 1;
    }
    assert texts[..i] == texts;
    if |categories| > 1 {
      mergedCategory := Join(", ", categories);
    } else if categories != [] {
      mergedCategory := categories[0];
    } else {
      mergedCategory := "";
    }
  }

  /** The source URL loop of `merge_duplicate_entries` and the choice that follows it. */
  method MergeSourceUrls(entries: seq<Record>) returns (mergedUrl: string)
    ensures mergedUrl == Join(" | ", Cleaned(UrlTexts(entries)))
  {
    var texts := UrlTexts(entries);
    var sourceUrls: seq<string> := [];
    var seenUrls: set<string> := {};
    var i := 0;
    while i < |entries|
      invariant 0 <= i <= |entries|
      invariant sourceUrls == Cleaned(texts[..i])
      invariant seenUrls == Members(sourceUrls)
    {
      assert texts[..i + 1] == texts[..i] + [Text(entries[i].sourceUrl)];
      sourceUrls, seenUrls := AddCleaned(Text(entries[i].sourceUrl), sourceUrls, seenUrls, texts[..i]);
      i := i + 1;
    }
    assert texts[..i] == texts;
    if |sourceUrls| > 1 {
      mergedUrl := Join(" | ", sourceUrls);
    } else if sourceUrls != [] {
      mergedUrl := sourceUrls[0];
    } else {
      mergedUrl := "";
    }
  }

  /** `merge_duplicate_entries`: every key other than the five it rebuilds is copied from the first entry. */
  method MergeDuplicateEntries(entries: seq<Record>) returns (merged: Record)
    requires |entries| > 0
    ensures merged == Merged(entries)
    ensures merged.extra == entries[0].extra && merged.usageExample == entries[0].usageExample
    ensures Collapsed(merged.phrase) && NormalizePhrase(merged.phrase) == NormalizePhrase(entries[0].phrase)
  {
    var base := entries[0];
    var phrase := Join(" ", Split(Strip(base.phrase)));
    var meanings := MergeMeanings(entries);
    var etymology := MergeEtymology(entries);
    var category := MergeCategories(entries);
    var sourceUrl := MergeSourceUrls(entries);
    merged := Record(phrase, Some(meanings), Has(etymology), Has(category), Has(sourceUrl),
      base.usageExample, base.extra);
    MergedPhraseKey(base.phrase);
  }

  /** The merged meanings are stripped, non-empty and distinct, are exactly the non-empty stripped meanings of
      all entries, and come in the order in which they are first met. */
  lemma {:induction false} MergedMeanings(entries: seq<Record>)
    requires |entries| > 0
    ensures var ms := MeaningsOf(Merged(entries));
      && (forall i :: 0 <= i < |ms| ==> ms[i] != "" && Trimmed(ms[i]))
      && NoDuplicates(ms)
      && (forall v :: v in ms <==> v != "" && exists k, r :: 0 <= k < |entries| && r in MeaningsOf(entries[k]) && Strip(r) == v)
  {
    var all := AllMeanings(entries);
    CleanedProperties(all);
    AllMeaningsMembers(entries);
    forall v
      ensures v in Cleaned(all) <==> v != "" && exists k, r :: 0 <= k < |entries| && r in MeaningsOf(entries[k]) && Strip(r) == v
    {
      if v != "" && exists k, r :: 0 <= k < |entries| && r in MeaningsOf(entries[k]) && Strip(r) == v {
        var k, r :| 0 <= k < |entries| && r in MeaningsOf(entries[k]) && Strip(r) == v;
        assert r in all;
      }
    }
  }

  /** Membership in `Cleaned`, by position in the raw values. */
  lemma {:induction false} CleanedMembersIndexed(xs: seq<string>)
    ensures forall v :: v in Cleaned(xs) <==> v != "" && exists k :: 0 <= k < |xs| && Strip(xs[k]) == v
  {
    CleanedProperties(xs);
    forall v | v in Cleaned(xs)
      ensures exists k :: 0 <= k < |xs| && Strip(xs[k]) == v
    {
      var r :| r in xs && Strip(r) == v;
      var k :| 0 <= k < |xs| && xs[k] == r;
    }
  }

  /** The merged category is the distinct non-empty stripped categories, first-seen first, joined by ", "
      (so "" when there are none and the single value when there is one). */
  lemma {:induction false} MergedCategory(entries: seq<Record>)
    requires |entries| > 0
    ensures Merged(entries).category == Has(Join(", ", Cleaned(CategoryTexts(entries))))
    ensures var cs := Cleaned(CategoryTexts(entries));
      && (cs == [] ==> Join(", ", cs) == "")
      && (|cs| == 1 ==> Join(", ", cs) == cs[0])
      && NoDuplicates(cs)
      && (forall v :: v in cs <==> v != "" && exists k :: 0 <= k < |entries| && Strip(Text(entries[k].category)) == v)
  {
    var ct := CategoryTexts(entries);
    CleanedProperties(ct);
    CleanedMembersIndexed(ct);
  }

  /** The merged source URL is the distinct non-empty stripped URLs, first-seen first, joined by " | ". */
  lemma {:induction false} MergedSourceUrl(entries: seq<Record>)
    requires |entries| > 0
    ensures Merged(entries).sourceUrl == Has(Join(" | ", Cleaned(UrlTexts(entries))))
    ensures var us := Cleaned(UrlTexts(entries));
      && (us == [] ==> Join(" | ", us) == "")
      && (|us| == 1 ==> Join(" | ", us) == us[0])
      && NoDuplicates(us)
      && (forall v :: v in us <==> v != "" && exists k :: 0 <= k < |entries| && Strip(Text(entries[k].sourceUrl)) == v)
  {
    var ut := UrlTexts(entries);
    CleanedProperties(ut);
    CleanedMembersIndexed(ut);
  }

  // ---------------------------------------------------------------------------
  // group_phrases
  // ---------------------------------------------------------------------------

  /** The grouping key of a record: `normalize_phrase(entry.get("phrase", ""))`. */
  function Key(r: Record): string {
    NormalizePhrase(r.phrase)
  }

  /** An entry together with its key.  The grouping lemmas are stated over these pairs, so that they hold
      whatever the key function is. */
  datatype Keyed = Keyed(key: string, entry: Record)

  /** Every entry paired with its key, in input order. */
  function Tag(xs: seq<Record>): (ps: seq<Keyed>)
    ensures |ps| == |xs|
    decreases |xs|
  {
    if xs == [] then [] else Tag(xs[..|xs| - 1]) + [Keyed(Key(xs[|xs| - 1]), xs[|xs| - 1])]
  }

  lemma {:induction false} TagSnoc(xs: seq<Record>, x: Record)
    ensures Tag(xs + [x]) == Tag(xs) + [Keyed(Key(x), x)]
  {
    assert (xs + [x])[..|xs|] == xs;
  }

  lemma {:induction false} TagStep(xs: seq<Record>, i: nat)
    requires i < |xs|
    ensures Tag(xs[..i + 1]) == Tag(xs[..i]) + [Keyed(NormalizePhrase(xs[i].phrase), xs[i])]
  {
    TakeSnoc(xs, i);
    TagSnoc(xs[..i], xs[i]);
  }

  lemma {:induction false} TagMembers(xs: seq<Record>)
    ensures forall p :: p in Tag(xs) ==> p.key == Key(p.entry) && p.entry in xs
    ensures Entries(Tag(xs)) == xs
    decreases |xs|
  {
    if xs != [] {
      var ys := xs[..|xs| - 1];
      TagMembers(ys);
      SplitLast(xs);
      EntriesSnoc(Tag(ys), Keyed(Key(xs[|xs| - 1]), xs[|xs| - 1]));
    }
  }

  function KeysOf(ps: seq<Keyed>): (ks: seq<string>)
    ensures |ks| == |ps|
    decreases |ps|
  {
    if ps == [] then [] else KeysOf(ps[..|ps| - 1]) + [ps[|ps| - 1].key]
  }

  function Entries(ps: seq<Keyed>): (es: seq<Record>)
    ensures |es| == |ps|
    decreases |ps|
  {
    if ps == [] then [] else Entries(ps[..|ps| - 1]) + [ps[|ps| - 1].entry]
  }

  lemma {:induction false} KeysOfSnoc(ps: seq<Keyed>, p: Keyed)
    ensures KeysOf(ps + [p]) == KeysOf(ps) + [p.key]
  {
    assert (ps + [p])[..|ps|] == ps;
  }

  lemma {:induction false} EntriesSnoc(ps: seq<Keyed>, p: Keyed)
    ensures Entries(ps + [p]) == Entries(ps) + [p.entry]
  {
    assert (ps + [p])[..|ps|] == ps;
  }

  /** The entries whose key is `k`, in input order. */
  function Select(ps: seq<Keyed>, k: string): seq<Record>
    decreases |ps|
  {
    if ps == [] then []
    else
      var s := Select(ps[..|ps| - 1], k);
      if ps[|ps| - 1].key == k then s + [ps[|ps| - 1].entry] else s
  }

  lemma {:induction false} SelectSnoc(ps: seq<Keyed>, p: Keyed, k: string)
    ensures Select(ps + [p], k) == if p.key == k then Select(ps, k) + [p.entry] else Select(ps, k)
  {
    assert (ps + [p])[..|ps|] == ps;
  }

  /** A group holds only entries paired with its key, and is empty exactly when no entry has that key. */
  lemma {:induction false} SelectMembers(ps: seq<Keyed>, k: string)
    ensures forall e :: e in Select(ps, k) ==> Keyed(k, e) in ps
    ensures |Select(ps, k)| > 0 <==> k in KeysOf(ps)
    decreases |ps|
  {
    if ps != [] {
      var qs, p := ps[..|ps| - 1], ps[|ps| - 1];
      SelectMembers(qs, k);
      assert ps == qs + [p];
      KeysOfSnoc(qs, p);
      SelectSnoc(qs, p, k);
    }
  }

  /** The positions of the entries whose key is `k`, in increasing order. */
  function KeyPositions(ps: seq<Keyed>, k: string): seq<nat>
    decreases |ps|
  {
    if ps == [] then []
    else
      var s := KeyPositions(ps[..|ps| - 1], k);
      if ps[|ps| - 1].key == k then s + [|ps| - 1] else s
  }

  /** A group keeps input order: its j-th entry sits at the j-th position whose key is `k`, those positions
      increase, and every position whose key is `k` is among them. */
  lemma {:induction false} SelectInInputOrder(ps: seq<Keyed>, k: string)
    ensures var idx := KeyPositions(ps, k);
      && |idx| == |Select(ps, k)|
      && (forall j :: 0 <= j < |idx| ==> idx[j] < |ps| && ps[idx[j]] == Keyed(k, Select(ps, k)[j]))
      && (forall i, j :: 0 <= i < j < |idx| ==> idx[i] < idx[j])
      && (forall n :: 0 <= n < |ps| && ps[n].key == k ==> n in idx)
    decreases |ps|
  {
    if ps != [] {
      var qs := ps[..|ps| - 1];
      SelectInInputOrder(qs, k);
      var prev := KeyPositions(qs, k);
      forall j | 0 <= j < |prev|
        ensures ps[prev[j]] == qs[prev[j]]
      {
      }
    }
  }

  lemma {:induction false} TagAt(xs: seq<Record>, n: nat)
    requires n < |xs|
    ensures Tag(xs)[n] == Keyed(Key(xs[n]), xs[n])
    decreases |xs|
  {
    var ys, y := xs[..|xs| - 1], xs[|xs| - 1];
    SplitLast(xs);
    TagSnoc(ys, y);
    if n < |ys| {
      TagAt(ys, n);
      assert xs[n] == ys[n];
    }
  }

  /** Each group of `group_phrases` lists its entries in input order: there are increasing input positions,
      exactly those of the entries with the group's key, holding the group's entries one by one. */
  lemma {:induction false} GroupInInputOrder(xs: seq<Record>, k: string)
    requires k in Groups(Tag(xs))
    ensures var idx, g := KeyPositions(Tag(xs), k), Groups(Tag(xs))[k];
      && |idx| == |g|
      && (forall j :: 0 <= j < |idx| ==> idx[j] < |xs| && xs[idx[j]] == g[j])
      && (forall i, j :: 0 <= i < j < |idx| ==> idx[i] < idx[j])
      && (forall n :: 0 <= n < |xs| && Key(xs[n]) == k ==> n in idx)
  {
    var ps := Tag(xs);
    var idx := KeyPositions(ps, k);
    SelectInInputOrder(ps, k);
    forall j | 0 <= j < |idx|
      ensures xs[idx[j]] == Select(ps, k)[j]
    {
      TagAt(xs, idx[j]);
    }
    forall n | 0 <= n < |xs| && Key(xs[n]) == k
      ensures n in idx
    {
      TagAt(xs, n);
    }
  }

  /** The groups listed in `order`, concatenated. */
  function Flatten(order: seq<string>, ps: seq<Keyed>): seq<Record>
    decreases |order|
  {
    if order == [] then [] else Flatten(order[..|order| - 1], ps) + Select(ps, order[|order| - 1])
  }

  /** The `groups` dictionary of `group_phrases`: each key met in the input, mapped to its entries. */
  function Groups(ps: seq<Keyed>): map<string, seq<Record>> {
    map k | k in KeysOf(ps) :: Select(ps, k)
  }

  lemma {:induction false} GroupsSnoc(ps: seq<Keyed>, p: Keyed)
    ensures Groups(ps + [p]) ==
      Groups(ps)[p.key := (if p.key in Groups(ps) then Groups(ps)[p.key] else []) + [p.entry]]
  {
    var k := p.key;
    KeysOfSnoc(ps, p);
    SelectMembers(ps, k);
    var m1, m2 := Groups(ps + [p]), Groups(ps)[k := (if k in Groups(ps) then Groups(ps)[k] else []) + [p.entry]];
    assert m1.Keys == m2.Keys;
    forall k' | k' in m1
      ensures m1[k'] == m2[k']
    {
      SelectSnoc(ps, p, k');
    }
  }

  /** The body of the `group_phrases` loop: append `entry` to the group of `key`, creating the group (and
      recording the key) when it is new. */
  lemma {:induction false} UpdateTwice(m: map<string, seq<Record>>, k: string, a: seq<Record>, b: seq<Record>)
    ensures m[k := a][k := b] == m[k := b]
  {
  }

  method AddToGroup(groups: map<string, seq<Record>>, order: seq<string>, ghost ps: seq<Keyed>, key: string, entry: Record)
    returns (groups': map<string, seq<Record>>, order': seq<string>)
    requires order == Distinct(KeysOf(ps)) && groups == Groups(ps)
    ensures order' == Distinct(KeysOf(ps + [Keyed(key, entry)]))
    ensures groups' == Groups(ps + [Keyed(key, entry)])
  {
    var p := Keyed(key, entry);
    assert key in groups <==> key in order by {
      DistinctElements(KeysOf(ps));
    }
    KeysOfSnoc(ps, p);
    DistinctSnoc(KeysOf(ps), key);
    GroupsSnoc(ps, p);
    groups', order' := groups, order;
    if key !in groups' {
      groups' := groups'[key := []];
      order' := order' + [key];
      UpdateTwice(groups, key, [], [] + [entry]);
    }
    groups' := groups'[key := groups'[key] + [entry]];
  }

  /** `group_phrases`: one pass that appends each entry to the group of its key, recording keys as first met. */
  method GroupPhrases(phrases: seq<Record>) returns (groups: map<string, seq<Record>>, order: seq<string>)
    ensures order == Distinct(KeysOf(Tag(phrases)))
    ensures groups == Groups(Tag(phrases))
  {
    groups := map[];
    order := [];
    ghost var ps: seq<Keyed> := [];
    var i := 0;
    while i < |phrases|
      invariant 0 <= i <= |phrases|
      invariant ps == Tag(phrases[..i])
      invariant order == Distinct(KeysOf(ps))
      invariant groups == Groups(ps)
    {
      var entry := phrases[i];
      var normalized := NormalizePhrase(entry.phrase);
      groups, order := AddToGroup(groups, order, ps, normalized, entry);
      TagStep(phrases, i);
      ps := ps + [Keyed(normalized, entry)];
      i := i + 1;
    }
    TakeAll(phrases);
  }

  lemma {:induction false} FlattenAppend(a: seq<string>, b: seq<string>, ps: seq<Keyed>)
    ensures Flatten(a + b, ps) == Flatten(a, ps) + Flatten(b, ps)
    decreases |b|
  {
    if b == [] {
      assert a + b == a;
    } else {
      assert (a + b)[..|a + b| - 1] == a + b[..|b| - 1];
      assert (a + b)[|a + b| - 1] == b[|b| - 1];
      FlattenAppend(a, b[..|b| - 1], ps);
    }
  }

  /** Adding an entry adds it to the flattening once, if its key is listed. */
  lemma {:induction false} FlattenSnoc(order: seq<string>, ps: seq<Keyed>, p: Keyed)
    requires NoDuplicates(order)
    ensures multiset(Flatten(order, ps + [p])) ==
      multiset(Flatten(order, ps)) + (if p.key in order then multiset{p.entry} else multiset{})
    decreases |order|
  {
    if order != [] {
      var init, k := order[..|order| - 1], order[|order| - 1];
      assert NoDuplicates(init);
      FlattenSnoc(init, ps, p);
      SelectSnoc(ps, p, k);
      assert p.key in order <==> p.key in init || p.key == k;
      assert p.key == k ==> p.key !in init;
    }
  }

  /** Concatenating the groups in first-seen key order gives back the entries, up to order: a permutation. */
  lemma {:induction false} GroupsPermutation(ps: seq<Keyed>)
    ensures multiset(Flatten(Distinct(KeysOf(ps)), ps)) == multiset(Entries(ps))
    decreases |ps|
  {
    if ps != [] {
      var qs, p := ps[..|ps| - 1], ps[|ps| - 1];
      assert ps == qs + [p];
      GroupsPermutation(qs);
      var d := Distinct(KeysOf(qs));
      KeysOfSnoc(qs, p);
      EntriesSnoc(qs, p);
      DistinctSnoc(KeysOf(qs), p.key);
      DistinctNoDuplicates(KeysOf(qs));
      DistinctElements(KeysOf(qs));
      FlattenSnoc(d, qs, p);
      if p.key !in d {
        FlattenAppend(d, [p.key], ps);
        SelectMembers(qs, p.key);
        SelectSnoc(qs, p, p.key);
        assert Flatten([p.key], ps) == Select(ps, p.key);
        assert Select(qs, p.key) == [];
      }
    }
  }

  /** What `group_phrases` returns: `order` lists each key once, in first-seen order, and exactly the keys of
      `groups`; every group is non-empty and holds only entries of its key; concatenating the groups in
      `order` gives a permutation of the input. */
  lemma {:induction false} GroupPhrasesProperties(xs: seq<Record>)
    ensures var order, groups := Distinct(KeysOf(Tag(xs))), Groups(Tag(xs));
      && NoDuplicates(order)
      && (forall k :: k in groups <==> k in order)
      && (forall k :: k in groups ==> |groups[k]| > 0 && forall e :: e in groups[k] ==> Key(e) == k && e in xs)
      && multiset(Flatten(order, Tag(xs))) == multiset(xs)
  {
    var ps := Tag(xs);
    DistinctNoDuplicates(KeysOf(ps));
    DistinctElements(KeysOf(ps));
    GroupsPermutation(ps);
    TagMembers(xs);
    forall k | k in Groups(ps)
      ensures |Groups(ps)[k]| > 0 && forall e :: e in Groups(ps)[k] ==> Key(e) == k && e in xs
    {
      SelectMembers(ps, k);
      forall e | e in Select(ps, k)
        ensures Key(e) == k && e in xs
      {
        assert Keyed(k, e) in ps;
      }
    }
  }

  // ---------------------------------------------------------------------------
  // find_and_remove_duplicates
  // ---------------------------------------------------------------------------

  /** The keys of `order` whose group has more than one entry, in the same order. */
  function Duplicated(order: seq<string>, ps: seq<Keyed>): seq<string>
    decreases |order|
  {
    if order == [] then []
    else
      var d := Duplicated(order[..|order| - 1], ps);
      if |Select(ps, order[|order| - 1])| > 1 then d + [order[|order| - 1]] else d
  }

  /** `sum(len(entries) - 1 ...)` over the groups of the keys in `ks`. */
  function ExtraEntries(ks: seq<string>, ps: seq<Keyed>): int
    decreases |ks|
  {
    if ks == [] then 0 else ExtraEntries(ks[..|ks| - 1], ps) + |Select(ps, ks[|ks| - 1])| - 1
  }

  lemma {:induction false} DuplicatedCount(ks: seq<string>, ps: seq<Keyed>)
    requires forall k :: k in ks ==> |Select(ps, k)| > 0
    ensures ExtraEntries(Duplicated(ks, ps), ps) == ExtraEntries(ks, ps)
    decreases |ks|
  {
    if ks != [] {
      var init, k := ks[..|ks| - 1], ks[|ks| - 1];
      assert forall j :: j in init ==> j in ks;
      DuplicatedCount(init, ps);
      assert k in ks;
      if |Select(ps, k)| > 1 {
        var d := Duplicated(init, ps);
        assert (d + [k])[..|d + [k]| - 1] == d;
      }
    }
  }

  lemma {:induction false} ExtraEntriesFlatten(ks: seq<string>, ps: seq<Keyed>)
    ensures ExtraEntries(ks, ps) == |Flatten(ks, ps)| - |ks|
    decreases |ks|
  {
    if ks != [] {
      ExtraEntriesFlatten(ks[..|ks| - 1], ps);
    }
  }

  lemma {:induction false} DuplicatedSubset(ks: seq<string>, ps: seq<Keyed>)
    ensures forall k :: k in Duplicated(ks, ps) ==> k in ks && |Select(ps, k)| > 1
    decreases |ks|
  {
    if ks != [] {
      DuplicatedSubset(ks[..|ks| - 1], ps);
      assert forall k :: k in ks[..|ks| - 1] ==> k in ks;
    }
  }

  lemma {:induction false} DuplicatedNoDuplicates(ks: seq<string>, ps: seq<Keyed>)
    requires NoDuplicates(ks)
    ensures NoDuplicates(Duplicated(ks, ps))
    decreases |ks|
  {
    if ks != [] {
      var init := ks[..|ks| - 1];
      assert NoDuplicates(init);
      DuplicatedNoDuplicates(init, ps);
      DuplicatedSubset(init, ps);
    }
  }

  lemma {:induction false} CardinalityOfDistinct(s: seq<string>)
    requires NoDuplicates(s)
    ensures |set k | k in s| == |s|
    decreases |s|
  {
    if s != [] {
      var init := s[..|s| - 1];
      assert NoDuplicates(init);
      CardinalityOfDistinct(init);
      assert (set k | k in s) == (set k | k in init) + {s[|s| - 1]};
    }
  }

  /** The entries removed by the clean-up are exactly those that share a key with an earlier one. */
  lemma {:induction false} DuplicatesBalance(ps: seq<Keyed>)
    ensures ExtraEntries(Duplicated(Distinct(KeysOf(ps)), ps), ps) == |ps| - |Distinct(KeysOf(ps))|
  {
    var order := Distinct(KeysOf(ps));
    DistinctElements(KeysOf(ps));
    forall k | k in order
      ensures |Select(ps, k)| > 0
    {
      SelectMembers(ps, k);
    }
    DuplicatedCount(order, ps);
    ExtraEntriesFlatten(order, ps);
    GroupsPermutation(ps);
    assert |multiset(Flatten(order, ps))| == |multiset(Entries(ps))|;
  }

  /** The statistics `find_and_remove_duplicates` returns. */
  datatype Report = Report(
    totalBefore: nat,
    duplicatesFound: nat,
    duplicateEntriesRemoved: int,
    totalAfter: nat,
    duplicatesDetail: map<string, seq<Record>>,
    duplicatesOrder: seq<string>)

  /** A merged group carries the key of the group: merging keeps the first entry's phrase up to whitespace. */
  lemma {:induction false} MergedGroupKey(xs: seq<Record>, k: string)
    requires |Select(Tag(xs), k)| > 0
    ensures Key(Merged(Select(Tag(xs), k))) == k
  {
    var g := Select(Tag(xs), k);
    assert g[0] in g;
    SelectMembers(Tag(xs), k);
    TagMembers(xs);
    assert Keyed(k, g[0]) in Tag(xs);
    MergedPhraseKey(g[0].phrase);
  }

  lemma {:induction false} DuplicatedSnoc(ks: seq<string>, ps: seq<Keyed>, i: nat)
    requires i < |ks|
    ensures Duplicated(ks[..i + 1], ps) ==
      if |Select(ps, ks[i])| > 1 then Duplicated(ks[..i], ps) + [ks[i]] else Duplicated(ks[..i], ps)
  {
    TakeTake(ks, i);
  }

  lemma {:induction false} SelectMapSnoc(ks: seq<string>, k: string, ps: seq<Keyed>)
    ensures (map j | j in ks + [k] :: Select(ps, j)) == (map j | j in ks :: Select(ps, j))[k := Select(ps, k)]
  {
  }

  lemma {:induction false} SelectMapSize(ks: seq<string>, ps: seq<Keyed>)
    requires NoDuplicates(ks)
    ensures |map j | j in ks :: Select(ps, j)| == |ks|
  {
    CardinalityOfDistinct(ks);
    assert (map j | j in ks :: Select(ps, j)).Keys == set j | j in ks;
  }

  /** The first loop of `find_and_remove_duplicates`: keep the groups with more than one entry. */
  method CollectDuplicates(groups: map<string, seq<Record>>, order: seq<string>, ghost ps: seq<Keyed>)
    returns (duplicates: map<string, seq<Record>>, duplicatesOrder: seq<string>)
    requires groups == Groups(ps) && order == Distinct(KeysOf(ps))
    ensures duplicatesOrder == Duplicated(order, ps)
    ensures duplicates == map k | k in duplicatesOrder :: Select(ps, k)
    ensures |duplicates| == |duplicatesOrder|
  {
    assert forall k :: k in order ==> k in groups && groups[k] == Select(ps, k) by {
      DistinctElements(KeysOf(ps));
    }
    duplicates := map[];
    duplicatesOrder := [];
    var i := 0;
    while i < |order|
      invariant 0 <= i <= |order|
      invariant duplicatesOrder == Duplicated(order[..i], ps)
      invariant duplicates == map k | k in duplicatesOrder :: Select(ps, k)
    {
      var normalized := order[i];
      DuplicatedSnoc(order, ps, i);
      var entries := groups[normalized];
      assert entries == Select(ps, normalized);
      if |entries| > 1 {
        SelectMapSnoc(duplicatesOrder, normalized, ps);
        duplicates := duplicates[normalized := entries];
        duplicatesOrder := duplicatesOrder + [normalized];
      }
      i := i + 1;
    }
    TakeAll(order);
    assert NoDuplicates(duplicatesOrder) by {
      DistinctNoDuplicates(KeysOf(ps));
      DuplicatedNoDuplicates(order, ps);
    }
    SelectMapSize(duplicatesOrder, ps);
  }

  /** The second loop of `find_and_remove_duplicates`: `sum(len(entries) - 1 for entries in duplicates.values())`. */
  method CountExtraEntries(duplicates: map<string, seq<Record>>, duplicatesOrder: seq<string>, ghost ps: seq<Keyed>)
    returns (total: int)
    requires duplicates == map k | k in duplicatesOrder :: Select(ps, k)
    ensures total == ExtraEntries(duplicatesOrder, ps)
  {
    total := 0;
    var j := 0;
    while j < |duplicatesOrder|
      invariant 0 <= j <= |duplicatesOrder|
      invariant total == ExtraEntries(duplicatesOrder[..j], ps)
    {
      TakeTake(duplicatesOrder, j);
      total := total + |duplicates[duplicatesOrder[j]]| - 1;
      j := j + 1;
    }
    assert duplicatesOrder[..j] == duplicatesOrder;
  }

  /** The merged record of each listed group, in order. */
  function MergedGroups(ks: seq<string>, ps: seq<Keyed>): (rs: seq<Record>)
    requires forall k :: k in ks ==> k in KeysOf(ps)
    ensures |rs| == |ks|
    decreases |ks|
  {
    if ks == [] then []
    else
      var k := ks[|ks| - 1];
      assert k in ks;
      SelectMembers(ps, k);
      MergedGroups(ks[..|ks| - 1], ps) + [Merged(Select(ps, k))]
  }

  lemma {:induction false} MergedGroupsAt(ks: seq<string>, ps: seq<Keyed>, m: nat)
    requires forall k :: k in ks ==> k in KeysOf(ps)
    requires m < |ks|
    ensures |Select(ps, ks[m])| > 0 && MergedGroups(ks, ps)[m] == Merged(Select(ps, ks[m]))
    decreases |ks|
  {
    assert ks[m] in ks;
    SelectMembers(ps, ks[m]);
    if m < |ks| - 1 {
      var init := ks[..|ks| - 1];
      assert forall k :: k in init ==> k in ks;
      MergedGroupsAt(init, ps, m);
    }
  }

  lemma {:induction false} MergedGroupsSnoc(ks: seq<string>, ps: seq<Keyed>, i: nat)
    requires forall k :: k in ks ==> k in KeysOf(ps)
    requires i < |ks|
    ensures forall k :: k in ks[..i + 1] ==> k in KeysOf(ps)
    ensures |Select(ps, ks[i])| > 0
    ensures MergedGroups(ks[..i + 1], ps) == MergedGroups(ks[..i], ps) + [Merged(Select(ps, ks[i]))]
  {
    assert forall k :: k in ks[..i + 1] ==> k in ks;
    TakeTake(ks, i);
    assert ks[i] in ks;
    SelectMembers(ps, ks[i]);
  }

  /** The third loop of `find_and_remove_duplicates`: one merged record per group, in first-seen key order. */
  method MergeGroups(groups: map<string, seq<Record>>, order: seq<string>, ghost ps: seq<Keyed>)
    returns (cleaned: seq<Record>)
    requires groups == Groups(ps) && order == Distinct(KeysOf(ps))
    ensures forall k :: k in order ==> k in KeysOf(ps)
    ensures cleaned == MergedGroups(order, ps)
  {
    assert forall k :: k in order ==> k in KeysOf(ps) by {
      DistinctElements(KeysOf(ps));
    }
    cleaned := [];
    var i := 0;
    while i < |order|
      invariant 0 <= i <= |order|
      invariant cleaned == MergedGroups(order[..i], ps)
    {
      MergedGroupsSnoc(order, ps, i);
      var entries := groups[order[i]];
      assert entries == Select(ps, order[i]);
      var merged := MergeDuplicateEntries(entries);
      cleaned := cleaned + [merged];
      i := i + 1;
    }
    TakeAll(order);
  }

  /** The counting and cleaning steps of `find_and_remove_duplicates`, over the in-memory `phrases` list. */
  method FindAndRemoveDuplicates(phrases: seq<Record>) returns (report: Report, cleaned: seq<Record>)
    ensures report.totalBefore == |phrases|
    ensures report.totalAfter == |cleaned| == |Distinct(KeysOf(Tag(phrases)))|
    ensures report.duplicatesOrder == Duplicated(Distinct(KeysOf(Tag(phrases))), Tag(phrases))
    ensures report.duplicatesFound == |report.duplicatesOrder|
    ensures report.duplicatesDetail == map k | k in report.duplicatesOrder :: Select(Tag(phrases), k)
    ensures report.duplicateEntriesRemoved == report.totalBefore - report.totalAfter
    ensures forall i :: 0 <= i < |cleaned| ==>
      var k := Distinct(KeysOf(Tag(phrases)))[i];
      |Select(Tag(phrases), k)| > 0 && cleaned[i] == Merged(Select(Tag(phrases), k)) && Key(cleaned[i]) == k
    ensures forall i, j :: 0 <= i < j < |cleaned| ==> Key(cleaned[i]) != Key(cleaned[j])
  {
    var totalBefore := |phrases|;
    var phraseGroups, order := GroupPhrases(phrases);
    ghost var ps := Tag(phrases);
    var duplicates, duplicatesOrder := CollectDuplicates(phraseGroups, order, ps);
    var totalDuplicateEntries := CountExtraEntries(duplicates, duplicatesOrder, ps);
    DuplicatesBalance(ps);
    cleaned := MergeGroups(phraseGroups, order, ps);
    forall m | 0 <= m < |cleaned|
      ensures |Select(ps, order[m])| > 0 && cleaned[m] == Merged(Select(ps, order[m])) && Key(cleaned[m]) == order[m]
    {
      MergedGroupsAt(order, ps, m);
      MergedGroupKey(phrases, order[m]);
    }
    DistinctNoDuplicates(KeysOf(ps));
    report := Report(totalBefore, |duplicates|, totalDuplicateEntries, |cleaned|, duplicates, duplicatesOrder);
  }
}
