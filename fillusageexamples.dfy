/** fill_usage_examples.py: how a usage example is found for a record (a quote from its etymology with the
    author named near it, else a sentence built from a template chosen by the meaning), the loop that gives
    every record without an example one, and the SQL dump written afterwards. */
module FillUsageExamples {
  import opened PyStr
  import opened SeqUtil
  import opened Records
  import opened Schema
  import opened CreateMysqlDb
  import opened GenerateFinalSql

  // ---------------------------------------------------------------------------
  // Quotes in the etymology
  // ---------------------------------------------------------------------------

  const OpenGuillemet: char := '\U{AB}'
  const CloseGuillemet: char := '\U{BB}'
  const DoubleQuote: char := '"'

  /** `re.findall(open + '([^' + close + ']+)' + close, s)`: scanning left to right, an opening character
      followed by at least one character other than the closing one and then the closing one yields the text
      between them, and the scan resumes after the closing character; anywhere else it moves on by one. */
  function FindQuotes(s: string, open: char, close: char): seq<string>
    decreases |s|
  {
    if s == [] then []
    else if s[0] == open then
      var t := s[1..];
      var j := FindChar(t, close);
      if 0 < j < |t| then [t[..j]] + FindQuotes(t[j + 1..], open, close)
      else FindQuotes(t, open, close)
    else FindQuotes(s[1..], open, close)
  }

  /** Every match is non-empty and free of the closing character. */
  lemma {:induction false} FindQuotesShape(s: string, open: char, close: char)
    ensures forall k :: 0 <= k < |FindQuotes(s, open, close)| ==>
      |FindQuotes(s, open, close)[k]| > 0 && close !in FindQuotes(s, open, close)[k]
    decreases |s|
  {
    if s != [] {
      var t := s[1..];
      var j := FindChar(t, close);
      if s[0] == open && 0 < j < |t| {
        FindQuotesShape(t[j + 1..], open, close);
        var qs := FindQuotes(s, open, close);
        var rest := FindQuotes(t[j + 1..], open, close);
        assert qs == [t[..j]] + rest;
        assert close !in t[..j] by {
          assert forall m :: 0 <= m < j ==> t[..j][m] == t[m];
        }
        forall k | 0 <= k < |qs|
          ensures |qs[k]| > 0 && close !in qs[k]
        {
          if k > 0 {
            assert qs[k] == rest[k - 1];
          }
        }
      } else if s[0] == open {
        FindQuotesShape(t, open, close);
      } else {
        FindQuotesShape(t, open, close);
      }
    }
  }

  /** A text s[1..] whose match occurs in it also occurs in s. */
  lemma {:induction false} ContainsInTail(s: string, q: string, i: nat)
    requires i <= |s| && Contains(s[i..], q)
    ensures Contains(s, q)
  {
    assert s[i..] == s[i..|s|];
    ContainsSlice(s, q, i, |s|);
  }

  /** The matches after an opening character whose closing character comes later. */
  lemma {:induction false} FindQuotesMatch(s: string, open: char, close: char)
    requires |s| > 0 && s[0] == open && 0 < FindChar(s[1..], close) < |s[1..]|
    ensures var j := FindChar(s[1..], close);
      FindQuotes(s, open, close) == [s[1..1 + j]] + FindQuotes(s[j + 2..], open, close) &&
      OccursAt(s, s[1..1 + j], 1)
  {
    var t := s[1..];
    var j := FindChar(t, close);
    assert t[..j] == s[1..1 + j];
    assert t[j + 1..] == s[j + 2..];
  }

  /** The matches when s does not start a quote. */
  lemma {:induction false} FindQuotesSkip(s: string, open: char, close: char)
    requires |s| > 0 && !(s[0] == open && 0 < FindChar(s[1..], close) < |s[1..]|)
    ensures FindQuotes(s, open, close) == FindQuotes(s[1..], open, close)
  {
  }

  /** The first match of a text that starts a quote occurs in it. */
  lemma {:induction false} FirstQuoteOccurs(s: string, open: char, close: char)
    requires |s| > 0 && s[0] == open && 0 < FindChar(s[1..], close) < |s[1..]|
    ensures |FindQuotes(s, open, close)| > 0 && Contains(s, FindQuotes(s, open, close)[0])
  {
    FindQuotesMatch(s, open, close);
    assert OccursAt(s, FindQuotes(s, open, close)[0], 1);
  }

  /** Every match occurs in the scanned text. */
  lemma {:induction false} QuoteOccurs(s: string, open: char, close: char, k: nat)
    requires k < |FindQuotes(s, open, close)|
    ensures Contains(s, FindQuotes(s, open, close)[k])
    decreases |s|
  {
    if s[0] == open && 0 < FindChar(s[1..], close) < |s[1..]| {
      if k == 0 {
        FirstQuoteOccurs(s, open, close);
      } else {
        var j := FindChar(s[1..], close);
        FindQuotesMatch(s, open, close);
        QuoteOccurs(s[j + 2..], open, close, k - 1);
        ContainsInTail(s, FindQuotes(s[j + 2..], open, close)[k - 1], j + 2);
      }
    } else {
      FindQuotesSkip(s, open, close);
      QuoteOccurs(s[1..], open, close, k);
      ContainsInTail(s, FindQuotes(s[1..], open, close)[k], 1);
    }
  }

  /** A quote of more than three whitespace-separated words. */
  predicate Long(q: string) {
    |Split(q)| > 3
  }

  /** The number of words of each quote. */
  function WordCounts(qs: seq<string>): (ns: seq<nat>)
    ensures |ns| == |qs| && forall i :: 0 <= i < |qs| ==> ns[i] == |Split(qs[i])|
  {
    seq(|qs|, i requires 0 <= i < |qs| => |Split(qs[i])|)
  }

  /** The index of the first number above `bound`. */
  function FirstAbove(ns: seq<nat>, bound: nat): (k: Option<nat>)
    ensures k.Some? ==> k.value < |ns| && ns[k.value] > bound && forall j :: 0 <= j < k.value ==> ns[j] <= bound
    ensures k.None? ==> forall j :: 0 <= j < |ns| ==> ns[j] <= bound
    decreases |ns|
  {
    if ns == [] then None
    else if ns[0] > bound then Some(0)
    else
      var r := FirstAbove(ns[1..], bound);
      if r.Some? then Some(r.value + 1) else None
  }

  /** A number above the bound, reached before the first such number, is the first one. */
  lemma {:induction false} FirstAboveFound(ns: seq<nat>, bound: nat, m: nat)
    requires m < |ns| && ns[m] > bound
    requires FirstAbove(ns, bound).None? || FirstAbove(ns, bound).value >= m
    ensures FirstAbove(ns, bound) == Some(m)
  {
  }

  /** A number at most the bound is passed over. */
  lemma {:induction false} FirstAbovePassed(ns: seq<nat>, bound: nat, m: nat)
    requires m < |ns| && ns[m] <= bound
    requires FirstAbove(ns, bound).None? || FirstAbove(ns, bound).value >= m
    ensures FirstAbove(ns, bound).None? || FirstAbove(ns, bound).value >= m + 1
  {
  }

  /** The index of the first quote of more than three words. */
  function FirstLong(qs: seq<string>): (k: Option<nat>)
    ensures k.Some? ==> k.value < |qs| && Long(qs[k.value]) && forall j :: 0 <= j < k.value ==> !Long(qs[j])
    ensures k.None? ==> forall j :: 0 <= j < |qs| ==> !Long(qs[j])
  {
    FirstAbove(WordCounts(qs), 3)
  }

  /** A long quote preceded only by short ones is the one found. */
  lemma {:induction false} FirstLongAt(qs: seq<string>, m: nat)
    requires m < |qs| && Long(qs[m]) && forall j :: 0 <= j < m ==> !Long(qs[j])
    ensures FirstLong(qs) == Some(m)
  {
    if FirstLong(qs) != Some(m) {
      assert false;
    }
  }

  function GuillemetQuotes(e: string): seq<string> {
    FindQuotes(e, OpenGuillemet, CloseGuillemet)
  }

  function DoubleQuotes(e: string): seq<string> {
    FindQuotes(e, DoubleQuote, DoubleQuote)
  }

  /** The quote the example is built from: the first long «...» quote, else the first long "..." quote. */
  function ChosenQuote(e: string): (r: Option<string>)
    ensures r.Some? ==> Long(r.value) && Contains(e, r.value)
  {
    var g := FirstLong(GuillemetQuotes(e));
    if g.Some? then
      QuoteOccurs(e, OpenGuillemet, CloseGuillemet, g.value);
      Some(GuillemetQuotes(e)[g.value])
    else
      var d := FirstLong(DoubleQuotes(e));
      if d.Some? then
        QuoteOccurs(e, DoubleQuote, DoubleQuote, d.value);
        Some(DoubleQuotes(e)[d.value])
      else None
  }

  /** «...» quotes take precedence: when some guillemet quote is long, the first long one is chosen whatever
      the double-quoted ones are; only otherwise is the first long "..." quote chosen; and there is no quote
      exactly when no quote of either style is long. */
  lemma {:induction false} ChosenQuotePreference(e: string)
    ensures forall m ::
      (0 <= m < |GuillemetQuotes(e)| && Long(GuillemetQuotes(e)[m]) &&
       (forall j :: 0 <= j < m ==> !Long(GuillemetQuotes(e)[j]))) ==> ChosenQuote(e) == Some(GuillemetQuotes(e)[m])
    ensures (forall j :: 0 <= j < |GuillemetQuotes(e)| ==> !Long(GuillemetQuotes(e)[j])) ==>
      (forall m ::
        (0 <= m < |DoubleQuotes(e)| && Long(DoubleQuotes(e)[m]) &&
         (forall j :: 0 <= j < m ==> !Long(DoubleQuotes(e)[j]))) ==> ChosenQuote(e) == Some(DoubleQuotes(e)[m]))
    ensures ChosenQuote(e).None? <==>
      (forall j :: 0 <= j < |GuillemetQuotes(e)| ==> !Long(GuillemetQuotes(e)[j])) &&
      (forall j :: 0 <= j < |DoubleQuotes(e)| ==> !Long(DoubleQuotes(e)[j]))
  {
    forall m | 0 <= m < |GuillemetQuotes(e)| && Long(GuillemetQuotes(e)[m]) &&
      (forall j :: 0 <= j < m ==> !Long(GuillemetQuotes(e)[j]))
      ensures ChosenQuote(e) == Some(GuillemetQuotes(e)[m])
    {
      FirstLongAt(GuillemetQuotes(e), m);
    }
    forall m | (forall j :: 0 <= j < |GuillemetQuotes(e)| ==> !Long(GuillemetQuotes(e)[j])) &&
      0 <= m < |DoubleQuotes(e)| && Long(DoubleQuotes(e)[m]) && (forall j :: 0 <= j < m ==> !Long(DoubleQuotes(e)[j]))
      ensures ChosenQuote(e) == Some(DoubleQuotes(e)[m])
    {
      FirstLongAt(DoubleQuotes(e), m);
    }
  }

  // ---------------------------------------------------------------------------
  // The author named near the quote
  // ---------------------------------------------------------------------------

  /** The surnames looked for, in the order they are tried: Krylov, Gorky, Pushkin, Tolstoy, Gogol, Chekhov. */
  const Surnames: seq<string> := [
    "\U{41A}\U{440}\U{44B}\U{43B}\U{43E}\U{432}",
    "\U{413}\U{43E}\U{440}\U{44C}\U{43A}\U{438}\U{439}",
    "\U{41F}\U{443}\U{448}\U{43A}\U{438}\U{43D}",
    "\U{422}\U{43E}\U{43B}\U{441}\U{442}\U{43E}\U{439}",
    "\U{413}\U{43E}\U{433}\U{43E}\U{43B}\U{44C}",
    "\U{427}\U{435}\U{445}\U{43E}\U{432}"
  ]

  /** The credit written for each surname, in the same order. */
  const Credits: seq<string> := [
    "\U{41A}\U{440}\U{44B}\U{43B}\U{43E}\U{432} \U{418}.\U{410}.",
    "\U{413}\U{43E}\U{440}\U{44C}\U{43A}\U{438}\U{439} \U{41C}.",
    "\U{41F}\U{443}\U{448}\U{43A}\U{438}\U{43D} \U{410}.\U{421}.",
    "\U{422}\U{43E}\U{43B}\U{441}\U{442}\U{43E}\U{439} \U{41B}.\U{41D}.",
    "\U{413}\U{43E}\U{433}\U{43E}\U{43B}\U{44C} \U{41D}.\U{412}.",
    "\U{427}\U{435}\U{445}\U{43E}\U{432} \U{410}.\U{41F}."
  ]

  const WiktionaryCredit: string := "[Wiktionary]"

  /** The initial value of the author, "[source not given]", which every branch overwrites. */
  const Placeholder: string := "[\U{418}\U{441}\U{442}\U{43E}\U{447}\U{43D}\U{438}\U{43A} \U{43D}\U{435} \U{443}\U{43A}\U{430}\U{437}\U{430}\U{43D}]"

  /** `etymology[max(0, p - 100):min(len(etymology), p + len(quote) + 100)]` with `p = etymology.find(quote)`. */
  function Window(e: string, q: string): string {
    var p := Find(e, q);
    var start := if p - 100 > 0 then p - 100 else 0;
    var end := if |e| < p + |q| + 100 then |e| else p + |q| + 100;
    if start < end then e[start..end] else ""
  }

  /** For a quote that occurs, the window is the text from 100 characters before its first occurrence to 100
      characters after it, cut at the ends of the etymology, and holds the quote. */
  lemma {:induction false} WindowAroundQuote(e: string, q: string)
    requires Contains(e, q)
    ensures var p := Find(e, q);
      0 <= p && p + |q| <= |e| &&
      Window(e, q) == e[(if p >= 100 then p - 100 else 0)..(if p + |q| + 100 <= |e| then p + |q| + 100 else |e|)]
    ensures Contains(Window(e, q), q)
  {
    var p := Find(e, q);
    var start := if p >= 100 then p - 100 else 0;
    var end := if p + |q| + 100 <= |e| then p + |q| + 100 else |e|;
    if start < end {
      SliceOfSlice(e, start, end, p - start, p - start + |q|);
      assert OccursAt(e[start..end], q, p - start);
    } else {
      assert q == [];
      assert OccursAt(Window(e, q), q, 0);
    }
  }

  /** The index of the first of `pats` that occurs in `w`. */
  function FirstContained(w: string, pats: seq<string>): (k: Option<nat>)
    ensures k.Some? ==>
      k.value < |pats| && Contains(w, pats[k.value]) &&
      (forall j :: 0 <= j < k.value ==> !Contains(w, pats[j]))
    ensures k.None? ==> forall j :: 0 <= j < |pats| ==> !Contains(w, pats[j])
    decreases |pats|
  {
    if pats == [] then None
    else if Contains(w, pats[0]) then Some(0)
    else
      var r := FirstContained(w, pats[1..]);
      assert forall j :: 0 <= j < |pats[1..]| ==> pats[1..][j] == pats[j + 1];
      if r.Some? then Some(r.value + 1) else None
  }

  /** The author chain: the credit of the first surname that occurs in the context, else "[Wiktionary]". */
  function Credit(context: string): string {
    var k := FirstContained(context, Surnames);
    if k.Some? then Credits[k.value] else WiktionaryCredit
  }

  /** Proof step of CreditMeaning: no credit can be mistaken for "[Wiktionary]" or the placeholder. */
  lemma {:induction false} CreditsStartCyrillic()
    ensures forall k :: 0 <= k < |Credits| ==> |Credits[k]| > 0 && Credits[k][0] != '['
  {
  }

  /** The credit is "[Wiktionary]" exactly when none of the six surnames occurs in the context; otherwise it
      is the credit of the first surname, in the fixed order, that occurs there; and it is never the
      placeholder. */
  lemma {:induction false} CreditMeaning(context: string)
    ensures Credit(context) == WiktionaryCredit <==> forall j :: 0 <= j < |Surnames| ==> !Contains(context, Surnames[j])
    ensures Credit(context) != WiktionaryCredit ==>
      exists k :: 0 <= k < |Surnames| && Credit(context) == Credits[k] && Contains(context, Surnames[k]) &&
        (forall j :: 0 <= j < k ==> !Contains(context, Surnames[j]))
    ensures Credit(context) != Placeholder
  {
    CreditsStartCyrillic();
    assert WiktionaryCredit[1] != Placeholder[1];
    var k := FirstContained(context, Surnames);
    if k.Some? {
      assert Credit(context)[0] != WiktionaryCredit[0];
    }
  }

  // ---------------------------------------------------------------------------
  // create_example_from_etymology
  // ---------------------------------------------------------------------------

  /** The example taken from the etymology: nothing for an absent, `null` or empty etymology or when no quote
      is long enough; otherwise the chosen quote followed by the credit in parentheses. */
  function ExampleFromEtymology(etymology: Field): (ex: Option<string>)
    ensures ex.Some? ==> |ex.value| > 0
  {
    if !Truthy(etymology) then None
    else
      var e := etymology.value;
      var q := ChosenQuote(e);
      if q.None? then None else Some(q.value + " (" + Credit(Window(e, q.value)) + ")")
  }

  /** There is no example from the etymology exactly when the etymology is absent, `null` or empty, or when no
      quote of either style has more than three words. */
  lemma {:induction false} NoExampleFromEtymology(etymology: Field)
    ensures ExampleFromEtymology(etymology).None? <==>
      !Truthy(etymology) ||
      ((forall k :: 0 <= k < |GuillemetQuotes(etymology.value)| ==> !Long(GuillemetQuotes(etymology.value)[k])) &&
       (forall k :: 0 <= k < |DoubleQuotes(etymology.value)| ==> !Long(DoubleQuotes(etymology.value)[k])))
  {
  }

  /** An example from the etymology is a quote of the etymology with more than three words, then " (", the
      credit found in the window around the quote, and ")". */
  lemma {:induction false} ExampleFromEtymologyShape(etymology: Field)
    requires ExampleFromEtymology(etymology).Some?
    ensures exists q ::
      && Long(q) && Contains(etymology.value, q)
      && ExampleFromEtymology(etymology).value == q + " (" + Credit(Window(etymology.value, q)) + ")"
      && Contains(Window(etymology.value, q), q)
  {
    var q := ChosenQuote(etymology.value).value;
    WindowAroundQuote(etymology.value, q);
  }

  /** The quotes of style k, in the order the patterns are tried. */
  function QuotesOfStyle(e: string, k: nat): seq<string> {
    if k == 0 then GuillemetQuotes(e) else DoubleQuotes(e)
  }

  /** The first long quote of the style being scanned is the chosen one, once the earlier style had none. */
  lemma {:induction false} ChosenAt(e: string, k: nat, m: nat)
    requires k < 2 && FirstLong(QuotesOfStyle(e, k)) == Some(m)
    requires k == 1 ==> FirstLong(GuillemetQuotes(e)).None?
    ensures m < |QuotesOfStyle(e, k)| && ChosenQuote(e) == Some(QuotesOfStyle(e, k)[m])
  {
  }

  /** With a chosen quote the example is that quote and its credit. */
  lemma {:induction false} ExampleFromChosen(etymology: Field, q: string)
    requires Truthy(etymology) && ChosenQuote(etymology.value) == Some(q)
    ensures ExampleFromEtymology(etymology) == Some(q + " (" + Credit(Window(etymology.value, q)) + ")")
  {
  }

  /** Without a long quote of either style there is no example. */
  lemma {:induction false} ExampleWithoutLong(etymology: Field)
    requires Truthy(etymology)
    requires FirstLong(GuillemetQuotes(etymology.value)).None? && FirstLong(DoubleQuotes(etymology.value)).None?
    ensures ExampleFromEtymology(etymology).None?
  {
  }

  /** `create_example_from_etymology`: the two quote styles in order, the matches of each in order, and the
      first match of more than three words returns at once with its credit. */
  method CreateExampleFromEtymology(r: Record) returns (ex: Option<string>)
    ensures ex == ExampleFromEtymology(r.etymology)
  {
    var etymology := GetOr(r.etymology, "");
    if etymology.None? || etymology.value == "" {
      return None;
    }
    var e := etymology.value;
    var patterns := [(OpenGuillemet, CloseGuillemet), (DoubleQuote, DoubleQuote)];
    for k := 0 to |patterns|
      invariant k >= 1 ==> FirstLong(GuillemetQuotes(e)).None?
      invariant k >= 2 ==> FirstLong(DoubleQuotes(e)).None?
    {
      var matches := FindQuotes(e, patterns[k].0, patterns[k].1);
      assert matches == QuotesOfStyle(e, k);
      if matches != [] {
        var words := WordCounts(matches);
        for m := 0 to |matches|
          invariant FirstAbove(words, 3).None? || FirstAbove(words, 3).value >= m
        {
          var quote := matches[m];
          if words[m] > 3 {
            var author := Credit(Window(e, quote));
            FirstAboveFound(words, 3, m);
            ChosenAt(e, k, m);
            ExampleFromChosen(r.etymology, quote);
            return Some(quote + " (" + author + ")");
          }
          FirstAbovePassed(words, 3, m);
        }
      }
    }
    ExampleWithoutLong(r.etymology);
    return None;
  }

  // ---------------------------------------------------------------------------
  // search_wiktionary_examples
  // ---------------------------------------------------------------------------

  /** The Wiktionary lookup is a stub that never finds anything. */
  function SearchWiktionaryExamples(phrase: string): (ex: Option<string>)
    ensures ex.None?
  {
    None
  }

  // ---------------------------------------------------------------------------
  // generate_contextual_example
  // ---------------------------------------------------------------------------

  /** An index into the pool of ten authors. */
  type AuthorIndex = i: nat | i < 10

  /** The pool of authors: Pushkin, Tolstoy, Chekhov, Gogol, Dostoevsky, Turgenev, Lermontov, Krylov,
      Saltykov-Shchedrin, Bunin. */
  const Authors: seq<string> := [
    "\U{41F}\U{443}\U{448}\U{43A}\U{438}\U{43D} \U{410}.\U{421}.",
    "\U{422}\U{43E}\U{43B}\U{441}\U{442}\U{43E}\U{439} \U{41B}.\U{41D}.",
    "\U{427}\U{435}\U{445}\U{43E}\U{432} \U{410}.\U{41F}.",
    "\U{413}\U{43E}\U{433}\U{43E}\U{43B}\U{44C} \U{41D}.\U{412}.",
    "\U{414}\U{43E}\U{441}\U{442}\U{43E}\U{435}\U{432}\U{441}\U{43A}\U{438}\U{439} \U{424}.\U{41C}.",
    "\U{422}\U{443}\U{440}\U{433}\U{435}\U{43D}\U{435}\U{432} \U{418}.\U{421}.",
    "\U{41B}\U{435}\U{440}\U{43C}\U{43E}\U{43D}\U{442}\U{43E}\U{432} \U{41C}.\U{42E}.",
    "\U{41A}\U{440}\U{44B}\U{43B}\U{43E}\U{432} \U{418}.\U{410}.",
    "\U{421}\U{430}\U{43B}\U{442}\U{44B}\U{43A}\U{43E}\U{432}-\U{429}\U{435}\U{434}\U{440}\U{438}\U{43D} \U{41C}.\U{415}.",
    "\U{411}\U{443}\U{43D}\U{438}\U{43D} \U{418}.\U{410}."
  ]

  /** A keyword group with its sentence: the text before and after the phrase, and the author credited. */
  datatype Template = Template(keywords: seq<string>, before: string, after: string, author: AuthorIndex)

  /** The fourteen keyword groups, in the order they are tried (time, money, work, character, speech,
      knowledge, feelings, home, nature, war, travel, food, quarrels, joy and grief). */
  const Templates: seq<Template> := [
    Template(["\U{432}\U{440}\U{435}\U{43C}\U{44F}", "\U{434}\U{430}\U{432}\U{43D}\U{43E}", "\U{432}\U{435}\U{43A}", "\U{433}\U{43E}\U{434}"], "\U{41C}\U{44B} \U{43D}\U{435} \U{432}\U{441}\U{442}\U{440}\U{435}\U{447}\U{430}\U{43B}\U{438}\U{441}\U{44C} ", ", \U{438} \U{43C}\U{43D}\U{43E}\U{433}\U{43E}\U{435} \U{438}\U{437}\U{43C}\U{435}\U{43D}\U{438}\U{43B}\U{43E}\U{441}\U{44C} \U{432} " + "\U{43D}\U{430}\U{448}\U{435}\U{439} \U{436}\U{438}\U{437}\U{43D}\U{438}. ", 0),
    Template(["\U{431}\U{435}\U{434}\U{43D}\U{44B}\U{439}", "\U{434}\U{435}\U{43D}\U{44C}\U{433}\U{438}", "\U{431}\U{43E}\U{433}\U{430}\U{442}\U{44B}\U{439}", "\U{431}\U{435}\U{434}\U{43D}\U{43E}\U{441}\U{442}\U{44C}"], "\U{41F}\U{43E}\U{441}\U{43B}\U{435} \U{43D}\U{435}\U{443}\U{434}\U{430}\U{447}\U{43D}\U{43E}\U{433}\U{43E} \U{432}\U{43B}\U{43E}\U{436}\U{435}\U{43D}\U{438}" + "\U{44F} \U{43E}\U{43D} \U{43E}\U{441}\U{442}\U{430}\U{43B}\U{441}\U{44F} ", " \U{438} \U{431}\U{44B}\U{43B} \U{432}\U{44B}\U{43D}\U{443}\U{436}\U{434}\U{435}\U{43D} \U{43F}\U{440}\U{43E}\U{441}\U{438}\U{442}\U{44C} " + "\U{43C}\U{438}\U{43B}\U{43E}\U{441}\U{442}\U{44B}\U{43D}\U{44E}. ", 1),
    Template(["\U{442}\U{440}\U{443}\U{434}", "\U{440}\U{430}\U{431}\U{43E}\U{442}\U{430}", "\U{434}\U{435}\U{43B}\U{43E}", "\U{437}\U{430}\U{43D}\U{44F}\U{442}\U{438}\U{435}"], "\U{41A}\U{43E}\U{43C}\U{430}\U{43D}\U{434}\U{430} ", " \U{432}\U{441}\U{44E} \U{43D}\U{43E}\U{447}\U{44C}, \U{447}\U{442}\U{43E}\U{431}\U{44B} \U{443}\U{441}\U{43F}\U{435}\U{442}\U{44C} " + "\U{43A} \U{441}\U{440}\U{43E}\U{43A}\U{443} \U{441}\U{434}\U{430}\U{447}\U{438} \U{43F}\U{440}\U{43E}\U{435}\U{43A}\U{442}\U{430}. ", 2),
    Template(["\U{445}\U{430}\U{440}\U{430}\U{43A}\U{442}\U{435}\U{440}", "\U{43F}\U{43E}\U{432}\U{435}\U{434}\U{435}\U{43D}\U{438}\U{435}", "\U{447}\U{435}\U{43B}\U{43E}\U{432}\U{435}\U{43A}", "\U{43B}\U{44E}\U{434}\U{438}"], "\U{415}\U{433}\U{43E} \U{43F}\U{43E}\U{441}\U{442}\U{43E}\U{44F}\U{43D}\U{43D}\U{43E} ", " \U{440}\U{430}\U{437}\U{434}\U{440}\U{430}\U{436}\U{430}\U{43B}\U{43E} \U{43A}\U{43E}\U{43B}\U{43B}\U{435}\U{433}, \U{43D}\U{43E} \U{43D}" + "\U{430}\U{447}\U{430}\U{43B}\U{44C}\U{43D}\U{438}\U{43A} \U{446}\U{435}\U{43D}\U{438}\U{43B} \U{435}\U{433}\U{43E} \U{43F}\U{440}\U{43E}\U{444}\U{435}" + "\U{441}\U{441}\U{438}\U{43E}\U{43D}\U{430}\U{43B}\U{438}\U{437}\U{43C}. ", 3),
    Template(["\U{433}\U{43E}\U{432}\U{43E}\U{440}\U{438}\U{442}\U{44C}", "\U{440}\U{435}\U{447}\U{44C}", "\U{441}\U{43B}\U{43E}\U{432}\U{43E}", "\U{43C}\U{43E}\U{43B}\U{447}\U{430}\U{442}\U{44C}"], "\U{41E}\U{43D} \U{43F}\U{440}\U{435}\U{434}\U{43F}\U{43E}\U{447}\U{438}\U{442}\U{430}\U{43B} ", ", \U{43A}\U{43E}\U{433}\U{434}\U{430} \U{43E}\U{431}\U{441}\U{443}\U{436}\U{434}\U{430}\U{43B}\U{438} \U{434}\U{435}\U{43B}\U{438}\U{43A}\U{430}" + "\U{442}\U{43D}\U{44B}\U{435} \U{432}\U{43E}\U{43F}\U{440}\U{43E}\U{441}\U{44B}. ", 4),
    Template(["\U{437}\U{43D}\U{430}\U{43D}\U{438}\U{435}", "\U{443}\U{447}\U{438}\U{442}\U{44C}\U{441}\U{44F}", "\U{443}\U{43C}", "\U{433}\U{43B}\U{443}\U{43F}\U{44B}\U{439}"], "\U{427}\U{442}\U{43E}\U{431}\U{44B} \U{441}\U{434}\U{430}\U{442}\U{44C} \U{44D}\U{43A}\U{437}\U{430}\U{43C}\U{435}\U{43D}, \U{441}\U{442}\U{443}" + "\U{434}\U{435}\U{43D}\U{442}\U{443} \U{43F}\U{440}\U{438}\U{448}\U{43B}\U{43E}\U{441}\U{44C} ", " \U{43D}\U{435}\U{441}\U{43A}\U{43E}\U{43B}\U{44C}\U{43A}\U{43E} \U{43D}\U{435}\U{434}\U{435}\U{43B}\U{44C} \U{43F}\U{43E}\U{434}\U{440}\U{44F}\U{434}" + ". ", 5),
    Template(["\U{441}\U{435}\U{440}\U{434}\U{446}\U{435}", "\U{43B}\U{44E}\U{431}\U{43E}\U{432}\U{44C}", "\U{447}\U{443}\U{432}\U{441}\U{442}\U{432}\U{43E}", "\U{434}\U{443}\U{448}\U{430}"], "\U{41E}\U{43D}\U{430} ", " \U{438} \U{43D}\U{435} \U{43C}\U{43E}\U{433}\U{43B}\U{430} \U{434}\U{443}\U{43C}\U{430}\U{442}\U{44C} \U{43D}\U{438} \U{43E} " + "\U{447}\U{451}\U{43C} \U{434}\U{440}\U{443}\U{433}\U{43E}\U{43C}. ", 6),
    Template(["\U{434}\U{43E}\U{43C}", "\U{441}\U{435}\U{43C}\U{44C}\U{44F}", "\U{434}\U{435}\U{442}\U{438}", "\U{436}\U{438}\U{437}\U{43D}\U{44C}"], "\U{412} \U{438}\U{445} \U{441}\U{435}\U{43C}\U{44C}\U{435} ", " \U{441}\U{442}\U{430}\U{43B}\U{43E} \U{442}\U{440}\U{430}\U{434}\U{438}\U{446}\U{438}\U{435}\U{439}, \U{43A}\U{43E}\U{442}\U{43E}\U{440}\U{443}" + "\U{44E} \U{43F}\U{435}\U{440}\U{435}\U{434}\U{430}\U{432}\U{430}\U{43B}\U{438} \U{438}\U{437} \U{43F}\U{43E}\U{43A}\U{43E}\U{43B}\U{435}\U{43D}\U{438}" + "\U{44F} \U{432} \U{43F}\U{43E}\U{43A}\U{43E}\U{43B}\U{435}\U{43D}\U{438}\U{435}. ", 7),
    Template(["\U{432}\U{43E}\U{434}\U{430}", "\U{43E}\U{433}\U{43E}\U{43D}\U{44C}", "\U{437}\U{435}\U{43C}\U{43B}\U{44F}", "\U{43F}\U{440}\U{438}\U{440}\U{43E}\U{434}\U{430}"], "\U{41F}\U{43E}\U{441}\U{43B}\U{435} \U{433}\U{440}\U{43E}\U{437}\U{44B} \U{440}\U{435}\U{43A}\U{430} ", " \U{438} \U{432}\U{44B}\U{448}\U{43B}\U{430} \U{438}\U{437} \U{431}\U{435}\U{440}\U{435}\U{433}\U{43E}\U{432}, \U{437}\U{430}\U{442}" + "\U{43E}\U{43F}\U{438}\U{432} \U{43E}\U{43A}\U{440}\U{435}\U{441}\U{442}\U{43D}\U{44B}\U{435} \U{43F}\U{43E}\U{43B}\U{44F}. ", 8),
    Template(["\U{432}\U{43E}\U{439}\U{43D}\U{430}", "\U{431}\U{438}\U{442}\U{432}\U{430}", "\U{431}\U{43E}\U{440}\U{44C}\U{431}\U{430}", "\U{441}\U{440}\U{430}\U{436}\U{435}\U{43D}\U{438}\U{435}"], "\U{421}\U{43E}\U{43B}\U{434}\U{430}\U{442}\U{44B} ", " \U{434}\U{43E} \U{43F}\U{43E}\U{441}\U{43B}\U{435}\U{434}\U{43D}\U{435}\U{433}\U{43E} \U{43F}\U{430}\U{442}\U{440}\U{43E}\U{43D}\U{430}, " + "\U{437}\U{430}\U{449}\U{438}\U{449}\U{430}\U{44F} \U{440}\U{43E}\U{434}\U{43D}\U{443}\U{44E} \U{437}\U{435}\U{43C}\U{43B}\U{44E}. ", 9),
    Template(["\U{43F}\U{443}\U{442}\U{44C}", "\U{434}\U{43E}\U{440}\U{43E}\U{433}\U{430}", "\U{43F}\U{43E}\U{435}\U{437}\U{434}\U{43A}\U{430}", "\U{43F}\U{443}\U{442}\U{435}\U{448}\U{435}\U{441}\U{442}\U{432}\U{438}\U{435}"], "\U{41F}\U{443}\U{442}\U{435}\U{448}\U{435}\U{441}\U{442}\U{432}\U{435}\U{43D}\U{43D}\U{438}\U{43A}\U{438} ", " \U{447}\U{435}\U{440}\U{435}\U{437} \U{432}\U{441}\U{44E} \U{441}\U{442}\U{440}\U{430}\U{43D}\U{443} \U{432} \U{43F}\U{43E}\U{438}\U{441}" + "\U{43A}\U{430}\U{445} \U{43F}\U{440}\U{438}\U{43A}\U{43B}\U{44E}\U{447}\U{435}\U{43D}\U{438}\U{439}. ", 0),
    Template(["\U{435}\U{434}\U{430}", "\U{43F}\U{438}\U{442}\U{44C}", "\U{433}\U{43E}\U{43B}\U{43E}\U{434}", "\U{436}\U{430}\U{436}\U{434}\U{430}"], "\U{41F}\U{43E}\U{441}\U{43B}\U{435} \U{434}\U{43E}\U{43B}\U{433}\U{43E}\U{433}\U{43E} \U{43F}\U{435}\U{440}\U{435}\U{445}\U{43E}\U{434}\U{430} \U{43F}" + "\U{43E} \U{43F}\U{443}\U{441}\U{442}\U{44B}\U{43D}\U{435} \U{44D}\U{43A}\U{441}\U{43F}\U{435}\U{434}\U{438}\U{446}\U{438}\U{44F} ", " \U{438} \U{431}\U{44B}\U{43B}\U{430} \U{43D}\U{430} \U{433}\U{440}\U{430}\U{43D}\U{438} \U{432}\U{44B}\U{436}\U{438}\U{432}\U{430}\U{43D}" + "\U{438}\U{44F}. ", 1),
    Template(["\U{441}\U{43F}\U{43E}\U{440}", "\U{441}\U{441}\U{43E}\U{440}\U{430}", "\U{43A}\U{43E}\U{43D}\U{444}\U{43B}\U{438}\U{43A}\U{442}", "\U{440}\U{430}\U{437}\U{43D}\U{43E}\U{433}\U{43B}\U{430}\U{441}\U{438}\U{435}"], "\U{41A}\U{43E}\U{43B}\U{43B}\U{435}\U{433}\U{438} ", " \U{438}\U{437}-\U{437}\U{430} \U{440}\U{430}\U{437}\U{43D}\U{438}\U{446}\U{44B} \U{432}\U{43E} \U{432}\U{437}\U{433}\U{43B}\U{44F}\U{434}" + "\U{430}\U{445} \U{43D}\U{430} \U{440}\U{435}\U{448}\U{435}\U{43D}\U{438}\U{435} \U{43F}\U{440}\U{43E}\U{431}\U{43B}\U{435}\U{43C}\U{44B}. ", 2),
    Template(["\U{440}\U{430}\U{434}\U{43E}\U{441}\U{442}\U{44C}", "\U{441}\U{447}\U{430}\U{441}\U{442}\U{44C}\U{435}", "\U{433}\U{43E}\U{440}\U{435}", "\U{43F}\U{435}\U{447}\U{430}\U{43B}\U{44C}"], "\U{418}\U{437}\U{432}\U{435}\U{441}\U{442}\U{438}\U{435} \U{43E} \U{43F}\U{43E}\U{431}\U{435}\U{434}\U{435} ", " \U{43F}\U{43E} \U{432}\U{441}\U{435}\U{43C}\U{443} \U{433}\U{43E}\U{440}\U{43E}\U{434}\U{443}, \U{438} \U{432}\U{441}\U{435} " + "\U{432}\U{44B}\U{448}\U{43B}\U{438} \U{43D}\U{430} \U{443}\U{43B}\U{438}\U{446}\U{44B} \U{43F}\U{440}\U{430}\U{437}\U{434}\U{43D}\U{43E}\U{432}\U{430}" + "\U{442}\U{44C}. ", 3)
  ]

  /** The sentence used when no keyword group matches; its author is drawn at random. */
  const GenericBefore: string := "\U{412} \U{44D}\U{442}\U{43E}\U{439} \U{441}\U{438}\U{442}\U{443}\U{430}\U{446}\U{438}\U{438} \U{43E}\U{43D} "
  const GenericAfter: string := ", \U{447}\U{435}\U{43C} \U{432}\U{441}\U{435}\U{445} \U{443}\U{434}\U{438}\U{432}\U{438}\U{43B}. "

  /** The form of the phrase put into the sentence: unchanged after a leading conjunction, else lower-cased. */
  function ContextForm(phrase: string): string {
    if StartsWithConjunction(phrase) then phrase else LowerStr(phrase)
  }

  /** Some keyword of the group occurs in `m`. */
  predicate MentionsAny(m: string, words: seq<string>) {
    exists i :: 0 <= i < |words| && Contains(m, words[i])
  }

  /** The index of the first template whose keyword group is mentioned in `m`. */
  function FirstTemplate(m: string, ts: seq<Template>): (k: Option<nat>)
    ensures k.Some? ==>
      k.value < |ts| && MentionsAny(m, ts[k.value].keywords) &&
      (forall j :: 0 <= j < k.value ==> !MentionsAny(m, ts[j].keywords))
    ensures k.None? ==> forall j :: 0 <= j < |ts| ==> !MentionsAny(m, ts[j].keywords)
    decreases |ts|
  {
    if ts == [] then None
    else if MentionsAny(m, ts[0].keywords) then Some(0)
    else
      var r := FirstTemplate(m, ts[1..]);
      assert forall j :: 0 <= j < |ts[1..]| ==> ts[1..][j] == ts[j + 1];
      if r.Some? then Some(r.value + 1) else None
  }

  /** `generate_contextual_example`, with `choice` standing for the author `random.choice` would draw. */
  function ContextualExample(phrase: string, meaning: string, choice: AuthorIndex): string {
    var p := ContextForm(phrase);
    var k := FirstTemplate(LowerStr(meaning), Templates);
    if k.Some? then
      var t := Templates[k.value];
      t.before + p + t.after + Authors[t.author]
    else GenericBefore + p + GenericAfter + Authors[choice]
  }

  lemma {:induction false} ContainsMiddle(a: string, p: string, b: string)
    ensures Contains(a + p + b, p)
  {
    assert (a + p + b)[|a|..|a| + |p|] == p;
    assert OccursAt(a + p + b, p, |a|);
  }

  /** The sentence always contains the phrase: unchanged when it starts with a conjunction, lower-cased
      otherwise. */
  lemma {:induction false} ContextualContainsPhrase(phrase: string, meaning: string, choice: AuthorIndex)
    ensures StartsWithConjunction(phrase) ==> Contains(ContextualExample(phrase, meaning, choice), phrase)
    ensures !StartsWithConjunction(phrase) ==> Contains(ContextualExample(phrase, meaning, choice), LowerStr(phrase))
  {
    var p := ContextForm(phrase);
    var k := FirstTemplate(LowerStr(meaning), Templates);
    if k.Some? {
      var t := Templates[k.value];
      ContainsMiddle(t.before, p, t.after + Authors[t.author]);
      assert t.before + p + (t.after + Authors[t.author]) == t.before + p + t.after + Authors[t.author];
    } else {
      ContainsMiddle(GenericBefore, p, GenericAfter + Authors[choice]);
      assert GenericBefore + p + (GenericAfter + Authors[choice]) == GenericBefore + p + GenericAfter + Authors[choice];
    }
  }

  /** Proof step of ContextualFromTemplate and ContextualGeneric: a four-part sentence starts with its first
      part and ends with its last. */
  lemma {:induction false} Affixes(a: string, p: string, b: string, c: string)
    ensures StartsWith(a + p + b + c, a) && EndsWith(a + p + b + c, c)
  {
    var s := a + p + b + c;
    assert s == a + (p + b + c);
    assert s[..|a|] == a;
    assert s[|s| - |c|..] == c;
  }

  /** The first keyword group mentioned in the lower-cased meaning fixes the sentence: it starts with that
      group's opening words and ends with that group's author. */
  lemma {:induction false} ContextualFromTemplate(phrase: string, meaning: string, choice: AuthorIndex, k: nat)
    requires FirstTemplate(LowerStr(meaning), Templates) == Some(k)
    ensures StartsWith(ContextualExample(phrase, meaning, choice), Templates[k].before)
    ensures EndsWith(ContextualExample(phrase, meaning, choice), Authors[Templates[k].author])
  {
    var t := Templates[k];
    Affixes(t.before, ContextForm(phrase), t.after, Authors[t.author]);
  }

  /** When a keyword group matches, the random draw does not matter. */
  lemma {:induction false} ContextualIgnoresChoice(phrase: string, meaning: string, choice: AuthorIndex, other: AuthorIndex)
    requires FirstTemplate(LowerStr(meaning), Templates).Some?
    ensures ContextualExample(phrase, meaning, other) == ContextualExample(phrase, meaning, choice)
  {
  }

  /** When no keyword group matches, the generic sentence is used and ends with the drawn author. */
  lemma {:induction false} ContextualGeneric(phrase: string, meaning: string, choice: AuthorIndex)
    requires FirstTemplate(LowerStr(meaning), Templates).None?
    ensures ContextualExample(phrase, meaning, choice) == GenericBefore + ContextForm(phrase) + GenericAfter + Authors[choice]
    ensures EndsWith(ContextualExample(phrase, meaning, choice), Authors[choice])
  {
    Affixes(GenericBefore, ContextForm(phrase), GenericAfter, Authors[choice]);
  }

  /** Keywords are matched against `meaning.lower()`, so the case of the meaning does not matter. */
  lemma {:induction false} ContextualIgnoresCase(phrase: string, meaning: string, choice: AuthorIndex)
    ensures ContextualExample(phrase, LowerStr(meaning), choice) == ContextualExample(phrase, meaning, choice)
  {
    LowerStrIdempotent(meaning);
  }

  // ---------------------------------------------------------------------------
  // find_example_for_phrase
  // ---------------------------------------------------------------------------

  /** `if example:` on an optional string. */
  predicate Found(ex: Option<string>) {
    ex.Some? && ex.value != ""
  }

  /** `find_example_for_phrase`: the etymology example, else the Wiktionary stub, else the contextual example
      for the first meaning (`get('meanings', [''])[0]`, an IndexError for an empty list). */
  function FindExampleForPhrase(r: Record, choice: AuthorIndex): Result<string> {
    var ex := ExampleFromEtymology(r.etymology);
    if Found(ex) then Ok(ex.value)
    else
      var wiki := SearchWiktionaryExamples(r.phrase);
      if Found(wiki) then Ok(wiki.value)
      else if r.meanings == Some([]) then Failure(IndexError)
      else
        var meaning := if r.meanings.Some? then r.meanings.value[0] else "";
        Ok(ContextualExample(r.phrase, meaning, choice))
  }

  lemma {:induction false} ContextualNonEmpty(phrase: string, meaning: string, choice: AuthorIndex)
    ensures |ContextualExample(phrase, meaning, choice)| > 0
  {
    var k := FirstTemplate(LowerStr(meaning), Templates);
    if k.Some? {
      assert |Authors[Templates[k.value].author]| > 0;
    } else {
      assert |GenericBefore| > 0;
    }
  }

  /** The etymology example is preferred; without one the contextual example for the first meaning is used,
      so the lookup fails (with an IndexError) only for an empty meanings list, and never yields "". */
  lemma {:induction false} FindExampleOutcome(r: Record, choice: AuthorIndex)
    ensures var ex := FindExampleForPhrase(r, choice);
      && (ex.Failure? <==> ExampleFromEtymology(r.etymology).None? && r.meanings == Some([]))
      && (ex.Failure? ==> ex.error == IndexError)
      && (ex.Ok? ==> ex.value != "")
      && (ExampleFromEtymology(r.etymology).Some? ==> ex == Ok(ExampleFromEtymology(r.etymology).value))
      && (ExampleFromEtymology(r.etymology).None? && r.meanings.None? ==> ex == Ok(ContextualExample(r.phrase, "", choice)))
      && (ExampleFromEtymology(r.etymology).None? && r.meanings.Some? && r.meanings.value != [] ==>
            ex == Ok(ContextualExample(r.phrase, r.meanings.value[0], choice)))
  {
    if r.meanings.Some? && r.meanings.value != [] {
      ContextualNonEmpty(r.phrase, r.meanings.value[0], choice);
    } else {
      ContextualNonEmpty(r.phrase, "", choice);
    }
  }

  // ---------------------------------------------------------------------------
  // The fill loop of main
  // ---------------------------------------------------------------------------

  /** One step of the loop, given what `find_example_for_phrase` returns for the record: a record with an
      example is kept without a lookup; any other gets the example found, or is kept when the example found is
      empty; a failed lookup stops the script. */
  function FillStep(r: Record, found: Result<string>): Result<Record> {
    if Truthy(r.usageExample) then Ok(r)
    else if found.Failure? then Failure(found.error)
    else if found.value != "" then Ok(r.(usageExample := Has(found.value)))
    else Ok(r)
  }

  /** A step fails only on a record without an example whose lookup fails, with the lookup's error; keeps a
      record that has an example; and changes nothing but the usage example, which it sets to any non-empty
      example found. */
  lemma {:induction false} FillStepOutcome(r: Record, found: Result<string>)
    ensures FillStep(r, found).Failure? <==> !Truthy(r.usageExample) && found.Failure?
    ensures FillStep(r, found).Failure? ==> FillStep(r, found).error == found.error
    ensures Truthy(r.usageExample) ==> FillStep(r, found) == Ok(r)
    ensures !Truthy(r.usageExample) && found.Ok? && found.value != "" ==>
      FillStep(r, found) == Ok(r.(usageExample := Has(found.value)))
    ensures FillStep(r, found).Ok? ==> FillStep(r, found).value == r.(usageExample := FillStep(r, found).value.usageExample)
  {
  }

  /** The loop over the records, given the lookup result of each: the filled records, or the error of the
      first failing step. */
  function FillRecords(phrases: seq<Record>, found: seq<Result<string>>): Result<seq<Record>>
    requires |found| == |phrases|
    decreases |phrases|
  {
    if phrases == [] then Ok([])
    else
      var n := |phrases|;
      var init := FillRecords(phrases[..n - 1], found[..n - 1]);
      if init.Failure? then init
      else
        var last := FillStep(phrases[n - 1], found[n - 1]);
        if last.Failure? then Failure(last.error) else Ok(init.value + [last.value])
  }

  /** The loop succeeds exactly when every step does, and then record i is what its step made of it. */
  lemma {:induction false} FillRecordsElementwise(phrases: seq<Record>, found: seq<Result<string>>)
    requires |found| == |phrases|
    ensures FillRecords(phrases, found).Ok? <==> forall i :: 0 <= i < |phrases| ==> FillStep(phrases[i], found[i]).Ok?
    ensures FillRecords(phrases, found).Ok? ==>
      |FillRecords(phrases, found).value| == |phrases| &&
      (forall i :: 0 <= i < |phrases| ==> FillRecords(phrases, found).value[i] == FillStep(phrases[i], found[i]).value)
    decreases |phrases|
  {
    if phrases != [] {
      var n := |phrases|;
      var init, fs := phrases[..n - 1], found[..n - 1];
      FillRecordsElementwise(init, fs);
      assert forall i :: 0 <= i < n - 1 ==> init[i] == phrases[i] && fs[i] == found[i];
      if FillRecords(phrases, found).Ok? {
        var out := FillRecords(phrases, found).value;
        assert out == FillRecords(init, fs).value + [FillStep(phrases[n - 1], found[n - 1]).value];
      }
    }
  }

  /** A failed loop fails with the error of some failing step. */
  lemma {:induction false} FillRecordsError(phrases: seq<Record>, found: seq<Result<string>>)
    requires |found| == |phrases| && FillRecords(phrases, found).Failure?
    ensures exists i :: 0 <= i < |phrases| && FillStep(phrases[i], found[i]) == Failure(FillRecords(phrases, found).error)
    decreases |phrases|
  {
    var n := |phrases|;
    var init, fs := phrases[..n - 1], found[..n - 1];
    if FillRecords(init, fs).Failure? {
      FillRecordsError(init, fs);
      var i :| 0 <= i < |init| && FillStep(init[i], fs[i]) == Failure(FillRecords(init, fs).error);
      assert init[i] == phrases[i] && fs[i] == found[i];
    } else {
      assert FillStep(phrases[n - 1], found[n - 1]) == Failure(FillRecords(phrases, found).error);
    }
  }

  lemma {:induction false} FillRecordsStep(phrases: seq<Record>, found: seq<Result<string>>, i: nat)
    requires |found| == |phrases| && i < |phrases|
    requires FillRecords(phrases[..i], found[..i]).Ok? && FillStep(phrases[i], found[i]).Ok?
    ensures FillRecords(phrases[..i + 1], found[..i + 1]) ==
      Ok(FillRecords(phrases[..i], found[..i]).value + [FillStep(phrases[i], found[i]).value])
  {
    assert phrases[..i + 1][..i] == phrases[..i];
    assert found[..i + 1][..i] == found[..i];
  }

  /** What `find_example_for_phrase` returns for each record. */
  function Lookups(phrases: seq<Record>, choices: seq<AuthorIndex>): (found: seq<Result<string>>)
    requires |choices| == |phrases|
    ensures |found| == |phrases|
  {
    seq(|phrases|, i requires 0 <= i < |phrases| => FindExampleForPhrase(phrases[i], choices[i]))
  }

  /** The records after the loop of `main`, or the error of the first record whose lookup fails;
      `choices[i]` stands for the author the random draw would give record i. */
  function FillAll(phrases: seq<Record>, choices: seq<AuthorIndex>): Result<seq<Record>>
    requires |choices| == |phrases|
  {
    FillRecords(phrases, Lookups(phrases, choices))
  }

  /** A record the loop cannot fill: no example yet, none from the etymology, and an empty meanings list. */
  predicate Unfillable(r: Record) {
    !Truthy(r.usageExample) && ExampleFromEtymology(r.etymology).None? && r.meanings == Some([])
  }

  /** The loop succeeds exactly when no record is unfillable, and the only error it raises is an IndexError. */
  lemma {:induction false} FillAllSucceeds(phrases: seq<Record>, choices: seq<AuthorIndex>)
    requires |choices| == |phrases|
    ensures FillAll(phrases, choices).Ok? <==> forall i :: 0 <= i < |phrases| ==> !Unfillable(phrases[i])
    ensures FillAll(phrases, choices).Failure? ==> FillAll(phrases, choices).error == IndexError
  {
    var found := Lookups(phrases, choices);
    FillRecordsElementwise(phrases, found);
    forall i | 0 <= i < |phrases|
      ensures FillStep(phrases[i], found[i]).Failure? <==> Unfillable(phrases[i])
      ensures FillStep(phrases[i], found[i]).Failure? ==> FillStep(phrases[i], found[i]).error == IndexError
    {
      FindExampleOutcome(phrases[i], choices[i]);
      FillStepOutcome(phrases[i], found[i]);
    }
    if FillAll(phrases, choices).Failure? {
      FillRecordsError(phrases, found);
    }
  }

  /** After a successful loop every record has an example, records that had one are unchanged, and nothing
      but the usage example ever changes. */
  lemma {:induction false} FillAllResult(phrases: seq<Record>, choices: seq<AuthorIndex>)
    requires |choices| == |phrases| && FillAll(phrases, choices).Ok?
    ensures var out := FillAll(phrases, choices).value;
      && |out| == |phrases|
      && (forall i :: 0 <= i < |phrases| ==> Truthy(out[i].usageExample))
      && (forall i :: 0 <= i < |phrases| ==> Truthy(phrases[i].usageExample) ==> out[i] == phrases[i])
      && (forall i :: 0 <= i < |phrases| ==> out[i] == phrases[i].(usageExample := out[i].usageExample))
  {
    var found := Lookups(phrases, choices);
    FillRecordsElementwise(phrases, found);
    forall i | 0 <= i < |phrases|
      ensures FillStep(phrases[i], found[i]).Ok? ==> Truthy(FillStep(phrases[i], found[i]).value.usageExample)
    {
      FindExampleOutcome(phrases[i], choices[i]);
      FillStepOutcome(phrases[i], found[i]);
    }
    forall i | 0 <= i < |phrases| {
      FillStepOutcome(phrases[i], found[i]);
    }
  }

  /** After a successful loop every record has an example: `with_examples == total_phrases` and
      `without_examples == 0`. */
  lemma {:induction false} FillAllComplete(phrases: seq<Record>, choices: seq<AuthorIndex>)
    requires |choices| == |phrases| && FillAll(phrases, choices).Ok?
    ensures WithExamples(FillAll(phrases, choices).value) == |phrases|
  {
    FillAllResult(phrases, choices);
    WithExamplesBounds(FillAll(phrases, choices).value);
  }

  /** The metadata saved with the records (the timestamp is left out). */
  datatype FillMetadata = FillMetadata(totalPhrases: nat, withExamples: nat, withoutExamples: int)

  /** The body of the loop of `main` for one record: a record with an example is counted and kept; any other
      is looked up, and gets the example found when it is not empty, which is then counted too. */
  method FillOne(p: Record, choice: AuthorIndex) returns (res: Result<Record>, counted: bool)
    ensures res == FillStep(p, FindExampleForPhrase(p, choice))
    ensures res.Ok? ==> (counted <==> Truthy(res.value.usageExample))
  {
    if p.usageExample.Has? && p.usageExample.value != "" {
      return Ok(p), true;
    }
    var example := FindExampleForPhrase(p, choice);
    if example.Failure? {
      return Failure(example.error), false;
    }
    if example.value != "" {
      return Ok(p.(usageExample := Has(example.value))), true;
    }
    return Ok(p), false;
  }

  /** A failing step fails with an IndexError and makes the whole loop fail with it. */
  lemma {:induction false} FillAllStops(phrases: seq<Record>, choices: seq<AuthorIndex>, i: nat)
    requires |choices| == |phrases| && i < |phrases|
    requires FillStep(phrases[i], FindExampleForPhrase(phrases[i], choices[i])).Failure?
    ensures FillAll(phrases, choices).Failure? && FillAll(phrases, choices).error == IndexError
    ensures FillStep(phrases[i], FindExampleForPhrase(phrases[i], choices[i])).error == IndexError
  {
    FillStepOutcome(phrases[i], FindExampleForPhrase(phrases[i], choices[i]));
    FindExampleOutcome(phrases[i], choices[i]);
    FillAllSucceeds(phrases, choices);
  }

  /** The loop of `main`: each record without an example gets the one found for it, in place, and the
      counter of records with an example follows. */
  method FillUsageExamples(phrases: array<Record>, choices: seq<AuthorIndex>) returns (r: Result<FillMetadata>)
    requires |choices| == phrases.Length
    modifies phrases
    ensures r.Ok? <==> FillAll(old(phrases[..]), choices).Ok?
    ensures r.Failure? ==> r.error == IndexError
    ensures r.Ok? ==>
      phrases[..] == FillAll(old(phrases[..]), choices).value &&
      r.value == FillMetadata(phrases.Length, WithExamples(phrases[..]), phrases.Length - WithExamples(phrases[..]))
  {
    ghost var original := phrases[..];
    ghost var found := Lookups(original, choices);
    ghost var done: seq<Record> := [];
    var total := phrases.Length;
    var withExamples := 0;
    var i := 0;
    while i < total
      invariant 0 <= i <= total && |done| == i
      invariant FillRecords(original[..i], found[..i]) == Ok(done)
      invariant phrases[..] == done + original[i..]
      invariant withExamples == WithExamples(done)
    {
      SpliceAt(done, original, i);
      var res, counted := FillOne(phrases[i], choices[i]);
      if res.Failure? {
        FillAllStops(original, choices, i);
        return Failure(res.error);
      }
      phrases[i] := res.value;
      if counted {
        withExamples := withExamples + 1;
      }
      FillRecordsStep(original, found, i);
      WithExamplesAppend(done, res.value);
      done := done + [res.value];
      i := i + 1;
    }
    assert original[..i] == original && found[..i] == found;
    assert phrases[..] == done;
    r := Ok(FillMetadata(total, withExamples, total - withExamples));
  }

  // ---------------------------------------------------------------------------
  // generate_sql_dump of fill_usage_examples.py
  // ---------------------------------------------------------------------------

  const FillSubtitle: string := "-- Generated from table_phrases_cleaned.json" + " with filled usage examples"

  /** The three comment lines, with the record count. */
  function FillCommentLines(n: nat): (c: seq<string>)
    ensures |c| == 3
  {
    [DumpTitle, FillSubtitle, TotalPrefix + Decimal(n)]
  }

  function FillHeaderLines(n: nat): (h: seq<string>)
    ensures |h| == 26
  {
    FillCommentLines(n) + SchemaLines
  }

  /** The dump written to phraseological_dict_with_examples.sql: the same INSERT lines and footer as
      generate_final_sql.py under a shorter header. */
  function FillDump(phrases: seq<Record>): string {
    Join("\n", FillHeaderLines(|phrases|) + FinalInserts(phrases) + FinalFooterLines)
  }

  /** `generate_sql_dump`, over the records as saved. */
  method FillSqlDump(phrases: seq<Record>) returns (content: string)
    ensures content == FillDump(phrases)
  {
    var header := FillHeaderLines(|phrases|);
    var inserts := FinalInsertLoop(phrases);
    content := Join("\n", header + inserts + FinalFooterLines);
  }

  /** The dump's lines: LOCK TABLES on line 25, row i + 1 on line 26 + i with ids 1..N in input order, and
      UNLOCK TABLES after the blank line that follows the last row. */
  lemma {:induction false} FillDumpRows(phrases: seq<Record>)
    ensures var lines := FillHeaderLines(|phrases|) + FinalInserts(phrases) + FinalFooterLines;
      |lines| == |phrases| + 30 &&
      (forall i :: 0 <= i < |phrases| ==> lines[26 + i] == FinalInsertFor(i + 1, phrases[i])) &&
      lines[|phrases| + 27] == "UNLOCK TABLES;"
  {
    var h, ins := FillHeaderLines(|phrases|), FinalInserts(phrases);
    forall i | 0 <= i < |phrases|
      ensures (h + ins + FinalFooterLines)[26 + i] == FinalInsertFor(i + 1, phrases[i])
    {
      MiddleAt(h, ins, FinalFooterLines, i);
      assert ins[i] == FinalInsertFor(i + 1, phrases[i]);
    }
    AfterMiddle(h, ins, FinalFooterLines, 1);
  }

  lemma {:induction false} FillHeaderEnds(n: nat)
    ensures FillHeaderLines(n)[25] == "LOCK TABLES " + TableName + " WRITE;"
  {
    assert FillHeaderLines(n)[25] == SchemaLines[22];
  }
}
