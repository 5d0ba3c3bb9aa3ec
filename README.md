# frazes — a verified model of the phrase-dictionary pipeline

The frazes repository builds a MySQL dictionary of Russian phraseological units from a JSON list of phrase
records. Its scripts run one after another:

- `deduplicate_phrases.py` groups records whose phrases agree up to case and whitespace. It merges each group
  into one record.
- `fill_usage_examples.py` gives every record without a usage example one. The example is a quote from the
  etymology, or else a sentence built from a keyword template for the first meaning. It also writes a MySQL dump.
- `improve_examples.py` touches up the grammar of the examples.
- `create_mysql_db.py` and `generate_final_sql.py` write MySQL dumps: a fixed table definition, then one
  `INSERT` per record.
- `validate_sql.py` checks a dump for five fixed patterns and a fixed number of `INSERT` statements.

The model works on in-memory records (`Records.Record`). A JSON key can be absent, `null` or a string, and the
scripts tell these apart, so the string-valued keys are `Field = Missing | Null | Has(s)`. Python's `str`
operations are modelled in `PyStr`: `strip`, `split`, `join`, `replace`, `in`, `find`, `count` and `lower`.
The scripts' loops that change state become methods. Each method is proved equal to a specification function,
and the properties are proved about those functions:

- `merge_duplicate_entries`, `group_phrases` and the counting loops work on sequences and maps.
- The two loops that update records in place (`main` of `fill_usage_examples.py` and of
  `improve_examples.py`) work on an `array<Record>`.

A Python exception that depends on the data becomes the `Failure` case of a `Result`:

- `KeyError('meanings')` in `create_mysql_db.py`;
- `IndexError` for an empty `meanings` list in `find_example_for_phrase`.

How MySQL reads a quoted literal is modelled as `SqlLiteral.ReadLiteral`, following section 11.1.1 "String
Literals" of the MySQL 8.0 Reference Manual: a backslash escapes the next character and `''` stands for a
quote. The dumps are checked against this reader.

Three details of the scripts that the model keeps as written:

- Only `create_mysql_db.py` escapes backslashes before quotes. `generate_final_sql.py` and the `escape_sql`
  nested in `fill_usage_examples.py` escape quotes first (see Findings).
- Those two scripts write an absent etymology, category or source URL as `''`, not `NULL`. Only a JSON `null`
  becomes `NULL`.
- `create_mysql_db.py` writes a present empty etymology or source URL as `''`. Only an empty category becomes
  `NULL` there.

## Model

| member | source | states |
|---|---|---|
| Deduplicate.NormalizePhrase | deduplicate_phrases.py:14-16 | Computes the grouping key: the phrase lower-cased, stripped, split on whitespace and joined by single spaces. |
| Deduplicate.NormalizePhraseIdempotent | deduplicate_phrases.py:14-16 | A normalized key has no leading or trailing whitespace and no two adjacent spaces. Normalizing it again changes nothing. |
| Deduplicate.MergedPhraseKey | deduplicate_phrases.py:23 | The merged phrase is collapsed. It normalizes to the same key as the first entry's phrase, though its case is kept. |
| Deduplicate.CleanedProperties | deduplicate_phrases.py:26-33 | The seen-set loop keeps values that are non-empty, stripped and pairwise distinct. A value is kept iff some raw value strips to it. Values are kept in the order they are first met. |
| Deduplicate.AddCleaned | deduplicate_phrases.py:30-33 | One step of the loop extends the cleaned list by the new value's stripped form if that form is new and non-empty. The `seen` set stays the set of kept values. |
| Deduplicate.MergeMeanings | deduplicate_phrases.py:25-34 | The nested loop over entries and meanings yields the cleaned list of all entries' meanings, in entry order. |
| Deduplicate.MergedMeanings | deduplicate_phrases.py:25-34 | Merged meanings are non-empty, stripped and distinct. They are exactly the stripped non-empty meanings of all entries. |
| Deduplicate.MergeEtymology | deduplicate_phrases.py:36-42 | The loop with `break` returns the first non-empty stripped etymology in entry order, else "". |
| Deduplicate.FirstEtymologyEmpty | deduplicate_phrases.py:37-42 | The merged etymology is "" exactly when every entry's stripped etymology is empty. |
| Deduplicate.FirstEtymologyWitness | deduplicate_phrases.py:38-42 | A non-empty merged etymology is entry k's stripped etymology, and every earlier entry's is empty. |
| Deduplicate.MergeCategories | deduplicate_phrases.py:44-57 | The category is the cleaned categories joined by ", ". The three branches (several, one, none) agree with that join. |
| Deduplicate.MergedCategory | deduplicate_phrases.py:44-57 | The merged category is "" with no categories, the single value with one, and the distinct non-empty stripped categories in first-seen order otherwise. |
| Deduplicate.MergeSourceUrls | deduplicate_phrases.py:59-72 | The loop keeps the distinct non-empty stripped URLs in first-seen order and joins them with the pipe separator; its three branches agree with that join. |
| Deduplicate.MergedSourceUrl | deduplicate_phrases.py:59-72 | The merged source URL is the distinct non-empty stripped URLs in first-seen order, joined by the pipe separator (space, vertical bar, space). |
| Deduplicate.Merged | deduplicate_phrases.py:19-74 | Computes the merged record of a non-empty group: the first entry's collapsed phrase, the cleaned meanings, the first non-empty etymology, the cleaned categories joined by ", ", the cleaned URLs joined by the pipe separator, and the first entry's example and other keys. |
| Deduplicate.MergeDuplicateEntries | deduplicate_phrases.py:19-74 | For a non-empty group, builds the merged record. Every other key and the usage example are copied from the first entry. The phrase keeps the first entry's key. |
| SeqUtil.DistinctFirstSeenOrder | deduplicate_phrases.py:84-86 | `order` lists keys by their first occurrence. |
| SeqUtil.DistinctNoDuplicates | deduplicate_phrases.py:84-86 | `order` has no duplicates. |
| SeqUtil.DistinctElements | deduplicate_phrases.py:84-86 | `order` holds exactly the keys met in the input. |
| Deduplicate.AddToGroup | deduplicate_phrases.py:83-87 | One step appends the entry to its key's group. It creates the group and extends `order` for a new key. |
| Deduplicate.GroupPhrases | deduplicate_phrases.py:77-89 | `order` is the distinct keys in first-seen order. `groups` maps each key met to the entries with that key. |
| Deduplicate.GroupPhrasesProperties | deduplicate_phrases.py:77-89 | `order` has no duplicates and holds exactly the keys of `groups`. Every group is non-empty and holds only input entries with its key. Concatenating the groups in `order` gives a permutation of the input. |
| Deduplicate.GroupsPermutation | deduplicate_phrases.py:77-89 | Concatenating the groups in key order gives a permutation of the keyed input. |
| Deduplicate.GroupInInputOrder | deduplicate_phrases.py:82-87 | Each group is the entries at the input positions with its key, in increasing position order. |
| Deduplicate.SelectInInputOrder | deduplicate_phrases.py:82-87 | The same, stated over key–entry pairs. |
| Deduplicate.CollectDuplicates | deduplicate_phrases.py:109-115 | `duplicates_order` is the keys of `order` whose group has more than one entry, in order. `duplicates` maps each of them to its group. |
| Deduplicate.DuplicatedSubset | deduplicate_phrases.py:111-115 | Every listed duplicate key is a key of `order`, and its group has at least two entries. |
| Deduplicate.DuplicatedNoDuplicates | deduplicate_phrases.py:111-115 | `duplicates_order` lists no key twice. |
| Deduplicate.CountExtraEntries | deduplicate_phrases.py:118 | The generator sum equals the sum of group size minus one over the duplicate keys. |
| Deduplicate.DuplicatesBalance | deduplicate_phrases.py:117-118 | The duplicate entries removed equal the number of input records minus the number of distinct keys. |
| Deduplicate.MergeGroups | deduplicate_phrases.py:147-149 | The i-th cleaned record is the merge of the group of the i-th key of `order`. |
| Deduplicate.MergedGroupKey | deduplicate_phrases.py:147-149 | Merging a group keeps the group's key. |
| Deduplicate.FindAndRemoveDuplicates | deduplicate_phrases.py:103-172 | The report fields are as follows. `total_after` is the number of distinct keys. `duplicate_entries_removed == total_before - total_after`. `duplicates_found` is the number of keys with more than one entry, and `duplicates` maps each of them to its group. Each cleaned record is its group merged. Cleaned records have pairwise distinct keys. |
| FillUsageExamples.FindQuotes | fill_usage_examples.py:87-93 | Computes `re.findall` for one quote pattern: left to right, the text between an opening character and the next closing character when that text is non-empty, resuming after the closing character. |
| FillUsageExamples.FindQuotesShape | fill_usage_examples.py:87-93 | Every `re.findall` match is non-empty and lacks the closing quote character. |
| FillUsageExamples.QuoteOccurs | fill_usage_examples.py:93 | Every match occurs in the etymology. |
| FillUsageExamples.FirstLong | fill_usage_examples.py:96-97 | The quote picked is the first one with more than three words. Every earlier quote is shorter. `None` means no quote qualifies. |
| FillUsageExamples.ChosenQuote | fill_usage_examples.py:92-97 | A chosen quote has more than three words and occurs in the etymology. |
| FillUsageExamples.ChosenQuotePreference | fill_usage_examples.py:87-97 | «…» quotes are tried before "…" quotes. Within a style the first long quote wins. Nothing is chosen iff neither style has a long quote. |
| FillUsageExamples.Window | fill_usage_examples.py:99-101 | Computes the context slice from 100 characters before `etymology.find(quote)` to 100 characters after the quote, clamped to the etymology. |
| FillUsageExamples.WindowAroundQuote | fill_usage_examples.py:99-101 | The context is `etymology[max(0, p-100):min(len, p+len(q)+100)]` for the quote's first index p, and it contains the quote. |
| FillUsageExamples.FirstContained | fill_usage_examples.py:105-118 | The elif chain picks the first surname, in the fixed order, that occurs in the context. |
| FillUsageExamples.Credit | fill_usage_examples.py:103-119 | Computes the author of the elif chain: the credit of the first of the six surnames found in the context, else "[Wiktionary]". |
| FillUsageExamples.CreditMeaning | fill_usage_examples.py:103-119 | The author is "[Wiktionary]" iff no surname occurs. Otherwise it is the credit of the first surname that occurs. It is never the initial placeholder. |
| FillUsageExamples.ExampleFromEtymology | fill_usage_examples.py:80-123 | A returned example is non-empty. |
| FillUsageExamples.NoExampleFromEtymology | fill_usage_examples.py:82-123 | `None` is returned iff the etymology is missing, `null` or empty, or neither quote style has a quote of more than three words. |
| FillUsageExamples.ExampleFromEtymologyShape | fill_usage_examples.py:96-121 | The example is `quote + " (" + author + ")"` for a long quote of the etymology, credited from the window around it. |
| FillUsageExamples.CreateExampleFromEtymology | fill_usage_examples.py:80-123 | The nested loops with early return compute the etymology example. |
| FillUsageExamples.SearchWiktionaryExamples | fill_usage_examples.py:125-128 | The stub always returns `None`. |
| FillUsageExamples.FirstTemplate | fill_usage_examples.py:149-176 | The template is the first keyword group, in the fixed order, with a keyword in the lower-cased meaning. `None` means no group matches. |
| FillUsageExamples.ContextualExample | fill_usage_examples.py:130-181 | Computes `generate_contextual_example`: the phrase in its context form inside the first matching keyword group's template with that group's author, else the generic sentence with the drawn author. |
| FillUsageExamples.ContextualContainsPhrase | fill_usage_examples.py:142-181 | The sentence contains the phrase as-is when it starts with "А ", "Но ", "И " or "Да ", and the lower-cased phrase otherwise. |
| FillUsageExamples.ContextualFromTemplate | fill_usage_examples.py:149-176 | With a matching group, the sentence starts with that group's text and ends with that group's fixed author. |
| FillUsageExamples.ContextualIgnoresChoice | fill_usage_examples.py:149-176 | With a matching group, the random author choice does not affect the result. |
| FillUsageExamples.ContextualGeneric | fill_usage_examples.py:177-181 | With no matching group, the generic sentence is used with the chosen author from the ten-name pool. |
| FillUsageExamples.ContextualIgnoresCase | fill_usage_examples.py:132 | Keyword matching depends only on the lower-cased meaning. |
| FillUsageExamples.FindExampleForPhrase | fill_usage_examples.py:183-201 | Computes `find_example_for_phrase`: the etymology example if truthy, else the stub's, else the contextual example for `get('meanings', [''])[0]`, with `IndexError` for an empty list. |
| FillUsageExamples.FindExampleOutcome | fill_usage_examples.py:183-201 | An etymology example is preferred. Otherwise the result is the contextual example for the first meaning, with "" when meanings are absent. The lookup fails with `IndexError` exactly when there is no etymology example and meanings is `[]`. A returned example is non-empty. |
| FillUsageExamples.FillStep | fill_usage_examples.py:294-306 | Computes one iteration from the lookup result: keep a record with a truthy example, stop on a failed lookup, set a non-empty found example, else keep the record. |
| FillUsageExamples.FillStepOutcome | fill_usage_examples.py:294-306 | A record with a non-empty example is kept. Any other record gets the found example. Only the lookup's error stops the loop, and only the example changes. |
| FillUsageExamples.FillOne | fill_usage_examples.py:292-306 | One iteration computes the step. It counts the record iff the record ends with a non-empty example. |
| FillUsageExamples.FillAll | fill_usage_examples.py:291-306 | Computes the records after the loop, each step fed its own lookup, or the error of the first failing step. |
| FillUsageExamples.FillAllSucceeds | fill_usage_examples.py:291-306 | The loop completes iff no record lacks an example while having no etymology example and an empty meanings list. Otherwise it raises `IndexError`. |
| FillUsageExamples.FillAllStops | fill_usage_examples.py:291-306 | A failing step at any position makes the whole loop fail with `IndexError`. |
| FillUsageExamples.FillAllResult | fill_usage_examples.py:291-306 | On completion every record has a non-empty example. Records that had one are unchanged. Only `usage_example` ever changes. |
| FillUsageExamples.FillAllComplete | fill_usage_examples.py:320-326 | On completion `with_examples` equals the number of records. |
| FillUsageExamples.FillUsageExamples | fill_usage_examples.py:286-326 | The in-place loop over the record array succeeds iff the whole-list loop does, and fails with `IndexError` otherwise. It leaves the array equal to the filled list. The metadata are `total`, `with_examples` and `total - with_examples`. |
| FillUsageExamples.FillDump | fill_usage_examples.py:207-264 | Computes the dump text: the header with the count, the schema, one quote-first INSERT per record with ids 1..N, and the footer, joined by newlines. |
| FillUsageExamples.FillSqlDump | fill_usage_examples.py:215-264 | The dump is the header, one quote-first-escaped INSERT per record, and the footer, joined by newlines. |
| FillUsageExamples.FillDumpRows | fill_usage_examples.py:245-262 | The dump has N + 30 lines. Line 26 + i is the INSERT for record i with id i + 1. `UNLOCK TABLES;` follows the INSERTs. |
| FillUsageExamples.FillHeaderEnds | fill_usage_examples.py:241 | The header ends with `LOCK TABLES`. |
| SqlLiteral.EscapeSqlString | create_mysql_db.py:11-17 | `None` gives the unquoted `NULL`. A string gives a quoted literal. |
| SqlLiteral.EscapeTwoPasses | create_mysql_db.py:16 | The two chained replace-alls escape each `\` as `\\` and each `'` as `\'`, character by character. |
| SqlLiteral.EscapeSqlStringChars | create_mysql_db.py:16-17 | A string's literal is `'` + its character-wise escape + `'`. |
| SqlLiteral.EscapeSqlStringLength | create_mysql_db.py:16-17 | `len(escape_sql_string(s)) == len(s) + count(s, "\\") + count(s, "'") + 2`. |
| SqlLiteral.EscapeSqlStringRoundTrip | create_mysql_db.py:16-17 | MySQL reads the literal back as the original value, `NULL` included, and stops exactly at its end. |
| SqlLiteral.EscapeSql | generate_final_sql.py:10-14 | `None` gives `NULL`. A string gives a quoted literal. |
| SqlLiteral.QuoteFirstTwoPasses | generate_final_sql.py:14 | Replacing `'` by `\'` and then doubling every backslash turns `'` into `\\'` and `\` into `\\`. |
| SqlLiteral.EscapeSqlChars | generate_final_sql.py:14 | A string's quote-first literal is `'` + its character-wise escape + `'`. |
| SqlLiteral.EscapersAgreeWithoutQuotes | generate_final_sql.py:14 | On strings without a quote, the two escapers give the same literal. |
| SqlLiteral.QuoteFirstMisreads | generate_final_sql.py:14 | The quote-first literal of `'` is `'\\''`. Followed by `, 'x'`, MySQL reads it as `\', ` and the literal does not end where it was written. |
| SqlLiteral.InsertLineRoundTrip | create_mysql_db.py:76 | An INSERT line built from backslash-first literals reads back as its id and its column values. |
| PyStr.DecimalRoundTrip | create_mysql_db.py:76 | The decimal id in an INSERT reads back as the number. |
| CreateMysqlDb.CategoryValue | create_mysql_db.py:69-74 | The category is `NULL` iff it is absent, `null` or empty. Otherwise it is the category string. |
| CreateMysqlDb.RowValues | create_mysql_db.py:66-70 | The row fails with `KeyError('meanings')` iff the meanings key is absent. Otherwise it has six values. |
| CreateMysqlDb.RowColumns | create_mysql_db.py:66-76 | The meaning column is the first meaning, or "" for an empty list. `usage_example` is always `NULL`. Etymology and source URL are `NULL` iff absent or `null`. The category is `NULL` iff falsy. |
| CreateMysqlDb.InsertFor | create_mysql_db.py:66-76 | Computes the INSERT line of a record with meanings: its id and its six backslash-first escaped columns. |
| CreateMysqlDb.Inserts | create_mysql_db.py:65-77 | Computes the INSERT lines with ids 1..N in input order, or `KeyError('meanings')` at the first record without meanings. |
| CreateMysqlDb.InsertsFailure | create_mysql_db.py:65-77 | The loop completes iff every record has a meanings key, and raises `KeyError('meanings')` otherwise. |
| CreateMysqlDb.InsertsLines | create_mysql_db.py:65-77 | There is one INSERT per record, with ids 1..N in input order. |
| CreateMysqlDb.InsertsReadBack | create_mysql_db.py:65-77 | Each INSERT line reads back as its id and the record's six column values. |
| CreateMysqlDb.HeaderEnds | create_mysql_db.py:61-62 | The header ends with `LOCK TABLES` and an empty line. |
| CreateMysqlDb.Dump | create_mysql_db.py:32-85 | Computes the text written to the dump file: the header, the INSERT lines and the footer joined by newlines, or the `KeyError`. |
| CreateMysqlDb.DumpLayout | create_mysql_db.py:32-85 | The dump is N + 30 newline-joined lines. `LOCK TABLES` comes first, then exactly N INSERT lines with ids 1..N that read back as their records, then `UNLOCK TABLES`. |
| CreateMysqlDb.InsertRow | create_mysql_db.py:66-77 | One iteration builds the record's INSERT line. |
| CreateMysqlDb.InsertLoop | create_mysql_db.py:65-77 | The loop computes the INSERT lines or the `KeyError`. |
| CreateMysqlDb.GenerateSqlDump | create_mysql_db.py:19-90 | Returns the dump content and N, or the `KeyError`. |
| GenerateFinalSql.FinalRowValues | generate_final_sql.py:61-64 | Computes the six column values of a record: the phrase, the meanings joined by "; ", `get(k, '')` for etymology, category and source URL, and `get('usage_example')`. There are always six. |
| GenerateFinalSql.FinalColumns | generate_final_sql.py:60-64 | Phrase and meaning are never `NULL`. An absent etymology, category or source URL is `''`, and only a JSON `null` gives `NULL`. `usage_example` is `NULL` iff absent or `null`. |
| GenerateFinalSql.DefaultColumn | generate_final_sql.py:64 | For `d.get(k, '')`, the column is `NULL` iff the value is `null`, and an absent key gives `''`. |
| GenerateFinalSql.FinalMeaningSplits | generate_final_sql.py:61 | The meaning column is all meanings joined by "; ". Splitting it on "; " gives them back when no meaning holds "; ". |
| GenerateFinalSql.QuoteFirstAllAgree | generate_final_sql.py:14 | Without quotes in the values, the row's literals equal the backslash-first ones. |
| GenerateFinalSql.FinalInsertFor | generate_final_sql.py:63-64 | Computes the INSERT line for row `id` from the quote-first escaped column values. |
| GenerateFinalSql.FinalInserts | generate_final_sql.py:60-65 | Computes one INSERT line per record, with ids 1..N in input order; there are as many lines as records. |
| GenerateFinalSql.FinalInsertsReadBack | generate_final_sql.py:60-65 | For records whose values hold no quote, INSERT i reads back as id i + 1 and record i's six column values. |
| GenerateFinalSql.FinalLineReadBack | generate_final_sql.py:63-64 | One INSERT line of a quote-free record reads back as its id and values. |
| GenerateFinalSql.IntendedFinalLineReadBack | generate_final_sql.py:14 | With backslash-first escaping, every record's line reads back as its id and values, quotes included. It equals the written line for quote-free records. |
| GenerateFinalSql.FinalHeaderEnds | generate_final_sql.py:29-56 | The header ends with `LOCK TABLES`. |
| GenerateFinalSql.FinalDump | generate_final_sql.py:29-76 | Computes the text written to the final dump: the header with `generatedAt` and the count, the schema, the INSERT lines and the footer, joined by newlines. |
| GenerateFinalSql.FinalDumpLines | generate_final_sql.py:29-76 | The dump is N + 31 newline-joined lines, with `LOCK TABLES` at line 26. |
| GenerateFinalSql.FinalDumpRows | generate_final_sql.py:60-72 | Line 27 + i is the INSERT for record i with id i + 1. `UNLOCK TABLES;` follows the INSERTs. |
| GenerateFinalSql.WithExamples | generate_final_sql.py:81 | Computes `sum(1 for p in phrases if p.get('usage_example'))`. |
| GenerateFinalSql.WithExamplesBounds | generate_final_sql.py:81 | `with_examples` is at most N. It equals N iff every record has a truthy example, and 0 iff none has. |
| GenerateFinalSql.WithExamplesAppend | generate_final_sql.py:81 | A record adds one to `with_examples` iff its `usage_example` is truthy. |
| GenerateFinalSql.FinalInsertLoop | generate_final_sql.py:60-65 | The loop appends one INSERT per record in order. |
| GenerateFinalSql.GenerateSqlDump | generate_final_sql.py:29-88 | Returns the dump content, the total, `with_examples`, and "without" = total − `with_examples`. |
| ImproveExamples.ImproveExample | improve_examples.py:12-36 | The result never has leading or trailing whitespace. |
| PyStr.StripIdempotent | improve_examples.py:36 | Stripping twice equals stripping once. |
| ImproveExamples.ImproveNeutral | improve_examples.py:12-36 | Suppose the phrase has no conjunction prefix, does not end in "?", and is not a sentence. Then the result is the example with "  " replaced by " " in one left-to-right pass, then stripped. |
| ImproveExamples.SingleSpaces | improve_examples.py:24 | Computes `example.replace("  ", " ")`. |
| ImproveExamples.SingleSpacesLength | improve_examples.py:24 | The pass shortens the example by its number of non-overlapping "  ". |
| ImproveExamples.ConjunctionFix | improve_examples.py:16-21 | Computes the conjunction rewrite: " p," to ", p," if present, else " p " to ", p ", for p the lower-cased phrase, only for phrases starting with "А ", "Но ", "И " or "Да ". |
| ImproveExamples.ConjunctionBranch | improve_examples.py:16-21 | With p = phrase.lower(), if " p," occurs then every non-overlapping occurrence becomes ", p,". Otherwise, if " p " occurs, every occurrence becomes ", p ". Otherwise nothing changes. Each rewrite lengthens the example by its number of occurrences. |
| ImproveExamples.ConjunctionOnlyForConjunctions | improve_examples.py:16 | Phrases without a conjunction prefix skip this branch. |
| ImproveExamples.QuestionFix | improve_examples.py:27-29 | Computes the question rewrite: " p" to ", p" for a phrase ending in "?" whose " p" occurs. |
| ImproveExamples.QuestionBranch | improve_examples.py:27-29 | For a phrase ending in "?" whose " p" occurs, every non-overlapping " p" becomes ", p". Otherwise the example is unchanged. |
| ImproveExamples.SentenceFix | improve_examples.py:32-34 | Computes the sentence rewrite: " p" to ", " + phrase for a phrase of more than three words holding . ! or ?. |
| ImproveExamples.SentenceBranch | improve_examples.py:32-34 | A sentence is more than three words containing . ! or ?. For such a phrase every " p" becomes ", " + the phrase in its original case. Otherwise the example is unchanged. |
| ImproveExamples.ImproveRecord | improve_examples.py:53-60 | Computes one iteration: a record with a truthy example that the touch-up changes gets the new example; every other record is kept. |
| ImproveExamples.ImproveRecordChanges | improve_examples.py:53-60 | A record changes iff its non-empty example is changed by the touch-up. Only `usage_example` changes, and it becomes trimmed. |
| ImproveExamples.ImproveOne | improve_examples.py:53-60 | One iteration updates the record and reports whether it changed. |
| ImproveExamples.ImproveAll | improve_examples.py:52-61 | Computes the records after the loop, each improved by one step, in order; the length is kept. |
| ImproveExamples.ImproveAllMeaning | improve_examples.py:52-61 | After the loop, exactly the improving records differ, and only in their example. `improved_count` is 0 iff nothing changed. |
| ImproveExamples.ImprovedCount | improve_examples.py:50-60 | Computes `improved_count`: the number of records the loop changes, at most the number of records. |
| ImproveExamples.ImprovedCountZero | improve_examples.py:52-61 | `improved_count` is 0 iff no record improves. |
| ImproveExamples.ImprovedCountAtMostWithExamples | improve_examples.py:56-60 | `improved_count` never exceeds the number of records with a non-empty example. |
| ImproveExamples.ImproveExamplesLoop | improve_examples.py:52-61 | The in-place loop leaves the array equal to the touched-up list. It returns the number of changed records. |
| ValidateSql.Passed | validate_sql.py:26-34 | `passed` is at most the number of checks. It equals it iff every pattern occurs in the content. |
| ValidateSql.ValidateSqlDump | validate_sql.py:18-54 | Five checks. `passed` counts the patterns present. `insert_count` is the non-overlapping count of the INSERT marker. The escaped-quote flag is reported but unused. The verdict is `passed == 5 and insert_count == 1140`. |
| ValidateSql.InsertCheckAgreesWithCount | validate_sql.py:23-37 | `insert_count >= 1` iff the fifth check passes. |
| ValidateSql.VerdictMeaning | validate_sql.py:49-54 | The verdict holds iff the four schema patterns are present and the INSERT count is 1140. |
| PyStr.CountPositiveIffContains | validate_sql.py:30-37 | A pattern is counted at least once iff `pattern in content`. |
| Schema.SchemaPatterns | create_mysql_db.py:47-55 | The table definition contains the CREATE TABLE, PRIMARY KEY, AUTO_INCREMENT and utf8mb4 patterns. |
| Schema.SchemaLinesCount | create_mysql_db.py:41-58 | No line of the table definition contains the INSERT marker. |
| Pipeline.InsertLineCount | create_mysql_db.py:76 | An INSERT line whose values hold no backtick contains the marker exactly once. |
| Pipeline.CreateDumpInsertCount | validate_sql.py:37 | For N records with meanings and no backticks, the validator counts exactly N INSERT markers in the `create_mysql_db.py` dump. |
| Pipeline.CreateDumpPatterns | create_mysql_db.py:47-55 | Every `create_mysql_db.py` dump passes the four schema checks. |
| Pipeline.ValidatorAcceptsCreateDump | validate_sql.py:49-54 | The validator accepts such a dump iff it holds exactly 1140 records. |
| Records.Get | generate_final_sql.py:64 | `d.get(k)`: `Some` exactly for a present string, which it returns; an absent key and `null` both give `None`. |
| Records.GetOr | create_mysql_db.py:68-70 | `d.get(k, default)`: the default exactly for an absent key, `None` for `null`, and the string otherwise. |
| Records.Truthy | fill_usage_examples.py:295 | Python truthiness of `d.get(k)`: present, not `null` and not "". |
| PyStr.Replace | improve_examples.py:19-34 | Computes `s.replace(pat, rep)` for a non-empty pattern: every non-overlapping occurrence, leftmost first, is replaced. |
| PyStr.Count | validate_sql.py:37 | Computes the number of non-overlapping occurrences, scanning left to right, as `len(re.findall(...))` does for a pattern without metacharacters. |
| PyStr.Strip | deduplicate_phrases.py:30 | Computes `str.strip()`; the result has no whitespace at either end. |

## Left out

- File I/O is not modelled: `json.load` and `json.dump`, `open`, the existence check with `sys.exit` (create_mysql_db.py:111-114), and writing the dump files. Every function works on in-memory records or a content string.
- `print` progress and report output are not modelled.
- `time.sleep` (fill_usage_examples.py:315-316) is not modelled.
- Timestamps are not computed. The `-- Generated at:` line of generate_final_sql.py takes its text as the parameter `generatedAt`. The `generated_at` timestamp in the metadata of fill_usage_examples.py (line 326) is not modelled.
- ImproveExamples.ImproveExamplesLoop: the output metadata of improve_examples.py (lines 64-71) is not modelled. That is the input's `metadata` dict merged with `improved_examples` and the constant `improved_at` string `'2024-01-20 00:00:00'`. The method returns only `improved_count`.
- Floating-point percentages and the file-size line (fill_usage_examples.py:312, 347; generate_final_sql.py:89-90) are left out. They also divide by zero on an empty list.
- `random.choice` (fill_usage_examples.py:179-180) is the parameter `choice: AuthorIndex`, an index below 10.
- `generate_markdown_report` (deduplicate_phrases.py:175-288) is presentation text and is not modelled.
- `clean_text` and `extract_author_from_text` (fill_usage_examples.py:46-78) are not modelled. Nothing in the repository calls them.
- The unused `config` and `main` of create_mysql_db.py (lines 92-106) and the commented-out web-scraping code are not modelled.
- Records.Record: a record without a `phrase` key is not modelled. The phrase is always a string.
- Records.Record: a JSON `null` for `meanings` is not modelled. `meanings` is either absent or a list of strings.
- Records.Record: values that are not strings, which `str(value)` would print, are not modelled.
- PyStr.Lower: the map covers A–Z, Cyrillic А–Я and Ѐ–Џ (Ё→ё included) and nothing else, not Python's full Unicode mapping. The map is idempotent and preserves whitespace, which is all the proofs need.
- PyStr.IsSpace: whitespace is six ASCII characters, not Python's full Unicode set.
- Idempotence of `improve_example` is not claimed. Applying the question branch again inserts another comma, because ", p" still contains " p".
- The Cyrillic literals of fill_usage_examples.py are named constants (surnames, credits, authors, keyword lists, template texts). Their text is written out, but the proofs treat them as given strings.
- FillUsageExamples.FindQuotes and the keyword, surname and template constants: in the repository's copy of fill_usage_examples.py every non-ASCII literal is UTF-8 text that was decoded as Mac Roman and saved again. Line 88, for example, reads `¬´([^¬ª]+)¬ª`, and line 106 reads `–ö—Ä—ã–ª–æ–≤` for Крылов. The model uses these literals decoded back to UTF-8: `FindQuotes` models `«([^»]+)»`, and the surname and keyword tests use the Cyrillic words. Taken byte for byte, the pattern would open on the two characters `¬´`, and no keyword or surname could match Cyrillic text. The model follows the evident intent, not the file's bytes.
- FillUsageExamples.ExampleFromEtymology: `re.findall` is modelled for the two quote patterns used: an opening character, a non-empty run without the closing character, then the closing character. It is not a general regular-expression engine.
- Pipeline.CreateDumpInsertCount: stated only for records whose values hold no backtick. A value containing the marker text would add to the validator's count.
- GenerateFinalSql.FinalInsertsReadBack: stated only for records whose values hold no quote, because the quote-first escaper garbles quotes (see Findings).

## Findings

| source | as written | input that shows it | evidently intended | confidence | as-written member | corrected member |
|---|---|---|---|---|---|---|
| generate_final_sql.py:14 | `replace("'", "\\'")` runs before `replace("\\", "\\\\")`. The backslash added for a quote is then doubled, so `'` becomes `\\'`. | The value `'` followed by the next column `, 'x'`. MySQL reads `'\\''` as a backslash and a doubled quote. The literal does not end where it was written: it reads as `\', ` and reading resumes at `x'`. So the INSERT line no longer reads as its row. | Escape backslashes first, then quotes, as create_mysql_db.py:16 does, so that every line reads back as its values | not executed | SqlLiteral.QuoteFirstMisreads | GenerateFinalSql.IntendedFinalLineReadBack |
| fill_usage_examples.py:251 | The same quote-first order in the nested `escape_sql` | The same value `'` in any column of the dump | The same backslash-first order | not executed | SqlLiteral.QuoteFirstMisreads | GenerateFinalSql.IntendedFinalLineReadBack |

Both dump models (`GenerateFinalSql.FinalDump` and `FillUsageExamples.FillDump`) keep the quote-first escaper,
because they describe the text the scripts write. `GenerateFinalSql.IntendedFinalInsertFor` is the corrected
line. `GenerateFinalSql.IntendedFinalLineReadBack` proves that it reads back for every record, and that it
equals the written line whenever no value holds a quote.
