/** The phrase record shared by every script: one JSON object of the `phrases` array. */
module Records {
  import opened PyStr

  datatype Option<T> = None | Some(value: T)

  /** A Python exception raised by a lookup that the data does not support. */
  datatype Error = KeyError(key: string) | IndexError

  datatype Result<T> = Ok(value: T) | Failure(error: Error)

  /** A string-valued key of the JSON object: absent, present with `null`, or present with a string.
      The scripts tell the three apart (`d.get(k)`, `d.get(k, '')`, `k in d`). */
  datatype Field = Missing | Null | Has(value: string)

  /** One phrase record.  `meanings` is `None` when the key is absent.  `extra` stands for every other key,
      which the scripts only copy. */
  datatype Record = Record(
    phrase: string,
    meanings: Option<seq<string>>,
    etymology: Field,
    category: Field,
    sourceUrl: Field,
    usageExample: Field,
    extra: map<string, string>)

  /** `d.get(k) or ""`: the string, or "" for an absent key, `null` or "". */
  function Text(f: Field): (s: string)
    ensures f.Has? ==> s == f.value
    ensures !f.Has? ==> s == ""
  {
    if f.Has? then f.value else ""
  }

  /** Python truthiness of `d.get(k)`: present, not `null` and not "". */
  predicate Truthy(f: Field) {
    f.Has? && f.value != ""
  }

  /** `d.get("meanings", []) or []`. */
  function MeaningsOf(r: Record): seq<string> {
    if r.meanings.Some? then r.meanings.value else []
  }

  /** `d.get(k)`: the string, or `None` for an absent key or `null`. */
  function Get(f: Field): (v: Option<string>)
    ensures v.Some? <==> f.Has?
    ensures v.Some? ==> v.value == f.value
  {
    if f.Has? then Some(f.value) else None
  }

  /** `d.get(k, default)`: the default only for an absent key; `null` stays `None`. */
  function GetOr(f: Field, default: string): (v: Option<string>)
    ensures f.Missing? ==> v == Some(default)
    ensures f.Null? ==> v.None?
    ensures f.Has? ==> v == Some(f.value)
  {
    match f
    case Missing => Some(default)
    case Null => None
    case Has(s) => Some(s)
  }

  /** The conjunctions "А ", "Но ", "И " and "Да " that a phrase may start with; such phrases are used as they
      are rather than lower-cased or embedded. */
  const ConjunctionPrefixes: seq<string> := ["\U{410} ", "\U{41D}\U{43E} ", "\U{418} ", "\U{414}\U{430} "]

  /** `phrase.startswith(("А ", "Но ", "И ", "Да "))`. */
  predicate StartsWithConjunction(phrase: string) {
    exists k :: 0 <= k < |ConjunctionPrefixes| && StartsWith(phrase, ConjunctionPrefixes[k])
  }
}
