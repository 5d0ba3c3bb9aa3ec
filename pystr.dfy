/** The Python `str` operations that the phrase scripts rely on, over `string` (`seq<char>`). */
module PyStr {

  // ---------------------------------------------------------------------------
  // Characters
  // ---------------------------------------------------------------------------

  /** The whitespace set of `str.split()` and `str.strip()`, fixed to the six ASCII whitespace characters:
      the space, and tab, line feed, vertical tab, form feed and carriage return (U+0009 to U+000D). */
  predicate IsSpace(c: char) {
    c == ' ' || '\t' <= c <= '\r'
  }

  /** `str.lower()` on one character: Latin and Cyrillic capitals (including the Ѐ..Џ block) map to their small letters. */
  function Lower(c: char): (r: char)
    ensures !('A' <= r <= 'Z') && !('\U{0400}' <= r <= '\U{042F}')
    ensures IsSpace(r) <==> IsSpace(c)
  {
    if 'A' <= c <= 'Z' then (c as int + 32) as char
    else if '\U{0410}' <= c <= '\U{042F}' then (c as int + 32) as char
    else if '\U{0400}' <= c <= '\U{040F}' then (c as int + 80) as char
    else c
  }

  /** `str.lower()`. */
  function LowerStr(s: string): (r: string)
    ensures |r| == |s|
    ensures forall i :: 0 <= i < |s| ==> r[i] == Lower(s[i])
  {
    seq(|s|, i requires 0 <= i < |s| => Lower(s[i]))
  }

  /** `LowerStr` applied to every element. */
  function MapLower(ws: seq<string>): (r: seq<string>)
    ensures |r| == |ws|
    ensures forall i :: 0 <= i < |ws| ==> r[i] == LowerStr(ws[i])
  {
    seq(|ws|, i requires 0 <= i < |ws| => LowerStr(ws[i]))
  }

  lemma {:induction false} LowerStrIdempotent(s: string)
    ensures LowerStr(LowerStr(s)) == LowerStr(s)
  {
  }

  predicate NoSpace(s: string) {
    forall i :: 0 <= i < |s| ==> !IsSpace(s[i])
  }

  /** A field of `str.split()`: non-empty and free of whitespace. */
  predicate IsWord(w: string) {
    |w| > 0 && NoSpace(w)
  }

  predicate AllWords(ws: seq<string>) {
    forall i :: 0 <= i < |ws| ==> IsWord(ws[i])
  }

  // ---------------------------------------------------------------------------
  // strip
  // ---------------------------------------------------------------------------

  /** Every character is whitespace. */
  predicate AllSpace(s: string) {
    forall i :: 0 <= i < |s| ==> IsSpace(s[i])
  }

  /** Length of the leading run of whitespace. */
  function SpaceLen(s: string): (n: nat)
    ensures n <= |s|
    ensures n == |s| || !IsSpace(s[n])
    decreases |s|
  {
    if s != [] && IsSpace(s[0]) then 1 + SpaceLen(s[1..]) else 0
  }

  /** Length of the trailing run of whitespace. */
  function TrailLen(s: string): (n: nat)
    ensures n <= |s|
    ensures n == |s| || !IsSpace(s[|s| - n - 1])
    decreases |s|
  {
    if s != [] && IsSpace(s[|s| - 1]) then 1 + TrailLen(s[..|s| - 1]) else 0
  }

  lemma {:induction false} SpaceLenSpaces(s: string)
    ensures AllSpace(s[..SpaceLen(s)])
    decreases |s|
  {
    if s != [] && IsSpace(s[0]) {
      SpaceLenSpaces(s[1..]);
      var n := SpaceLen(s);
      forall i | 0 < i < n
        ensures IsSpace(s[..n][i])
      {
        assert s[..n][i] == s[1..][..n - 1][i - 1];
      }
    }
  }

  lemma {:induction false} TrailLenSpaces(s: string)
    ensures AllSpace(s[|s| - TrailLen(s)..])
    decreases |s|
  {
    if s != [] && IsSpace(s[|s| - 1]) {
      var u := s[..|s| - 1];
      TrailLenSpaces(u);
      var n := TrailLen(s);
      var tail, tailU := s[|s| - n..], u[|u| - (n - 1)..];
      forall i | 0 <= i < n - 1
        ensures IsSpace(tail[i])
      {
        assert tail[i] == tailU[i];
      }
    }
  }

  /** `str.lstrip()`: what follows the leading whitespace. */
  function LStrip(s: string): (r: string)
    ensures r == [] || !IsSpace(r[0])
  {
    s[SpaceLen(s)..]
  }

  /** `str.rstrip()`: what precedes the trailing whitespace. */
  function RStrip(s: string): (r: string)
    ensures r == [] || !IsSpace(r[|r| - 1])
  {
    s[..|s| - TrailLen(s)]
  }

  /** No whitespace at either end. */
  predicate Trimmed(s: string) {
    s == [] || (!IsSpace(s[0]) && !IsSpace(s[|s| - 1]))
  }

  /** `str.strip()`. */
  function Strip(s: string): (r: string)
    ensures Trimmed(r)
  {
    var t := LStrip(s);
    assert RStrip(t) != [] ==> RStrip(t)[0] == t[0];
    RStrip(t)
  }

  lemma {:induction false} SuffixSlices(s: string, a: nat, m: nat)
    requires a + m <= |s|
    ensures s[a..][..m] == s[a..a + m]
    ensures s[a..][m..] == s[a + m..]
  {
  }

  /** `strip()` keeps the slice of `s` that starts after its leading whitespace. */
  lemma {:induction false} StripKeepsMiddle(s: string)
    ensures SpaceLen(s) + |Strip(s)| <= |s| && Strip(s) == s[SpaceLen(s)..SpaceLen(s) + |Strip(s)|]
  {
    var a := SpaceLen(s);
    var t := s[a..];
    var m := |t| - TrailLen(t);
    var r := Strip(s);
    assert r == t[..m] && |r| == m;
    SuffixSlices(s, a, m);
    assert r == s[a..a + m];
  }

  /** What `strip()` drops on either side is whitespace. */
  lemma {:induction false} StripDropsSpace(s: string)
    ensures SpaceLen(s) + |Strip(s)| <= |s|
    ensures AllSpace(s[..SpaceLen(s)]) && AllSpace(s[SpaceLen(s) + |Strip(s)|..])
  {
    var a := SpaceLen(s);
    var t := s[a..];
    var m := |t| - TrailLen(t);
    assert Strip(s) == t[..m];
    SuffixSlices(s, a, m);
    SpaceLenSpaces(s);
    TrailLenSpaces(t);
  }

  /** `strip()` leaves a trimmed string alone, so it is idempotent. */
  lemma {:induction false} StripTrimmed(s: string)
    requires Trimmed(s)
    ensures Strip(s) == s
  {
    assert SpaceLen(s) == 0;
    assert s[0..] == s;
    assert TrailLen(s) == 0;
    assert s[..|s|] == s;
  }

  lemma {:induction false} StripIdempotent(s: string)
    ensures Strip(Strip(s)) == Strip(s)
  {
    StripTrimmed(Strip(s));
  }

  lemma {:induction false} SpaceLenLower(s: string)
    ensures SpaceLen(LowerStr(s)) == SpaceLen(s)
    decreases |s|
  {
    if s != [] {
      assert LowerStr(s)[1..] == LowerStr(s[1..]);
      SpaceLenLower(s[1..]);
    }
  }

  lemma {:induction false} TrailLenLower(s: string)
    ensures TrailLen(LowerStr(s)) == TrailLen(s)
    decreases |s|
  {
    if s != [] {
      var u := s[..|s| - 1];
      assert LowerStr(s)[..|s| - 1] == LowerStr(u);
      assert LowerStr(s)[|s| - 1] == Lower(s[|s| - 1]);
      TrailLenLower(u);
    }
  }

  lemma {:induction false} LStripLower(s: string)
    ensures LStrip(LowerStr(s)) == LowerStr(LStrip(s))
  {
    SpaceLenLower(s);
    LowerStrSlices(s, SpaceLen(s));
  }

  lemma {:induction false} RStripLower(s: string)
    ensures RStrip(LowerStr(s)) == LowerStr(RStrip(s))
  {
    TrailLenLower(s);
    LowerStrSlices(s, |s| - TrailLen(s));
  }

  /** Lower-casing commutes with stripping, because it maps whitespace to whitespace and nothing else to it. */
  lemma {:induction false} StripLower(s: string)
    ensures Strip(LowerStr(s)) == LowerStr(Strip(s))
  {
    LStripLower(s);
    RStripLower(LStrip(s));
  }

  // ---------------------------------------------------------------------------
  // split and join
  // ---------------------------------------------------------------------------

  /** Length of the leading run of non-whitespace characters. */
  function WordLen(s: string): (n: nat)
    ensures n <= |s|
    ensures forall i :: 0 <= i < n ==> !IsSpace(s[i])
    ensures n == |s| || IsSpace(s[n])
  {
    if s == [] || IsSpace(s[0]) then 0 else 1 + WordLen(s[1..])
  }

  /** The leading run of a string that does not start with whitespace is a word. */
  lemma {:induction false} LeadingWord(t: string)
    requires t != [] && !IsSpace(t[0])
    ensures WordLen(t) > 0 && IsWord(t[..WordLen(t)])
  {
    var n := WordLen(t);
    forall i | 0 <= i < n
      ensures !IsSpace(t[..n][i])
    {
      assert t[..n][i] == t[i];
    }
  }

  lemma {:induction false} AllWordsCons(w: string, ws: seq<string>)
    requires IsWord(w) && AllWords(ws)
    ensures AllWords([w] + ws)
  {
    forall i | 0 <= i < |[w] + ws|
      ensures IsWord(([w] + ws)[i])
    {
      if i > 0 {
        assert ([w] + ws)[i] == ws[i - 1];
      }
    }
  }

  /** `str.split()` with no argument: the maximal runs of non-whitespace, left to right. */
  function Split(s: string): seq<string>
    decreases |s|
  {
    var t := LStrip(s);
    if t == [] then []
    else
      var n := WordLen(t);
      assert n > 0;
      [t[..n]] + Split(t[n..])
  }

  /** Every field of `split()` is a non-empty run of non-whitespace. */
  lemma {:induction false} SplitWords(s: string)
    ensures AllWords(Split(s))
    decreases |s|
  {
    var t := LStrip(s);
    if t != [] {
      var n := WordLen(t);
      LeadingWord(t);
      SplitWords(t[n..]);
      AllWordsCons(t[..n], Split(t[n..]));
    }
  }

  /** `sep.join(parts)`. */
  function Join(sep: string, parts: seq<string>): string
    decreases |parts|
  {
    if parts == [] then ""
    else if |parts| == 1 then parts[0]
    else parts[0] + sep + Join(sep, parts[1..])
  }

  /** The first and last characters of a space-joined list of words are those of its first and last words. */
  lemma {:induction false} JoinEnds(ws: seq<string>)
    requires AllWords(ws)
    ensures ws == [] <==> Join(" ", ws) == []
    ensures ws != [] ==> Join(" ", ws)[0] == ws[0][0]
    ensures ws != [] ==> Join(" ", ws)[|Join(" ", ws)| - 1] == ws[|ws| - 1][|ws[|ws| - 1]| - 1]
    decreases |ws|
  {
    if |ws| == 1 {
      assert IsWord(ws[0]);
    } else if |ws| > 1 {
      var rest := ws[1..];
      assert IsWord(ws[0]) && AllWords(rest);
      JoinEnds(rest);
      var j := Join(" ", rest);
      assert Join(" ", ws) == ws[0] + " " + j;
      assert rest[|rest| - 1] == ws[|ws| - 1];
    }
  }

  lemma {:induction false} WordLenOfWordThenSpace(w: string, rest: string)
    requires NoSpace(w)
    requires rest == [] || IsSpace(rest[0])
    ensures WordLen(w + rest) == |w|
    decreases |w|
  {
    if w != [] {
      assert (w + rest)[1..] == w[1..] + rest;
      WordLenOfWordThenSpace(w[1..], rest);
    }
  }

  lemma {:induction false} SplitWordThen(w: string, rest: string)
    requires IsWord(w)
    requires rest == [] || IsSpace(rest[0])
    ensures Split(w + rest) == [w] + Split(rest)
  {
    var s := w + rest;
    assert s[0] == w[0];
    assert SpaceLen(s) == 0;
    assert s[0..] == s;
    assert LStrip(s) == s;
    WordLenOfWordThenSpace(w, rest);
    assert s[..|w|] == w;
    assert s[|w|..] == rest;
  }

  lemma {:induction false} SplitSpaceThen(j: string)
    ensures Split(" " + j) == Split(j)
  {
    assert (" " + j)[1..] == j;
    assert SpaceLen(" " + j) == 1 + SpaceLen(j);
    assert (" " + j)[1 + SpaceLen(j)..] == j[SpaceLen(j)..];
    assert LStrip(" " + j) == LStrip(j);
  }

  lemma {:induction false} SplitJoinStep(ws: seq<string>)
    requires |ws| > 1 && IsWord(ws[0])
    ensures Split(Join(" ", ws)) == [ws[0]] + Split(Join(" ", ws[1..]))
  {
    var j := Join(" ", ws[1..]);
    assert Join(" ", ws) == ws[0] + (" " + j);
    SplitWordThen(ws[0], " " + j);
    SplitSpaceThen(j);
  }

  /** Splitting a space-joined list of words gives the words back. */
  lemma {:induction false} SplitJoin(ws: seq<string>)
    requires AllWords(ws)
    ensures Split(Join(" ", ws)) == ws
    decreases |ws|
  {
    if ws == [] {
      assert Split([]) == [];
    } else if |ws| == 1 {
      SplitOneWord(ws[0]);
    } else {
      SplitJoinStep(ws);
      AllWordsTail(ws);
      SplitJoin(ws[1..]);
      assert ws == [ws[0]] + ws[1..];
    }
  }

  lemma {:induction false} AllWordsTail(ws: seq<string>)
    requires ws != [] && AllWords(ws)
    ensures IsWord(ws[0]) && AllWords(ws[1..])
  {
    forall i | 0 <= i < |ws| - 1
      ensures IsWord(ws[1..][i])
    {
      assert ws[1..][i] == ws[i + 1];
    }
  }

  lemma {:induction false} SplitOneWord(w: string)
    requires IsWord(w)
    ensures Split(Join(" ", [w])) == [w]
  {
    SplitWordThen(w, []);
    assert w + [] == w;
    assert Split([]) == [];
  }

  /** Whitespace of a collapsed string is single ' ' characters strictly inside it. */
  predicate Collapsed(s: string) {
    && Trimmed(s)
    && (forall i :: 0 <= i < |s| ==> IsSpace(s[i]) ==> s[i] == ' ')
    && (forall i :: 0 <= i < |s| - 1 ==> !(IsSpace(s[i]) && IsSpace(s[i + 1])))
  }

  lemma {:induction false} JoinCollapsed(ws: seq<string>)
    requires AllWords(ws)
    ensures Collapsed(Join(" ", ws))
    decreases |ws|
  {
    JoinEnds(ws);
    if |ws| > 1 {
      var w := ws[0];
      var j := Join(" ", ws[1..]);
      JoinCollapsed(ws[1..]);
      JoinEnds(ws[1..]);
      var s := w + " " + j;
      assert s == Join(" ", ws);
      forall i | 0 <= i < |s|
        ensures IsSpace(s[i]) ==> s[i] == ' '
      {
        if i > |w| {
          assert s[i] == j[i - |w| - 1];
        }
      }
      forall i | 0 <= i < |s| - 1
        ensures !(IsSpace(s[i]) && IsSpace(s[i + 1]))
      {
        if i > |w| {
          assert s[i] == j[i - |w| - 1] && s[i + 1] == j[i - |w|];
        } else if i == |w| {
          assert s[i + 1] == j[0];
        } else if i == |w| - 1 {
          assert s[i] == w[|w| - 1];
        } else {
          assert s[i] == w[i];
        }
      }
    }
  }

  lemma {:induction false} StripJoin(ws: seq<string>)
    requires AllWords(ws)
    ensures Strip(Join(" ", ws)) == Join(" ", ws)
  {
    JoinCollapsed(ws);
    StripTrimmed(Join(" ", ws));
  }

  lemma {:induction false} AllWordsLower(ws: seq<string>)
    requires AllWords(ws)
    ensures AllWords(MapLower(ws))
  {
    forall i | 0 <= i < |ws|
      ensures IsWord(MapLower(ws)[i])
    {
      assert IsWord(ws[i]);
    }
  }

  lemma {:induction false} LowerStrConcat(a: string, b: string)
    ensures LowerStr(a + b) == LowerStr(a) + LowerStr(b)
  {
  }

  /** Lower-casing a space-joined list lower-cases each element. */
  lemma {:induction false} LowerJoin(ws: seq<string>)
    ensures LowerStr(Join(" ", ws)) == Join(" ", MapLower(ws))
    decreases |ws|
  {
    if |ws| > 1 {
      LowerJoin(ws[1..]);
      assert MapLower(ws)[1..] == MapLower(ws[1..]);
      var a, b := ws[0], Join(" ", ws[1..]);
      assert Join(" ", ws) == (a + " ") + b;
      LowerStrConcat(a + " ", b);
      LowerStrConcat(a, " ");
      assert LowerStr(" ") == " ";
    }
  }

  lemma {:induction false} WordLenLower(s: string)
    ensures WordLen(LowerStr(s)) == WordLen(s)
    decreases |s|
  {
    if s != [] && !IsSpace(s[0]) {
      assert LowerStr(s)[1..] == LowerStr(s[1..]);
      WordLenLower(s[1..]);
    }
  }

  lemma {:induction false} MapLowerCons(w: string, ws: seq<string>)
    ensures MapLower([w] + ws) == [LowerStr(w)] + MapLower(ws)
  {
    var l := MapLower([w] + ws);
    var r := [LowerStr(w)] + MapLower(ws);
    assert |l| == |r|;
    forall i | 0 <= i < |l|
      ensures l[i] == r[i]
    {
      if i > 0 {
        assert ([w] + ws)[i] == ws[i - 1];
      }
    }
  }

  lemma {:induction false} LowerStrSlices(s: string, n: nat)
    requires n <= |s|
    ensures LowerStr(s)[..n] == LowerStr(s[..n])
    ensures LowerStr(s)[n..] == LowerStr(s[n..])
  {
  }

  /** Lower-casing commutes with `split()`. */
  lemma {:induction false} SplitLower(s: string)
    ensures Split(LowerStr(s)) == MapLower(Split(s))
    decreases |s|
  {
    var t := LStrip(s);
    LStripLower(s);
    var u := LowerStr(t);
    assert LStrip(LowerStr(s)) == u;
    if t != [] {
      var n := WordLen(t);
      WordLenLower(t);
      LowerStrSlices(t, n);
      SplitLower(t[n..]);
      assert Split(LowerStr(s)) == [u[..n]] + Split(u[n..]);
      assert Split(s) == [t[..n]] + Split(t[n..]);
      MapLowerCons(t[..n], Split(t[n..]));
    } else {
      assert u == [];
    }
  }

  // ---------------------------------------------------------------------------
  // Substrings: in, find, count, startswith, endswith
  // ---------------------------------------------------------------------------

  /** `sub` occurs in `s` at index `i`. */
  predicate OccursAt(s: string, sub: string, i: int) {
    0 <= i && i + |sub| <= |s| && s[i..i + |sub|] == sub
  }

  /** `sub in s`. */
  predicate Contains(s: string, sub: string) {
    exists i :: 0 <= i <= |s| && OccursAt(s, sub, i)
  }

  /** `s.startswith(p)`. */
  predicate StartsWith(s: string, p: string) {
    |p| <= |s| && s[..|p|] == p
  }

  lemma {:induction false} ConcatSlices(a: string, b: string)
    ensures (a + b)[..|a|] == a && (a + b)[|a|..] == b
    ensures StartsWith(a + b, a)
  {
  }

  /** `s.endswith(p)`. */
  predicate EndsWith(s: string, p: string) {
    |p| <= |s| && s[|s| - |p|..] == p
  }

  function FindFrom(s: string, sub: string, i: nat): (r: int)
    requires i <= |s|
    ensures r == -1 || (i <= r && OccursAt(s, sub, r))
    ensures forall j :: i <= j && (r == -1 || j < r) ==> !OccursAt(s, sub, j)
    decreases |s| - i
  {
    if OccursAt(s, sub, i) then i
    else if i == |s| then -1
    else FindFrom(s, sub, i + 1)
  }

  /** `s.find(sub)`: the first index at which `sub` occurs, or -1 when it does not occur. */
  function Find(s: string, sub: string): (r: int)
    ensures r == -1 <==> !Contains(s, sub)
    ensures r != -1 ==> OccursAt(s, sub, r) && forall j :: 0 <= j < r ==> !OccursAt(s, sub, j)
  {
    FindFrom(s, sub, 0)
  }

  /** `s.find(c)` for one character, with `|s|` standing for "not found". */
  function FindChar(s: string, c: char): (k: nat)
    ensures k <= |s| && (k < |s| ==> s[k] == c)
    ensures forall m :: 0 <= m < k ==> s[m] != c
    decreases |s|
  {
    if s == [] || s[0] == c then 0 else 1 + FindChar(s[1..], c)
  }

  /** `s.count(sub)` (also `len(re.findall(sub, s))` for a pattern without metacharacters):
      non-overlapping occurrences, scanning left to right. */
  function Count(s: string, sub: string): nat
    requires |sub| > 0
    decreases |s|
  {
    if |s| < |sub| then 0
    else if s[..|sub|] == sub then 1 + Count(s[|sub|..], sub)
    else Count(s[1..], sub)
  }

  lemma {:induction false} SliceOfSlice(s: string, a: nat, b: nat, i: nat, j: nat)
    requires a <= b <= |s| && i <= j <= b - a
    ensures s[a..b][i..j] == s[a + i..a + j]
  {
    assert |s[a..b][i..j]| == |s[a + i..a + j]|;
    forall k | 0 <= k < j - i
      ensures s[a..b][i..j][k] == s[a + i..a + j][k]
    {
    }
  }

  lemma {:induction false} OccursShift(s: string, sub: string, k: nat, i: int)
    requires k <= |s|
    requires OccursAt(s[k..], sub, i)
    ensures OccursAt(s, sub, i + k)
  {
    SliceOfSlice(s, k, |s|, i, i + |sub|);
  }

  /** A non-overlapping count is positive exactly when the pattern occurs at all. */
  lemma {:induction false} CountPositiveIffContains(s: string, sub: string)
    requires |sub| > 0
    ensures Count(s, sub) > 0 <==> Contains(s, sub)
    decreases |s|
  {
    if |s| < |sub| {
      forall i | 0 <= i <= |s|
        ensures !OccursAt(s, sub, i)
      {
      }
    } else if s[..|sub|] == sub {
      assert OccursAt(s, sub, 0);
    } else {
      CountPositiveIffContains(s[1..], sub);
      if Contains(s[1..], sub) {
        var i :| 0 <= i <= |s[1..]| && OccursAt(s[1..], sub, i);
        OccursShift(s, sub, 1, i);
      }
      forall i | 1 <= i <= |s| && OccursAt(s, sub, i)
        ensures OccursAt(s[1..], sub, i - 1)
      {
        SliceOfSlice(s, 1, |s|, i - 1, i - 1 + |sub|);
      }
      assert !OccursAt(s, sub, 0);
    }
  }

  /** A character of the pattern that does not occur in `s` rules the pattern out. */
  lemma {:induction false} AbsentCharNotContained(s: string, sub: string, c: char)
    requires c in sub && c !in s
    ensures !Contains(s, sub)
  {
    var k :| 0 <= k < |sub| && sub[k] == c;
    forall i | 0 <= i <= |s|
      ensures !OccursAt(s, sub, i)
    {
      if i + |sub| <= |s| {
        assert s[i + k] != c;
        assert s[i..i + |sub|][k] != sub[k];
      }
    }
  }

  /** An occurrence inside a slice is an occurrence in the whole string. */
  lemma {:induction false} ContainsSlice(s: string, sub: string, a: nat, b: nat)
    requires a <= b <= |s|
    requires Contains(s[a..b], sub)
    ensures Contains(s, sub)
  {
    var i :| 0 <= i <= |s[a..b]| && OccursAt(s[a..b], sub, i);
    SliceOfSlice(s, a, b, i, i + |sub|);
    assert OccursAt(s, sub, a + i);
  }

  lemma {:induction false} ContainsPart(a: string, b: string, sub: string)
    ensures Contains(a, sub) ==> Contains(a + b, sub)
    ensures Contains(b, sub) ==> Contains(a + b, sub)
  {
    if Contains(a, sub) {
      assert (a + b)[0..|a|] == a;
      ContainsSlice(a + b, sub, 0, |a|);
    }
    if Contains(b, sub) {
      assert (a + b)[|a|..|a| + |b|] == b;
      ContainsSlice(a + b, sub, |a|, |a| + |b|);
    }
  }

  /** No occurrence crosses the seam of `a + b` when a character next to the seam is not in the pattern. */
  lemma {:induction false} NotContainsConcat(a: string, b: string, sub: string)
    requires |sub| > 0
    requires !Contains(a, sub) && !Contains(b, sub)
    requires (a != [] && a[|a| - 1] !in sub) || (b != [] && b[0] !in sub)
    ensures !Contains(a + b, sub)
  {
    var s := a + b;
    forall i | 0 <= i <= |s|
      ensures !OccursAt(s, sub, i)
    {
      if i + |sub| <= |s| {
        if i + |sub| <= |a| {
          assert s[i..i + |sub|] == a[i..i + |sub|];
          assert !OccursAt(a, sub, i);
        } else if i >= |a| {
          assert s[i..i + |sub|] == b[i - |a|..i - |a| + |sub|];
          assert !OccursAt(b, sub, i - |a|);
        } else if a != [] && a[|a| - 1] !in sub {
          assert s[i..i + |sub|][|a| - 1 - i] == s[|a| - 1];
          assert s[|a| - 1] !in sub;
        } else {
          assert s[i..i + |sub|][|a| - i] == s[|a|];
          assert s[|a|] !in sub;
        }
      }
    }
  }

  lemma {:induction false} CountNotContained(s: string, sub: string)
    requires |sub| > 0 && !Contains(s, sub)
    ensures Count(s, sub) == 0
  {
    CountPositiveIffContains(s, sub);
  }

  /** Counting is additive across a separator character that the pattern does not contain. */
  lemma {:induction false} CountAcrossSeparator(a: string, c: char, b: string, sub: string)
    requires |sub| > 0 && c !in sub
    ensures Count(a + [c] + b, sub) == Count(a, sub) + Count(b, sub)
    decreases |a|
  {
    var s := a + [c] + b;
    if |s| < |sub| {
      CountShort(a, sub);
      CountShort(b, sub);
    } else if |a| < |sub| {
      assert sub[|a|] in sub;
      assert s[..|sub|][|a|] == c;
      assert s[..|sub|] != sub;
      CountShort(a, sub);
      if a == [] {
        assert s[1..] == b;
      } else {
        assert s[1..] == a[1..] + [c] + b;
        CountAcrossSeparator(a[1..], c, b, sub);
        CountShort(a[1..], sub);
      }
    } else if s[..|sub|] == sub {
      assert s[..|sub|] == a[..|sub|];
      assert s[|sub|..] == a[|sub|..] + [c] + b;
      CountAcrossSeparator(a[|sub|..], c, b, sub);
    } else {
      assert s[1..] == a[1..] + [c] + b;
      CountAcrossSeparator(a[1..], c, b, sub);
      assert a[..|sub|] == s[..|sub|];
    }
  }

  lemma {:induction false} CountShort(s: string, sub: string)
    requires |sub| > 0 && |s| < |sub|
    ensures Count(s, sub) == 0
  {
  }

  lemma {:induction false} CountPrefix(sub: string, rest: string)
    requires |sub| > 0
    ensures Count(sub + rest, sub) == 1 + Count(rest, sub)
  {
    assert (sub + rest)[..|sub|] == sub;
    assert (sub + rest)[|sub|..] == rest;
  }

  /** A text that starts with the pattern and continues with two parts that lack it, joined at a character the
      pattern does not hold, contains the pattern exactly once. */
  lemma {:induction false} PrefixOnce(sub: string, a: string, b: string)
    requires |sub| > 0 && !Contains(a, sub) && !Contains(b, sub)
    requires a != [] && a[|a| - 1] !in sub
    ensures Count(sub + (a + b), sub) == 1
  {
    NotContainsConcat(a, b, sub);
    CountNotContained(a + b, sub);
    CountPrefix(sub, a + b);
  }

  /** Counting over lines joined by a separator character the pattern does not contain adds up the lines. */
  function SumCounts(lines: seq<string>, sub: string): nat
    requires |sub| > 0
    decreases |lines|
  {
    if lines == [] then 0 else Count(lines[0], sub) + SumCounts(lines[1..], sub)
  }

  lemma {:induction false} CountJoin(c: char, lines: seq<string>, sub: string)
    requires |sub| > 0 && c !in sub
    ensures Count(Join([c], lines), sub) == SumCounts(lines, sub)
    decreases |lines|
  {
    if |lines| > 1 {
      CountJoin(c, lines[1..], sub);
      CountAcrossSeparator(lines[0], c, Join([c], lines[1..]), sub);
      assert SumCounts(lines[1..], sub) == Count(Join([c], lines[1..]), sub);
    } else if |lines| == 1 {
      assert SumCounts(lines[1..], sub) == 0;
    }
  }

  lemma {:induction false} NoCountsSum(lines: seq<string>, sub: string)
    requires |sub| > 0
    requires forall i :: 0 <= i < |lines| ==> Count(lines[i], sub) == 0
    ensures SumCounts(lines, sub) == 0
    decreases |lines|
  {
    if lines != [] {
      NoCountsSum(lines[1..], sub);
      assert Count(lines[0], sub) == 0;
    }
  }

  lemma {:induction false} OneEachSum(lines: seq<string>, sub: string)
    requires |sub| > 0
    requires forall i :: 0 <= i < |lines| ==> Count(lines[i], sub) == 1
    ensures SumCounts(lines, sub) == |lines|
    decreases |lines|
  {
    if lines != [] {
      OneEachSum(lines[1..], sub);
      assert Count(lines[0], sub) == 1;
    }
  }

  lemma {:induction false} SumCountsAppend(xs: seq<string>, ys: seq<string>, sub: string)
    requires |sub| > 0
    ensures SumCounts(xs + ys, sub) == SumCounts(xs, sub) + SumCounts(ys, sub)
    decreases |xs|
  {
    if xs != [] {
      assert (xs + ys)[0] == xs[0];
      assert (xs + ys)[1..] == xs[1..] + ys;
      SumCountsAppend(xs[1..], ys, sub);
    } else {
      assert xs + ys == ys;
    }
  }

  /** A line of a joined text that contains the pattern makes the whole text contain it. */
  lemma {:induction false} ContainsJoin(sep: string, lines: seq<string>, k: nat, sub: string)
    requires k < |lines| && Contains(lines[k], sub)
    ensures Contains(Join(sep, lines), sub)
    decreases |lines|
  {
    if |lines| > 1 {
      var rest := Join(sep, lines[1..]);
      if k == 0 {
        ContainsPart(lines[0], sep + rest, sub);
        assert lines[0] + sep + rest == lines[0] + (sep + rest);
      } else {
        ContainsJoin(sep, lines[1..], k - 1, sub);
        ContainsPart(lines[0] + sep, rest, sub);
      }
    }
  }

  // ---------------------------------------------------------------------------
  // replace
  // ---------------------------------------------------------------------------

  /** `s.replace(pat, rep)` for a non-empty `pat`: every non-overlapping occurrence, leftmost first, is replaced. */
  function Replace(s: string, pat: string, rep: string): string
    requires |pat| > 0
    decreases |s|
  {
    if |s| < |pat| then s
    else if s[..|pat|] == pat then rep + Replace(s[|pat|..], pat, rep)
    else [s[0]] + Replace(s[1..], pat, rep)
  }

  /** `s.split(sep)` for a non-empty `sep`: the pieces between the non-overlapping occurrences of `sep`. */
  function SplitOn(s: string, sep: string): (pieces: seq<string>)
    requires |sep| > 0
    ensures |pieces| > 0
    decreases |s|
  {
    if |s| < |sep| then [s]
    else if s[..|sep|] == sep then [[]] + SplitOn(s[|sep|..], sep)
    else
      var rest := SplitOn(s[1..], sep);
      [[s[0]] + rest[0]] + rest[1..]
  }

  lemma {:induction false} JoinConsFirst(sep: string, c: char, pieces: seq<string>)
    requires |pieces| > 0
    ensures Join(sep, [[c] + pieces[0]] + pieces[1..]) == [c] + Join(sep, pieces)
  {
    var q := [[c] + pieces[0]] + pieces[1..];
    if |pieces| > 1 {
      assert q[1..] == pieces[1..];
    }
  }

  /** Joining the pieces of a split that starts with an occurrence of the separator. */
  lemma {:induction false} JoinSplitOnMatch(s: string, pat: string, sep: string)
    requires 0 < |pat| <= |s| && s[..|pat|] == pat
    ensures Join(sep, SplitOn(s, pat)) == sep + Join(sep, SplitOn(s[|pat|..], pat))
  {
    var rest := SplitOn(s[|pat|..], pat);
    var ps := [[]] + rest;
    assert SplitOn(s, pat) == ps;
    assert ps[1..] == rest;
    assert Join(sep, ps) == [] + sep + Join(sep, rest);
  }

  /** Joining the pieces of a split that starts with a character outside an occurrence. */
  lemma {:induction false} JoinSplitOnSkip(s: string, pat: string, sep: string)
    requires 0 < |pat| <= |s| && s[..|pat|] != pat
    ensures Join(sep, SplitOn(s, pat)) == [s[0]] + Join(sep, SplitOn(s[1..], pat))
  {
    var rest := SplitOn(s[1..], pat);
    assert SplitOn(s, pat) == [[s[0]] + rest[0]] + rest[1..];
    JoinConsFirst(sep, s[0], rest);
  }

  /** `pat.join(s.split(pat)) == s`. */
  lemma {:induction false} SplitOnJoinBack(s: string, pat: string)
    requires |pat| > 0
    ensures Join(pat, SplitOn(s, pat)) == s
    decreases |s|
  {
    if |s| < |pat| {
    } else if s[..|pat|] == pat {
      JoinSplitOnMatch(s, pat, pat);
      SplitOnJoinBack(s[|pat|..], pat);
      assert s == pat + s[|pat|..];
    } else {
      JoinSplitOnSkip(s, pat, pat);
      SplitOnJoinBack(s[1..], pat);
      assert s == [s[0]] + s[1..];
    }
  }

  /** `s.replace(pat, rep) == rep.join(s.split(pat))`. */
  lemma {:induction false} ReplaceJoinsPieces(s: string, pat: string, rep: string)
    requires |pat| > 0
    ensures Replace(s, pat, rep) == Join(rep, SplitOn(s, pat))
    decreases |s|
  {
    if |s| < |pat| {
    } else if s[..|pat|] == pat {
      JoinSplitOnMatch(s, pat, rep);
      ReplaceJoinsPieces(s[|pat|..], pat, rep);
    } else {
      JoinSplitOnSkip(s, pat, rep);
      ReplaceJoinsPieces(s[1..], pat, rep);
    }
  }

  /** No piece but the last, topped up with a proper prefix of the separator, starts with the separator. */
  lemma {:induction false} SplitOnPiecesClean(s: string, pat: string)
    requires |pat| > 0
    ensures forall k :: 0 <= k < |SplitOn(s, pat)| ==> !StartsWith(SplitOn(s, pat)[k] + pat[..|pat| - 1], pat) || k == |SplitOn(s, pat)| - 1
    decreases |s|
  {
    if |s| < |pat| {
    } else if s[..|pat|] == pat {
      var rest := SplitOn(s[|pat|..], pat);
      SplitOnPiecesClean(s[|pat|..], pat);
      var ps := [[]] + rest;
      assert SplitOn(s, pat) == ps;
      forall k | 0 <= k < |ps| && k != |ps| - 1
        ensures !StartsWith(ps[k] + pat[..|pat| - 1], pat)
      {
        if k > 0 {
          assert ps[k] == rest[k - 1];
        }
      }
    } else {
      var rest := SplitOn(s[1..], pat);
      SplitOnPiecesClean(s[1..], pat);
      var ps := [[s[0]] + rest[0]] + rest[1..];
      assert SplitOn(s, pat) == ps;
      forall k | 0 <= k < |ps| && k != |ps| - 1
        ensures !StartsWith(ps[k] + pat[..|pat| - 1], pat)
      {
        if k > 0 {
          assert ps[k] == rest[k];
        } else {
          FirstPieceNotPattern(s, pat);
        }
      }
    }
  }

  /** Python's identity `s.replace(pat, rep) == rep.join(s.split(pat))`, together with
      `pat.join(s.split(pat)) == s`: the text between occurrences is kept and each occurrence becomes `rep`. */
  lemma {:induction false} ReplaceIsJoinOfSplit(s: string, pat: string, rep: string)
    requires |pat| > 0
    ensures Join(pat, SplitOn(s, pat)) == s
    ensures Replace(s, pat, rep) == Join(rep, SplitOn(s, pat))
    ensures forall k :: 0 <= k < |SplitOn(s, pat)| ==> !StartsWith(SplitOn(s, pat)[k] + pat[..|pat| - 1], pat) || k == |SplitOn(s, pat)| - 1
  {
    SplitOnJoinBack(s, pat);
    ReplaceJoinsPieces(s, pat, rep);
    SplitOnPiecesClean(s, pat);
  }

  /** The first piece of a split that starts with a non-occurrence, topped up with a proper prefix of the
      separator, does not start with the separator: pieces never hide an occurrence. */
  lemma {:induction false} FirstPieceNotPattern(s: string, pat: string)
    requires |pat| > 0 && |s| >= |pat| && s[..|pat|] != pat && |SplitOn(s[1..], pat)| > 1
    ensures !StartsWith([s[0]] + SplitOn(s[1..], pat)[0] + pat[..|pat| - 1], pat)
  {
    var rest := SplitOn(s[1..], pat);
    FirstPieceFollowedByOld(s[1..], pat);
    var p := rest[0];
    assert StartsWith(s[1..][|p|..], pat);
    var L := |pat|;
    var q := [s[0]] + p + pat[..L - 1];
    forall m | 0 <= m < L
      ensures q[m] == s[m]
    {
      if m == 0 {
      } else if m <= |p| {
        assert q[m] == p[m - 1];
        assert s[1..][..|p|][m - 1] == s[m];
      } else {
        assert q[m] == pat[m - |p| - 1];
        assert s[m] == s[1..][|p|..][m - |p| - 1];
      }
    }
    assert q[..L] == s[..L];
  }

  /** When `s.split(sep)` has more than one piece, the first piece is followed by `sep`. */
  lemma {:induction false} FirstPieceFollowedByOld(s: string, sep: string)
    requires |sep| > 0 && |SplitOn(s, sep)| > 1
    ensures |SplitOn(s, sep)[0]| + |sep| <= |s|
    ensures s[..|SplitOn(s, sep)[0]|] == SplitOn(s, sep)[0]
    ensures StartsWith(s[|SplitOn(s, sep)[0]|..], sep)
    decreases |s|
  {
    if |s| < |sep| {
    } else if s[..|sep|] == sep {
    } else {
      FirstPieceFollowedByOld(s[1..], sep);
    }
  }

  /** A string without the separator is a single piece. */
  lemma {:induction false} SplitOnAbsent(s: string, sep: string)
    requires |sep| > 0 && !Contains(s, sep)
    ensures SplitOn(s, sep) == [s]
    decreases |s|
  {
    if |s| >= |sep| {
      assert !OccursAt(s, sep, 0);
      if Contains(s[1..], sep) {
        var i :| OccursAt(s[1..], sep, i);
        OccursShift(s, sep, 1, i);
      }
      SplitOnAbsent(s[1..], sep);
      assert [s[0]] + s[1..] == s;
    }
  }

  /** A first piece in which no occurrence of the separator starts is split off whole. */
  lemma {:induction false} SplitOnCons(a: string, sep: string, rest: string)
    requires |sep| > 0
    requires forall i :: 0 <= i < |a| ==> !OccursAt(a + sep + rest, sep, i)
    ensures SplitOn(a + sep + rest, sep) == [a] + SplitOn(rest, sep)
    decreases |a|
  {
    var s := a + sep + rest;
    if a == [] {
      assert s == sep + rest;
      assert s[..|sep|] == sep && s[|sep|..] == rest;
    } else {
      assert !OccursAt(s, sep, 0);
      var t := a[1..] + sep + rest;
      assert s[1..] == t;
      forall i | 0 <= i < |a[1..]|
        ensures !OccursAt(t, sep, i)
      {
        if OccursAt(t, sep, i) {
          OccursShift(s, sep, 1, i);
        }
      }
      SplitOnCons(a[1..], sep, rest);
      assert [a[0]] + a[1..] == a;
    }
  }

  /** `"; ".join(ms).split("; ")` gives back a non-empty list whose items lack "; ". */
  lemma {:induction false} SplitOnJoin(ms: seq<string>)
    requires |ms| > 0 && forall k :: 0 <= k < |ms| ==> !Contains(ms[k], "; ")
    ensures SplitOn(Join("; ", ms), "; ") == ms
    decreases |ms|
  {
    if |ms| == 1 {
      SplitOnAbsent(ms[0], "; ");
    } else {
      var a, rest := ms[0], Join("; ", ms[1..]);
      var s := a + "; " + rest;
      forall i | 0 <= i < |a|
        ensures !OccursAt(s, "; ", i)
      {
        if i + 2 <= |a| {
          assert s[i..i + 2] == a[i..i + 2];
          assert !OccursAt(a, "; ", i);
        } else {
          assert s[i + 1] == ';';
        }
      }
      SplitOnCons(a, "; ", rest);
      assert forall k :: 0 <= k < |ms[1..]| ==> ms[1..][k] == ms[k + 1];
      SplitOnJoin(ms[1..]);
      assert ms == [a] + ms[1..];
    }
  }

  /** Each replacement changes the length by `|rep| - |pat|`. */
  lemma MulSucc(c: int, d: int)
    ensures (1 + c) * d == d + c * d
  {
  }

  lemma {:induction false} ReplaceLength(s: string, pat: string, rep: string)
    requires |pat| > 0
    ensures |Replace(s, pat, rep)| == |s| + Count(s, pat) * (|rep| - |pat|)
    decreases |s|
  {
    if |s| < |pat| {
    } else if s[..|pat|] == pat {
      ReplaceLength(s[|pat|..], pat, rep);
      MulSucc(Count(s[|pat|..], pat), |rep| - |pat|);
    } else {
      ReplaceLength(s[1..], pat, rep);
    }
  }

  /** Replacing a pattern that does not occur changes nothing. */
  lemma {:induction false} ReplaceAbsent(s: string, pat: string, rep: string)
    requires |pat| > 0 && !Contains(s, pat)
    ensures Replace(s, pat, rep) == s
    decreases |s|
  {
    if |s| >= |pat| {
      assert !OccursAt(s, pat, 0);
      if Contains(s[1..], pat) {
        var i :| OccursAt(s[1..], pat, i);
        OccursShift(s, pat, 1, i);
      }
      ReplaceAbsent(s[1..], pat, rep);
    }
  }

  /** Replacing one character by a string, character by character. */
  function ReplaceChar(s: string, c: char, r: string): string
    decreases |s|
  {
    if s == [] then [] else (if s[0] == c then r else [s[0]]) + ReplaceChar(s[1..], c, r)
  }

  lemma {:induction false} ReplaceSingleChar(s: string, c: char, r: string)
    ensures Replace(s, [c], r) == ReplaceChar(s, c, r)
    decreases |s|
  {
    if s != [] {
      ReplaceSingleChar(s[1..], c, r);
      assert s[..1] == [s[0]];
      assert s[1..] == s[|[c]|..];
    }
  }

  /** How many times the character `c` occurs in `s`. */
  function Occurrences(s: string, c: char): nat
    decreases |s|
  {
    if s == [] then 0 else (if s[0] == c then 1 else 0) + Occurrences(s[1..], c)
  }

  lemma {:induction false} CountSingleChar(s: string, c: char)
    ensures Count(s, [c]) == Occurrences(s, c)
    decreases |s|
  {
    if s != [] {
      CountSingleChar(s[1..], c);
      assert s[..1] == [s[0]];
      assert s[1..] == s[|[c]|..];
    }
  }

  // ---------------------------------------------------------------------------
  // str(n) for a natural number
  // ---------------------------------------------------------------------------

  predicate IsDigit(c: char) {
    '0' <= c <= '9'
  }

  function DigitChar(d: nat): (c: char)
    requires d < 10
    ensures IsDigit(c)
  {
    ('0' as int + d) as char
  }

  /** `str(n)`: the decimal numeral of `n`, without leading zeros. */
  function Decimal(n: nat): (r: string)
    ensures |r| > 0 && forall i :: 0 <= i < |r| ==> IsDigit(r[i])
  {
    if n < 10 then [DigitChar(n)] else Decimal(n / 10) + [DigitChar(n % 10)]
  }

  /** Reads back a string of digits. */
  function DigitsValue(s: string): nat
    requires forall i :: 0 <= i < |s| ==> IsDigit(s[i])
    decreases |s|
  {
    if s == [] then 0
    else
      assert IsDigit(s[|s| - 1]);
      DigitsValue(s[..|s| - 1]) * 10 + (s[|s| - 1] as int - '0' as int)
  }

  lemma {:induction false} DecimalRoundTrip(n: nat)
    ensures DigitsValue(Decimal(n)) == n
  {
    if n >= 10 {
      DecimalRoundTrip(n / 10);
      var r := Decimal(n);
      assert r[..|r| - 1] == Decimal(n / 10);
    }
  }
}
