/** Sequence helpers shared by the phrase scripts: first-seen de-duplication and first positions. */
module SeqUtil {

  /** The elements of `xs` with later repeats dropped, in first-seen order: what a loop builds that appends
      each value not yet recorded in a `seen` set. */
  function Distinct<T(==)>(xs: seq<T>): seq<T>
    decreases |xs|
  {
    if xs == [] then []
    else
      var d := Distinct(xs[..|xs| - 1]);
      if xs[|xs| - 1] in d then d else d + [xs[|xs| - 1]]
  }

  predicate NoDuplicates<T(==)>(s: seq<T>) {
    forall i, j :: 0 <= i < j < |s| ==> s[i] != s[j]
  }

  lemma {:induction false} PrefixSnoc<T>(a: seq<T>, b: seq<T>, j: nat)
    requires j < |b|
    ensures a + b[..j + 1] == (a + b[..j]) + [b[j]]
  {
    assert b[..j + 1] == b[..j] + [b[j]];
  }

  lemma {:induction false} TakeSnoc<T>(s: seq<T>, i: nat)
    requires i < |s|
    ensures s[..i + 1] == s[..i] + [s[i]]
  {
  }

  lemma {:induction false} TakeTake<T>(s: seq<T>, i: nat)
    requires i < |s|
    ensures s[..i + 1][..i] == s[..i]
  {
  }

  lemma {:induction false} TakeAll<T>(s: seq<T>)
    ensures s[..|s|] == s
  {
  }

  lemma {:induction false} SplitLast<T>(s: seq<T>)
    requires s != []
    ensures s == s[..|s| - 1] + [s[|s| - 1]]
  {
  }

  /** Writing element i of `done + rest[i..]`, where `done` holds the first i elements, extends `done`. */
  lemma {:induction false} SpliceAt<T>(done: seq<T>, rest: seq<T>, i: nat)
    requires |done| == i < |rest|
    ensures (done + rest[i..])[i] == rest[i]
    ensures forall v :: (done + rest[i..])[i := v] == (done + [v]) + rest[i + 1..]
    ensures done + rest[i..] == (done + [rest[i]]) + rest[i + 1..]
  {
    forall v
      ensures (done + rest[i..])[i := v] == (done + [v]) + rest[i + 1..]
    {
      assert |(done + rest[i..])[i := v]| == |(done + [v]) + rest[i + 1..]|;
    }
    assert (done + rest[i..])[i := rest[i]] == done + rest[i..];
  }

  /** The position of the first `x` in `xs`. */
  function FirstIndex<T(==)>(xs: seq<T>, x: T): (k: nat)
    requires x in xs
    ensures k < |xs| && xs[k] == x
    ensures forall j :: 0 <= j < k ==> xs[j] != x
  {
    if xs[0] == x then 0 else 1 + FirstIndex(xs[1..], x)
  }

  /** One more step of the first-seen loop. */
  lemma {:induction false} DistinctSnoc<T>(xs: seq<T>, x: T)
    ensures Distinct(xs + [x]) == if x in Distinct(xs) then Distinct(xs) else Distinct(xs) + [x]
  {
    assert (xs + [x])[..|xs|] == xs;
  }

  /** De-duplication keeps exactly the values of the input. */
  lemma {:induction false} DistinctElements<T>(xs: seq<T>)
    ensures forall x :: x in Distinct(xs) <==> x in xs
    decreases |xs|
  {
    if xs != [] {
      var ys := xs[..|xs| - 1];
      DistinctElements(ys);
      assert xs == ys + [xs[|xs| - 1]];
    }
  }

  /** De-duplication leaves no value twice. */
  lemma {:induction false} DistinctNoDuplicates<T>(xs: seq<T>)
    ensures NoDuplicates(Distinct(xs))
    decreases |xs|
  {
    if xs != [] {
      DistinctNoDuplicates(xs[..|xs| - 1]);
    }
  }

  /** A sequence without repeats is its own de-duplication. */
  lemma {:induction false} DistinctOfNoDuplicates<T>(xs: seq<T>)
    requires NoDuplicates(xs)
    ensures Distinct(xs) == xs
    decreases |xs|
  {
    if xs != [] {
      var ys := xs[..|xs| - 1];
      assert NoDuplicates(ys);
      DistinctOfNoDuplicates(ys);
      assert xs[|xs| - 1] !in ys;
    }
  }

  lemma {:induction false} FirstIndexSnoc<T>(ys: seq<T>, x: T, e: T)
    requires e in ys
    ensures FirstIndex(ys + [x], e) == FirstIndex(ys, e)
    decreases |ys|
  {
    if ys[0] != e {
      assert (ys + [x])[1..] == ys[1..] + [x];
      FirstIndexSnoc(ys[1..], x, e);
    }
  }

  lemma DistinctMember<T>(xs: seq<T>, i: nat)
    requires i < |Distinct(xs)|
    ensures Distinct(xs)[i] in xs
  {
    DistinctElements(xs);
    assert Distinct(xs)[i] in Distinct(xs);
  }

  /** De-duplication lists the values in the order of their first appearance. */
  lemma {:induction false} DistinctFirstSeenOrder<T>(xs: seq<T>)
    ensures forall i, j :: 0 <= i < j < |Distinct(xs)| ==>
      Distinct(xs)[i] in xs && Distinct(xs)[j] in xs && FirstIndex(xs, Distinct(xs)[i]) < FirstIndex(xs, Distinct(xs)[j])
    decreases |xs|
  {
    DistinctElements(xs);
    if xs != [] {
      var ys, x := xs[..|xs| - 1], xs[|xs| - 1];
      assert xs == ys + [x];
      DistinctFirstSeenOrder(ys);
      DistinctElements(ys);
      var d0 := Distinct(ys);
      var d := Distinct(xs);
      DistinctSnoc(ys, x);
      assert d == if x in d0 then d0 else d0 + [x];
      forall i, j | 0 <= i < j < |d|
        ensures d[i] in xs && d[j] in xs && FirstIndex(xs, d[i]) < FirstIndex(xs, d[j])
      {
        assert d[i] == d0[i];
        DistinctMember(ys, i);
        FirstIndexSnoc(ys, x, d[i]);
        if j < |d0| {
          assert d[j] == d0[j];
          DistinctMember(ys, j);
          FirstIndexSnoc(ys, x, d[j]);
        } else {
          assert d[j] == x && x !in ys;
          assert FirstIndex(xs, x) == |ys|;
        }
      }
      assert d == Distinct(xs);
      assert forall i, j :: 0 <= i < j < |d| ==> FirstIndex(xs, d[i]) < FirstIndex(xs, d[j]);
    } else {
      assert Distinct(xs) == [];
    }
  }

  lemma {:induction false} MiddleAt<T>(a: seq<T>, b: seq<T>, c: seq<T>, i: nat)
    requires i < |b|
    ensures (a + b + c)[|a| + i] == b[i]
  {
  }

  lemma {:induction false} AfterMiddle<T>(a: seq<T>, b: seq<T>, c: seq<T>, i: nat)
    requires i < |c|
    ensures (a + b + c)[|a| + |b| + i] == c[i]
  {
  }
}
