/** Strict total orders given by a `less` function, and the sorted arrangement of a set,
    which is unique. */
module Ordering {
  import opened Common

  /** `less` is a strict total order on the elements of S. */
  ghost predicate StrictTotal<T>(less: (T, T) -> bool, S: set<T>) {
    && (forall a | a in S :: !less(a, a))
    && (forall a, b | a in S && b in S && a != b :: less(a, b) || less(b, a))
    && (forall a, b, c | a in S && b in S && c in S && less(a, b) && less(b, c) :: less(a, c))
  }

  predicate Increases<T>(less: (T, T) -> bool, s: seq<T>) {
    forall i, j | 0 <= i < j < |s| :: less(s[i], s[j])
  }

  ghost predicate Lists<T>(s: seq<T>, S: set<T>) {
    (forall x | x in s :: x in S) && (forall x | x in S :: x in s)
  }

  /** `s` is the sorted arrangement of S. */
  ghost predicate Arranges<T>(less: (T, T) -> bool, s: seq<T>, S: set<T>) {
    Increases(less, s) && Lists(s, S)
  }

  lemma IncreasesNoDup<T>(less: (T, T) -> bool, s: seq<T>, S: set<T>)
    requires StrictTotal(less, S) && Arranges(less, s, S)
    ensures NoDup(s)
  {
  }

  /** A prefix of one arrangement that precedes everything else is a prefix of the other. */
  lemma {:induction false} SamePrefix<T>(less: (T, T) -> bool, a: seq<T>, A: set<T>, b: seq<T>, B: set<T>, n: nat)
    requires StrictTotal(less, B) && Arranges(less, a, A) && Arranges(less, b, B) && A <= B
    requires forall x, y | x in A && y in B && y !in A :: less(x, y)
    requires n <= |a| && n <= |b|
    ensures a[..n] == b[..n]
  {
    if n > 0 {
      SamePrefix(less, a, A, b, B, n - 1);
      assert forall i | 0 <= i < n - 1 :: a[i] == a[..n - 1][i] == b[..n - 1][i] == b[i];
      SameNext(less, a, A, b, B, n - 1);
      TakeSnoc(a, n - 1);
      TakeSnoc(b, n - 1);
    }
  }

  lemma SameNext<T>(less: (T, T) -> bool, a: seq<T>, A: set<T>, b: seq<T>, B: set<T>, k: nat)
    requires StrictTotal(less, B) && Arranges(less, a, A) && Arranges(less, b, B) && A <= B
    requires forall x, y | x in A && y in B && y !in A :: less(x, y)
    requires k < |a| && k < |b| && forall i | 0 <= i < k :: a[i] == b[i]
    ensures a[k] == b[k]
  {
    assert a[k] in A && b[k] in B;
  }

  lemma {:induction false} ListSize<T>(s: seq<T>, S: set<T>)
    requires NoDup(s) && Lists(s, S)
    ensures |s| == |S|
  {
    if s != [] {
      var init, last := s[..|s| - 1], s[|s| - 1];
      assert s == init + [last];
      assert last !in init;
      ListSize(init, S - {last});
    }
  }

  /** There is one sorted arrangement. */
  lemma OneArrangement<T>(less: (T, T) -> bool, a: seq<T>, b: seq<T>, S: set<T>)
    requires StrictTotal(less, S) && Arranges(less, a, S) && Arranges(less, b, S)
    ensures a == b
  {
    IncreasesNoDup(less, a, S);
    IncreasesNoDup(less, b, S);
    ListSize(a, S);
    ListSize(b, S);
    SamePrefix(less, a, S, b, S, |a|);
    TakeAll(a);
    TakeAll(b);
  }

  /** The place of `x` in a sorted sequence that does not hold it. */
  method Position<T(==)>(less: (T, T) -> bool, s: seq<T>, x: T, ghost S: set<T>) returns (k: nat)
    requires StrictTotal(less, S) && Increases(less, s) && x in S && x !in s && forall y | y in s :: y in S
    ensures k <= |s| && (forall j | 0 <= j < k :: less(s[j], x)) && (forall j | k <= j < |s| :: less(x, s[j]))
  {
    k := 0;
    while k < |s| && less(s[k], x)
      invariant 0 <= k <= |s| && forall j | 0 <= j < k :: less(s[j], x)
    {
      k := k + 1;
    }
    forall j | k <= j < |s| ensures less(x, s[j]) {
      assert s[j] in s && s[k] in s;
    }
  }

  lemma InsertIncreases<T>(less: (T, T) -> bool, s: seq<T>, k: nat, x: T)
    requires k <= |s| && Increases(less, s)
    requires (forall j | 0 <= j < k :: less(s[j], x)) && (forall j | k <= j < |s| :: less(x, s[j]))
    ensures Increases(less, s[..k] + [x] + s[k..])
    ensures forall y :: y in s[..k] + [x] + s[k..] <==> y in s || y == x
  {
  }

  lemma {:induction false} PlaceExists<T>(less: (T, T) -> bool, s: seq<T>, x: T, S: set<T>) returns (k: nat)
    requires StrictTotal(less, S) && Increases(less, s) && x in S && x !in s && forall y | y in s :: y in S
    ensures k <= |s| && (forall j | 0 <= j < k :: less(s[j], x)) && (forall j | k <= j < |s| :: less(x, s[j]))
  {
    if s == [] || less(s[|s| - 1], x) {
      k := |s|;
    } else {
      k := PlaceExists(less, s[..|s| - 1], x, S);
      assert s[|s| - 1] in s;
    }
  }

  /** Every finite set has a sorted arrangement. */
  lemma {:induction false} Arrangement<T>(less: (T, T) -> bool, S: set<T>) returns (s: seq<T>)
    requires StrictTotal(less, S)
    ensures Arranges(less, s, S)
    decreases |S|
  {
    if S == {} {
      s := [];
    } else {
      var x :| x in S;
      var rest := Arrangement(less, S - {x});
      var k := PlaceExists(less, rest, x, S);
      InsertIncreases(less, rest, k, x);
      s := rest[..k] + [x] + rest[k..];
    }
  }

  /** sort.SliceStable under an order with no ties. */
  method SortBy<T(==)>(less: (T, T) -> bool, xs: seq<T>, ghost S: set<T>) returns (out: seq<T>)
    requires StrictTotal(less, S) && NoDup(xs) && Lists(xs, S)
    ensures Arranges(less, out, S) && |out| == |xs|
  {
    out := [];
    for i := 0 to |xs|
      invariant Increases(less, out) && |out| == i && forall x :: x in out <==> x in xs[..i]
    {
      TakeSnoc(xs, i);
      assert xs[i] !in xs[..i];
      var k := Position(less, out, xs[i], S);
      InsertIncreases(less, out, k, xs[i]);
      out := out[..k] + [xs[i]] + out[k..];
    }
    TakeAll(xs);
  }
}
