/** The bounded top-K buffer of an ordered, limited scan: a max-heap that retains the
    smallest rows seen. */
module TopK {
  import opened Common
  import opened Ordering

  function Parent(k: nat): nat
    requires k > 0
  {
    (k - 1) / 2
  }

  /** `a` is not above `b`. */
  predicate AtMost<T>(less: (T, T) -> bool, a: T, b: T) {
    !less(b, a)
  }

  /** No row is above its parent. */
  predicate IsHeap<T>(less: (T, T) -> bool, s: seq<T>) {
    forall k | 0 < k < |s| :: AtMost(less, s[k], s[Parent(k)])
  }

  /** A heap save that row j may be above its parent. */
  predicate UpAt<T>(less: (T, T) -> bool, s: seq<T>, j: nat) {
    && (forall k | 0 < k < |s| && k != j :: AtMost(less, s[k], s[Parent(k)]))
    && (forall k | 0 < k < |s| && Parent(k) == j && j > 0 :: AtMost(less, s[k], s[Parent(j)]))
  }

  /** A heap save that row i may be below its children. */
  predicate DownAt<T>(less: (T, T) -> bool, s: seq<T>, i: nat) {
    && (forall k | 0 < k < |s| && Parent(k) != i :: AtMost(less, s[k], s[Parent(k)]))
    && (forall k | 0 < k < |s| && Parent(k) == i && i > 0 :: AtMost(less, s[k], s[Parent(i)]))
  }

  ghost predicate Over<T>(less: (T, T) -> bool, s: seq<T>, S: set<T>) {
    StrictTotal(less, S) && forall x | x in s :: x in S
  }

  function Swapped<T>(s: seq<T>, i: nat, j: nat): (t: seq<T>)
    requires i < |s| && j < |s|
    ensures |t| == |s| && multiset(t) == multiset(s)
    ensures forall k | 0 <= k < |s| :: t[k] == if k == i then s[j] else if k == j then s[i] else s[k]
  {
    s[i := s[j]][j := s[i]]
  }

  lemma UpStep<T>(less: (T, T) -> bool, s: seq<T>, j: nat, S: set<T>)
    requires Over(less, s, S) && 0 < j < |s| && UpAt(less, s, j) && less(s[Parent(j)], s[j])
    ensures UpAt(less, Swapped(s, Parent(j), j), Parent(j))
  {
  }

  lemma DownStep<T>(less: (T, T) -> bool, s: seq<T>, i: nat, j: nat, S: set<T>)
    requires Over(less, s, S) && 0 < j < |s| && Parent(j) == i && DownAt(less, s, i) && less(s[i], s[j])
    requires forall k | 0 < k < |s| && Parent(k) == i :: AtMost(less, s[k], s[j])
    ensures DownAt(less, Swapped(s, i, j), j)
  {
  }

  lemma DownEnd<T>(less: (T, T) -> bool, s: seq<T>, i: nat, j: nat, S: set<T>)
    requires Over(less, s, S) && 0 < j < |s| && Parent(j) == i && DownAt(less, s, i) && AtMost(less, s[j], s[i])
    requires forall k | 0 < k < |s| && Parent(k) == i :: AtMost(less, s[k], s[j])
    ensures IsHeap(less, s)
  {
  }

  /** The root of a heap is its largest row. */
  lemma {:induction false} RootIsMax<T>(less: (T, T) -> bool, s: seq<T>, k: nat, S: set<T>)
    requires Over(less, s, S) && IsHeap(less, s) && k < |s|
    ensures AtMost(less, s[k], s[0])
  {
    assert s[k] in s && s[0] in s;
    if k > 0 {
      RootIsMax(less, s, Parent(k), S);
      assert s[Parent(k)] in s;
    }
  }

  /** container/heap's up, from position j. */
  method SiftUp<T(==)>(less: (T, T) -> bool, s: seq<T>, from: nat, ghost S: set<T>) returns (t: seq<T>)
    requires Over(less, s, S) && from < |s| && UpAt(less, s, from)
    ensures |t| == |s| && multiset(t) == multiset(s) && IsHeap(less, t)
  {
    hide StrictTotal;
    t := s;
    var j: nat := from;
    while true
      invariant j < |t| == |s| && multiset(t) == multiset(s) && Over(less, t, S) && UpAt(less, t, j)
      decreases j
    {
      var i := if j == 0 then 0 else Parent(j);
      if i == j || !less(t[i], t[j]) {
        return;
      }
      UpStep(less, t, j, S);
      SameElements(t, Swapped(t, i, j));
      t, j := Swapped(t, i, j), i;
    }
  }

  lemma SameElements<T>(s: seq<T>, t: seq<T>)
    requires multiset(s) == multiset(t)
    ensures forall x :: x in s <==> x in t
  {
    forall x ensures x in s <==> x in t {
      assert x in s <==> x in multiset(s);
      assert x in t <==> x in multiset(t);
    }
  }

  /** container/heap's down, from position i; tells whether the row moved. */
  method SiftDown<T(==)>(less: (T, T) -> bool, s: seq<T>, from: nat, ghost S: set<T>) returns (t: seq<T>, moved: bool)
    requires Over(less, s, S) && from < |s| && DownAt(less, s, from)
    ensures |t| == |s| && multiset(t) == multiset(s) && IsHeap(less, t)
  {
    hide StrictTotal, DownAt, IsHeap, AtMost;
    t := s;
    var i: nat := from;
    while true
      invariant i < |t| == |s| && multiset(t) == multiset(s) && Over(less, t, S) && DownAt(less, t, i)
      decreases |s| - i
    {
      var j1 := 2 * i + 1;
      if j1 >= |t| {
        NoChildren(less, t, i);
        return t, i > from;
      }
      var j := j1;
      if j1 + 1 < |t| && less(t[j1], t[j1 + 1]) {
        j := j1 + 1;
      }
      LargerChild(less, t, i, j, S);
      if !less(t[i], t[j]) {
        DownEnd(less, t, i, j, S);
        return t, i > from;
      }
      DownStep(less, t, i, j, S);
      SameElements(t, Swapped(t, i, j));
      t, i := Swapped(t, i, j), j;
    }
  }

  lemma NoChildren<T>(less: (T, T) -> bool, s: seq<T>, i: nat)
    requires DownAt(less, s, i) && 2 * i + 1 >= |s|
    ensures IsHeap(less, s)
  {
  }

  lemma LargerChild<T>(less: (T, T) -> bool, s: seq<T>, i: nat, j: nat, S: set<T>)
    requires Over(less, s, S) && (j == 2 * i + 1 || j == 2 * i + 2) && j < |s|
    requires j == 2 * i + 1 ==> 2 * i + 2 >= |s| || !less(s[2 * i + 1], s[2 * i + 2])
    requires j == 2 * i + 2 ==> less(s[2 * i + 1], s[2 * i + 2])
    ensures Parent(j) == i && forall k | 0 < k < |s| && Parent(k) == i :: AtMost(less, s[k], s[j])
  {
  }

  function Min(a: int, b: int): int { if a < b then a else b }

  /** The buffer holds the smallest min(cap, n) of the n rows seen. */
  ghost predicate Keeps<T>(less: (T, T) -> bool, buf: seq<T>, seen: set<T>, cap: int) {
    && NoDup(buf) && (forall x | x in buf :: x in seen)
    && |buf| == Min(if cap < 0 then 0 else cap, |seen|)
    && (forall x, y | x in buf && y in seen && y !in buf :: less(x, y))
  }

  class Buffer<T(==)> {
    const less: (T, T) -> bool
    const cap: int
    var buf: seq<T>
    ghost var seen: set<T>

    ghost predicate Valid(S: set<T>) reads this {
      Over(less, buf, S) && seen <= S && IsHeap(less, buf) && Keeps(less, buf, seen, cap)
    }

    constructor (less: (T, T) -> bool, cap: int, ghost S: set<T>)
      requires StrictTotal(less, S)
      ensures Valid(S) && seen == {} && this.less == less && this.cap == cap
    {
      this.less, this.cap, buf, seen := less, cap, [], {};
    }

    /** push: keep the row if there is room or it beats the largest row retained. */
    method Push(r: T, ghost S: set<T>)
      requires Valid(S) && r in S && r !in seen
      modifies this
      ensures Valid(S) && seen == old(seen) + {r}
    {
      ghost var was := buf;
      if cap <= 0 {
        seen := seen + {r};
        return;
      }
      if |buf| < cap {
        KeepsAll(less, buf, seen, cap, r);
        buf := SiftUp(less, buf + [r], |buf|, S);
        KeepsPermuted(less, was + [r], buf, seen + {r}, cap);
      } else if less(r, buf[0]) {
        ReplaceKeeps(less, buf, seen, cap, r, S);
        var t, moved := SiftDown(less, buf[0 := r], 0, S);
        if !moved {
          SameElements(was[0 := r], t);
          t := SiftUp(less, t, 0, S);
        }
        KeepsPermuted(less, was[0 := r], t, seen + {r}, cap);
        buf := t;
      } else {
        SkipKeeps(less, buf, seen, cap, r, S);
      }
      seen := seen + {r};
    }

    /** sorted: the retained rows in ascending order are exactly the first rows of the full
        sort of everything seen. */
    method Sorted(ghost S: set<T>) returns (out: seq<T>)
      requires Valid(S)
      ensures |out| == Min(if cap < 0 then 0 else cap, |seen|)
      ensures forall full :: Arranges(less, full, seen) ==> |full| == |seen| && out == full[..|out|]
    {
      ghost var kept := set x | x in buf;
      out := SortBy(less, buf, kept);
      forall full | Arranges(less, full, seen) ensures |full| == |seen| && out == full[..|out|] {
        IncreasesNoDup(less, full, seen);
        ListSize(full, seen);
        SamePrefix(less, out, kept, full, seen, |out|);
        TakeAll(out);
      }
    }
  }

  lemma KeepsAll<T>(less: (T, T) -> bool, buf: seq<T>, seen: set<T>, cap: int, r: T)
    requires Keeps(less, buf, seen, cap) && |buf| < cap && r !in seen
    ensures Keeps(less, buf + [r], seen + {r}, cap)
  {
    var kept := set x | x in buf;
    ListSize(buf, kept);
    SubsetIsAll(kept, seen);
  }

  lemma SubsetIsAll<T>(a: set<T>, b: set<T>)
    requires a <= b && |a| == |b|
    ensures a == b
  {
    if x :| x in b && x !in a {
      SubsetSize(a, b - {x});
    }
  }

  lemma KeepsPermuted<T>(less: (T, T) -> bool, a: seq<T>, b: seq<T>, seen: set<T>, cap: int)
    requires Keeps(less, a, seen, cap) && multiset(a) == multiset(b) && |a| == |b|
    ensures Keeps(less, b, seen, cap)
  {
    SameElements(a, b);
    NoDupPermuted(a, b);
  }

  lemma NoDupPermuted<T>(a: seq<T>, b: seq<T>)
    requires NoDup(a) && multiset(a) == multiset(b)
    ensures NoDup(b)
  {
    forall i, j | 0 <= i < j < |b| ensures b[i] != b[j] {
      if b[i] == b[j] {
        TwiceIn(b, i, j);
        OnceIn(a, b[i]);
      }
    }
  }

  lemma TwiceIn<T>(s: seq<T>, i: nat, j: nat)
    requires i < j < |s| && s[i] == s[j]
    ensures multiset(s)[s[i]] >= 2
  {
    assert s == s[..j] + s[j..];
    assert s[..j][i] == s[i] && s[j..][0] == s[j];
    assert s[i] in multiset(s[..j]) && s[i] in multiset(s[j..]);
  }

  lemma {:induction false} OnceIn<T>(s: seq<T>, x: T)
    requires NoDup(s)
    ensures multiset(s)[x] <= 1
  {
    if s != [] {
      var init, last := s[..|s| - 1], s[|s| - 1];
      assert s == init + [last];
      OnceIn(init, x);
      if x == last { assert x !in init; }
    }
  }

  lemma ReplaceKeeps<T>(less: (T, T) -> bool, buf: seq<T>, seen: set<T>, cap: int, r: T, S: set<T>)
    requires Over(less, buf, S) && seen <= S && IsHeap(less, buf) && Keeps(less, buf, seen, cap)
    requires r in S && r !in seen && |buf| >= cap > 0 && less(r, buf[0])
    ensures Keeps(less, buf[0 := r], seen + {r}, cap)
  {
    var t := buf[0 := r];
    forall x, y | x in t && y in seen + {r} && y !in t ensures less(x, y) {
      assert y != r by { assert t[0] == r; }
      if y in buf {
        assert y == buf[0] by { OnlyRootLeft(buf, r, y); }
        if x != r { BelowRoot(less, buf, r, x, S); }
      } else if x == r {
        assert buf[0] in buf && less(buf[0], y);
      }
    }
    assert |seen + {r}| == |seen| + 1;
    forall i, j | 0 <= i < j < |t| ensures t[i] != t[j] {
      assert buf[j] in buf;
    }
  }

  lemma OnlyRootLeft<T>(buf: seq<T>, r: T, y: T)
    requires |buf| > 0 && y in buf && y !in buf[0 := r]
    ensures y == buf[0]
  {
    assert buf == [buf[0]] + buf[1..] && buf[0 := r] == [r] + buf[1..];
  }

  lemma BelowRoot<T>(less: (T, T) -> bool, buf: seq<T>, r: T, x: T, S: set<T>)
    requires Over(less, buf, S) && IsHeap(less, buf) && NoDup(buf) && |buf| > 0 && x in buf[0 := r] && x != r
    ensures less(x, buf[0])
  {
    var k :| 0 <= k < |buf| && buf[0 := r][k] == x;
    RootIsMax(less, buf, k, S);
    assert buf[k] in buf && buf[0] in buf && buf[0] != buf[k];
  }

  lemma SkipKeeps<T>(less: (T, T) -> bool, buf: seq<T>, seen: set<T>, cap: int, r: T, S: set<T>)
    requires Over(less, buf, S) && seen <= S && IsHeap(less, buf) && Keeps(less, buf, seen, cap)
    requires r in S && r !in seen && |buf| >= cap > 0 && !less(r, buf[0])
    ensures Keeps(less, buf, seen + {r}, cap)
  {
    assert |seen + {r}| == |seen| + 1;
    assert buf[0] in buf;
    forall x | x in buf ensures less(x, r) {
      var k :| 0 <= k < |buf| && buf[k] == x;
      RootIsMax(less, buf, k, S);
    }
  }
}
