/** Result types and sequence facts shared by the models. */
module Common {
  datatype Option<+T> = None | Some(value: T)

  lemma TakeSnoc<T>(s: seq<T>, i: nat)
    requires i < |s|
    ensures s[..i + 1] == s[..i] + [s[i]]
  {
  }

  lemma TakeAll<T>(s: seq<T>)
    ensures s[..|s|] == s
  {
  }

  /** Moving one element from the front of what is left to the end of what is done. */
  lemma MoveOne<T>(done: seq<T>, s: seq<T>, i: nat)
    requires i < |s|
    ensures done + s[i..] == (done + [s[i]]) + s[i + 1..]
  {
  }

  predicate NoDup<T(==)>(s: seq<T>) {
    forall i, j | 0 <= i < j < |s| :: s[i] != s[j]
  }

  lemma NoDupConcat<T>(a: seq<T>, b: seq<T>)
    requires NoDup(a) && NoDup(b) && forall x | x in b :: x !in a
    ensures NoDup(a + b)
  {
    var c := a + b;
    forall i, j | 0 <= i < j < |c| ensures c[i] != c[j] {
      if i < |a| <= j {
        assert c[i] in a && b[j - |a|] in b;
      }
    }
  }

  /** The elements of a set in an arbitrary order, as a map or set iteration yields them. */
  method Elements<T(==)>(s: set<T>) returns (xs: seq<T>)
    ensures NoDup(xs) && forall x :: x in xs <==> x in s
  {
    xs := [];
    var todo := s;
    while todo != {}
      invariant todo <= s && NoDup(xs)
      invariant forall x :: x in xs <==> x in s && x !in todo
      decreases todo
    {
      var x :| x in todo;
      todo := todo - {x};
      xs := xs + [x];
    }
  }

  lemma {:induction false} SubsetSize<T>(a: set<T>, b: set<T>)
    requires a <= b
    ensures |a| <= |b|
  {
    if a != {} {
      var x :| x in a;
      SubsetSize(a - {x}, b - {x});
    }
  }

  lemma Regroup<T>(a: seq<T>, b: seq<T>, c: seq<T>)
    ensures a + b + c == a + (b + c)
  {
  }
}
