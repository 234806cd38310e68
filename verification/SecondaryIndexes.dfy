/** A secondary index: buckets by rendered value, the reverse map, and the ordered view of
    the bucket keys that serves range queries while the field is homogeneous. */
module SecondaryIndexes {
  import opened Common
  import opened Values
  import opened Log
  import opened Compaction

  /** The observed type of the field's values. */
  datatype Kind = Empty | Numeric | Text | Mixed

  function KindOf(v: Value): Kind {
    if v.Num? then Numeric else Text
  }

  /** The typed value used for ordering: numbers as such, everything else as a string. */
  function Norm(f: RawFormat, v: Value): Value {
    if v.Num? then v else Str(Render(f, v))
  }

  function MergeKind(cur: Kind, next: Kind): Kind {
    if cur.Empty? then next else if cur == next then cur else Mixed
  }

  function ValForKind(f: RawFormat, k: Kind, key: string): Value {
    if k.Numeric? then Num(f.parse(key)) else Str(key)
  }

  datatype OrderedKey = OrderedKey(key: string, val: Value)

  predicate OrderLess(f: RawFormat, a: OrderedKey, b: OrderedKey) {
    var c := Compare(f, a.val, b.val);
    if c != 0 then c < 0 else StrCompare(a.key, b.key) < 0
  }

  lemma OrderTrans(f: RawFormat, a: OrderedKey, b: OrderedKey, c: OrderedKey)
    requires a.val.Num? == b.val.Num? == c.val.Num?
    requires OrderLess(f, a, b) && OrderLess(f, b, c)
    ensures OrderLess(f, a, c)
  {
    CompareTrans(f, a.val, b.val, c.val);
    if Compare(f, a.val, b.val) == 0 && Compare(f, b.val, c.val) == 0 {
      StrCompareTrans(a.key, b.key, c.key);
      CompareFlip(f, a.val, b.val);
      CompareFlip(f, b.val, c.val);
      CompareTrans(f, c.val, b.val, a.val);
      CompareFlip(f, a.val, c.val);
    }
  }

  lemma OrderTotal(f: RawFormat, a: OrderedKey, b: OrderedKey)
    ensures !(OrderLess(f, a, b) && OrderLess(f, b, a))
    ensures a.key != b.key ==> OrderLess(f, a, b) || OrderLess(f, b, a)
  {
    CompareFlip(f, a.val, b.val);
    StrCompareFlip(a.key, b.key);
  }

  // ---- What the index must hold for given contents ---------------------------------

  /** The reverse map for given contents: each id with its rendered value. */
  function Rendered(f: RawFormat, vals: map<nat, Value>): map<nat, string> {
    map id | id in vals :: Render(f, vals[id])
  }

  /** The buckets for a given reverse map: its inverse. */
  function Inverse(r: map<nat, string>): map<string, set<nat>> {
    map k | k in r.Values :: set id | id in r && r[id] == k
  }

  /** Each id lies in exactly one bucket, and no bucket is empty. */
  lemma InverseFiles(r: map<nat, string>)
    ensures forall id | id in r :: r[id] in Inverse(r) && id in Inverse(r)[r[id]]
    ensures forall k, id | k in Inverse(r) && id in Inverse(r)[k] :: id in r && r[id] == k
    ensures forall k | k in Inverse(r) :: Inverse(r)[k] != {}
  {
  }

  /** A value of the given kind may be in the index. */
  predicate Fits(kind: Kind, v: Value) {
    kind.Mixed? || KindOf(v) == kind
  }

  predicate Covers(kind: Kind, vals: map<nat, Value>) {
    if kind.Empty? then vals == map[] else forall id | id in vals :: Fits(kind, vals[id])
  }

  predicate InView(sorted: seq<OrderedKey>, key: string) {
    exists i | 0 <= i < |sorted| :: sorted[i].key == key
  }

  predicate Increasing(f: RawFormat, sorted: seq<OrderedKey>) {
    forall i, j | 0 <= i < j < |sorted| :: OrderLess(f, sorted[i], sorted[j])
  }

  predicate Lists(f: RawFormat, kind: Kind, sorted: seq<OrderedKey>, keys: set<string>) {
    && (forall i | 0 <= i < |sorted| :: sorted[i].key in keys && sorted[i].val == ValForKind(f, kind, sorted[i].key))
    && (forall k | k in keys :: InView(sorted, k))
  }

  /** The ordered view lists exactly the bucket keys, in strictly increasing typed order. */
  predicate OrderedView(f: RawFormat, kind: Kind, sorted: seq<OrderedKey>, keys: set<string>) {
    Increasing(f, sorted) && Lists(f, kind, sorted, keys)
  }

  /** `i` separates the keys below the target from the others. */
  predicate Splits(f: RawFormat, sorted: seq<OrderedKey>, target: OrderedKey, i: nat) {
    && i <= |sorted|
    && (forall j | 0 <= j < i :: OrderLess(f, sorted[j], target))
    && (forall j | i <= j < |sorted| :: !OrderLess(f, sorted[j], target))
  }

  function Inserted(sorted: seq<OrderedKey>, i: nat, ok: OrderedKey): (s: seq<OrderedKey>)
    requires i <= |sorted|
    ensures |s| == |sorted| + 1
    ensures forall p | 0 <= p < |s| :: s[p] == if p < i then sorted[p] else if p == i then ok else sorted[p - 1]
  {
    sorted[..i] + [ok] + sorted[i..]
  }

  function Dropped(sorted: seq<OrderedKey>, i: nat): (s: seq<OrderedKey>)
    requires i < |sorted|
    ensures |s| == |sorted| - 1
    ensures forall p | 0 <= p < |s| :: s[p] == sorted[if p < i then p else p + 1]
  {
    sorted[..i] + sorted[i + 1..]
  }

  lemma InsertIncreasing(f: RawFormat, sorted: seq<OrderedKey>, i: nat, ok: OrderedKey)
    requires Increasing(f, sorted) && Splits(f, sorted, ok, i)
    requires forall j | i <= j < |sorted| :: sorted[j].key != ok.key
    ensures Increasing(f, Inserted(sorted, i, ok))
  {
    forall j | i <= j < |sorted| ensures OrderLess(f, ok, sorted[j]) {
      OrderTotal(f, sorted[j], ok);
    }
  }

  lemma InsertedAt(sorted: seq<OrderedKey>, i: nat, x: OrderedKey, j: nat)
    requires i <= |sorted| && j <= |sorted|
    ensures |Inserted(sorted, i, x)| == |sorted| + 1
    ensures Inserted(sorted, i, x)[j] == if j < i then sorted[j] else if j == i then x else sorted[j - 1]
  {
  }

  lemma InsertLists(f: RawFormat, kind: Kind, sorted: seq<OrderedKey>, keys: set<string>, key: string, i: nat)
    requires Lists(f, kind, sorted, keys) && i <= |sorted|
    ensures Lists(f, kind, Inserted(sorted, i, OrderedKey(key, ValForKind(f, kind, key))), keys + {key})
  {
    hide ValForKind, Inserted;
    var x := OrderedKey(key, ValForKind(f, kind, key));
    var s := Inserted(sorted, i, x);
    InsertedAt(sorted, i, x, i);
    forall j | 0 <= j < |s| ensures s[j].key in keys + {key} && s[j].val == ValForKind(f, kind, s[j].key) {
      InsertedAt(sorted, i, x, j);
    }
    forall k | k in keys + {key} ensures InView(s, k) {
      if k == key {
        assert s[i].key == key;
      } else {
        assert InView(sorted, k);
        var p :| 0 <= p < |sorted| && sorted[p].key == k;
        InsertedAt(sorted, i, x, if p < i then p else p + 1);
        assert s[if p < i then p else p + 1].key == k;
      }
    }
  }

  lemma InsertKeepsView(f: RawFormat, kind: Kind, sorted: seq<OrderedKey>, keys: set<string>, key: string, i: nat)
    requires OrderedView(f, kind, sorted, keys) && key !in keys
    requires Splits(f, sorted, OrderedKey(key, ValForKind(f, kind, key)), i)
    ensures OrderedView(f, kind, Inserted(sorted, i, OrderedKey(key, ValForKind(f, kind, key))), keys + {key})
  {
    InsertIncreasing(f, sorted, i, OrderedKey(key, ValForKind(f, kind, key)));
    InsertLists(f, kind, sorted, keys, key, i);
  }

  lemma KeysDistinct(f: RawFormat, kind: Kind, sorted: seq<OrderedKey>, keys: set<string>, p: nat, q: nat)
    requires OrderedView(f, kind, sorted, keys) && p < |sorted| && q < |sorted| && p != q
    ensures sorted[p].key != sorted[q].key
  {
  }

  lemma DropKeepsView(f: RawFormat, kind: Kind, sorted: seq<OrderedKey>, keys: set<string>, i: nat)
    requires OrderedView(f, kind, sorted, keys) && i < |sorted|
    ensures OrderedView(f, kind, Dropped(sorted, i), keys - {sorted[i].key})
  {
    hide OrderLess, ValForKind;
    var s := Dropped(sorted, i);
    forall p | 0 <= p < |s| ensures s[p].key in keys - {sorted[i].key} && s[p].val == ValForKind(f, kind, s[p].key) {
      KeysDistinct(f, kind, sorted, keys, if p < i then p else p + 1, i);
    }
    forall k | k in keys - {sorted[i].key} ensures InView(s, k) {
      assert InView(sorted, k);
      var p :| 0 <= p < |sorted| && sorted[p].key == k;
      assert s[if p < i then p else p - 1].key == k;
    }
  }

  // ---- Filing and unfiling one id -----------------------------------------------------

  function Bucket(b: map<string, set<nat>>, key: string): set<nat> {
    if key in b then b[key] else {}
  }

  function Without(b: map<string, set<nat>>, key: string, id: nat): map<string, set<nat>> {
    var rest := Bucket(b, key) - {id};
    if rest == {} then b - {key} else b[key := rest]
  }

  lemma FileOne(r: map<nat, string>, id: nat, key: string)
    requires id !in r
    ensures Inverse(r[id := key]) == Inverse(r)[key := Bucket(Inverse(r), key) + {id}]
  {
    var r' := r[id := key];
    var b, b' := Inverse(r), Inverse(r');
    assert r'[id] == key;
    forall k ensures k in r'.Values <==> k in r.Values || k == key {
      if k in r.Values {
        var i :| i in r && r[i] == k;
        assert r'[i] == k;
      }
    }
    var w := b[key := Bucket(b, key) + {id}];
    assert b'.Keys == w.Keys;
    forall k | k in b' ensures b'[k] == w[k] {
      forall i ensures i in b'[k] <==> i in w[k] {
        if i in r && r[i] == k { assert k in r.Values; }
      }
    }
  }

  lemma UnfileOne(r: map<nat, string>, id: nat)
    requires id in r
    ensures Inverse(r - {id}) == Without(Inverse(r), r[id], id)
  {
    var r', key := r - {id}, r[id];
    var b, b', w := Inverse(r), Inverse(r'), Without(Inverse(r), r[id], id);
    InverseFiles(r);
    InverseFiles(r');
    forall k | k in b' ensures k in w && b'[k] == w[k] {
      var i :| i in r' && r'[i] == k;
      assert i in b[k];
      assert b'[k] == b[k] - {id};
    }
    forall k | k in w ensures k in b' {
      var i :| i in b[k] && i != id;
      assert r'[i] == k;
    }
  }

  predicate ViewOk(f: RawFormat, kind: Kind, sorted: seq<OrderedKey>, keys: set<string>) {
    if kind.Mixed? then sorted == [] else OrderedView(f, kind, sorted, keys)
  }

  lemma EmptyView(f: RawFormat, vals: map<nat, Value>)
    ensures vals == map[] ==> OrderedView(f, Empty, [], Inverse(Rendered(f, vals)).Keys)
  {
  }

  // ---- Searching the ordered view ------------------------------------------------------

  predicate SameType(sorted: seq<OrderedKey>, v: Value) {
    forall i | 0 <= i < |sorted| :: sorted[i].val.Num? == v.Num?
  }

  method SearchSorted(f: RawFormat, sorted: seq<OrderedKey>, target: OrderedKey) returns (i: nat)
    requires Increasing(f, sorted) && SameType(sorted, target.val)
    ensures Splits(f, sorted, target, i)
  {
    var lo, hi := 0, |sorted|;
    while lo < hi
      invariant 0 <= lo <= hi <= |sorted|
      invariant forall j | 0 <= j < lo :: OrderLess(f, sorted[j], target)
      invariant forall j | hi <= j < |sorted| :: !OrderLess(f, sorted[j], target)
    {
      var mid := (lo + hi) / 2;
      if OrderLess(f, sorted[mid], target) {
        forall j | 0 <= j < mid ensures OrderLess(f, sorted[j], target) {
          OrderTrans(f, sorted[j], sorted[mid], target);
        }
        lo := mid + 1;
      } else {
        forall j | mid < j < |sorted| ensures !OrderLess(f, sorted[j], target) {
          if OrderLess(f, sorted[j], target) {
            OrderTrans(f, sorted[mid], sorted[j], target);
          }
        }
        hi := mid;
      }
    }
    i := lo;
  }

  /** The bound a range search looks for: the first value above q, or not below it. */
  predicate Reaches(f: RawFormat, v: Value, q: Value, strict: bool) {
    if strict then Compare(f, v, q) > 0 else Compare(f, v, q) >= 0
  }

  lemma ReachesOnwards(f: RawFormat, a: OrderedKey, b: OrderedKey, q: Value, strict: bool)
    requires a.val.Num? == b.val.Num? == q.Num? && OrderLess(f, a, b) && Reaches(f, a.val, q, strict)
    ensures Reaches(f, b.val, q, strict)
  {
    CompareFlip(f, a.val, q);
    CompareFlip(f, b.val, q);
    CompareTrans(f, q, a.val, b.val);
  }

  method SearchBound(f: RawFormat, sorted: seq<OrderedKey>, q: Value, strict: bool) returns (i: nat)
    requires Increasing(f, sorted) && SameType(sorted, q)
    ensures i <= |sorted|
    ensures forall j | 0 <= j < |sorted| :: Reaches(f, sorted[j].val, q, strict) <==> i <= j
  {
    var lo, hi := 0, |sorted|;
    while lo < hi
      invariant 0 <= lo <= hi <= |sorted|
      invariant forall j | 0 <= j < lo :: !Reaches(f, sorted[j].val, q, strict)
      invariant forall j | hi <= j < |sorted| :: Reaches(f, sorted[j].val, q, strict)
    {
      var mid := (lo + hi) / 2;
      if Reaches(f, sorted[mid].val, q, strict) {
        forall j | mid < j < |sorted| ensures Reaches(f, sorted[j].val, q, strict) {
          ReachesOnwards(f, sorted[mid], sorted[j], q, strict);
        }
        hi := mid;
      } else {
        forall j | 0 <= j < mid ensures !Reaches(f, sorted[j].val, q, strict) {
          if Reaches(f, sorted[j].val, q, strict) {
            ReachesOnwards(f, sorted[j], sorted[mid], q, strict);
          }
        }
        lo := mid + 1;
      }
    }
    i := lo;
  }

  lemma ViewType(f: RawFormat, kind: Kind, sorted: seq<OrderedKey>, keys: set<string>, v: Value)
    requires Lists(f, kind, sorted, keys) && (kind.Numeric? <==> v.Num?)
    ensures SameType(sorted, v)
  {
  }

  /** buildSorted: the bucket keys sorted under the field's type. */
  method BuildSorted(f: RawFormat, kind: Kind, keys: set<string>) returns (sorted: seq<OrderedKey>)
    requires kind.Numeric? || kind.Text?
    ensures OrderedView(f, kind, sorted, keys)
  {
    sorted := [];
    var todo := keys;
    while todo != {}
      invariant todo <= keys && OrderedView(f, kind, sorted, keys - todo)
      decreases todo
    {
      var key :| key in todo;
      var ok := OrderedKey(key, ValForKind(f, kind, key));
      ViewType(f, kind, sorted, keys - todo, ok.val);
      var i := SearchSorted(f, sorted, ok);
      InsertKeepsView(f, kind, sorted, keys - todo, key, i);
      sorted := Inserted(sorted, i, ok);
      assert keys - (todo - {key}) == keys - todo + {key};
      todo := todo - {key};
    }
    assert keys - todo == keys;
  }

  /** The typed key of a value compares as the value does. */
  lemma KeyCompares(f: NumFormat, v: Value, q: Value)
    requires KindOf(v) == KindOf(q)
    ensures Compare(f, ValForKind(f, KindOf(v), Render(f, v)), Norm(f, q)) == Compare(f, v, q)
  {
  }

  /** The field's value of every live record that has it. */
  function FieldVals(field: string, v: View): map<nat, Value> {
    map id | id in v && field in v[id].data :: v[id].data[field]
  }

  predicate IsRange(op: Cmp) {
    op.Gt? || op.Gte? || op.Lt? || op.Lte?
  }

  predicate KeyIn(sorted: seq<OrderedKey>, lo: int, hi: int, key: string)
    requires 0 <= lo <= hi <= |sorted|
  {
    exists j | lo <= j < hi :: sorted[j].key == key
  }

  /** A bucket holds exactly the ids whose value renders to its key. */
  lemma BucketHolds(f: RawFormat, vals: map<nat, Value>, key: string)
    ensures var b := Inverse(Rendered(f, vals));
            && (forall id :: id in Bucket(b, key) <==> id in vals && Render(f, vals[id]) == key)
            && (key in b <==> Bucket(b, key) != {})
  {
    var r := Rendered(f, vals);
    var b := Inverse(r);
    forall id ensures id in Bucket(b, key) <==> id in vals && Render(f, vals[id]) == key {
      if id in vals && Render(f, vals[id]) == key {
        assert id in r && r[id] == key;
        assert key in r.Values;
      }
    }
    if key in b {
      var id :| id in r && r[id] == key;
      assert id in b[key];
    }
  }

  /** Filing a new id under its value. */
  lemma AddStep(f: RawFormat, kind: Kind, vals: map<nat, Value>, id: nat, v: Value)
    requires id !in vals && Covers(kind, vals)
    ensures var r, key := Rendered(f, vals), Render(f, v);
            && Rendered(f, vals[id := v]) == r[id := key]
            && Inverse(r[id := key]) == Inverse(r)[key := Bucket(Inverse(r), key) + {id}]
    ensures Covers(MergeKind(kind, KindOf(v)), vals[id := v])
  {
    FileOne(Rendered(f, vals), id, Render(f, v));
    var w, k := vals[id := v], MergeKind(kind, KindOf(v));
    forall i | i in w ensures Fits(k, w[i]) {
    }
  }

  lemma KeyAdded(b: map<string, set<nat>>, key: string, ids: set<nat>)
    ensures b[key := ids].Keys == b.Keys + {key}
  {
  }

  class SecondaryIndex {
    const fmt: NumFormat
    const field: string
    const unique: bool
    var buckets: map<string, set<nat>>
    var reverse: map<nat, string>
    var kind: Kind
    var sorted: seq<OrderedKey>
    /** The indexed value of every id the index tracks. */
    ghost var vals: map<nat, Value>

    ghost predicate Valid() reads this {
      var ok :=
        && reverse == Rendered(fmt, vals) && buckets == Inverse(reverse)
        && Covers(kind, vals)
        && ViewOk(fmt, kind, sorted, buckets.Keys);
      ok
    }

    constructor (fmt: NumFormat, field: string, unique: bool)
      ensures Valid() && vals == map[] && this.fmt == fmt && this.field == field && this.unique == unique
    {
      this.fmt, this.field, this.unique := fmt, field, unique;
      buckets, reverse, kind, sorted, vals := map[], map[], Empty, [], map[];
    }

    /** add: file a new id under its value, fold the value's type into the kind, and give a
        new bucket its place in the ordered view. */
    method Add(value: Value, id: nat)
      requires Valid() && id !in vals
      modifies this
      ensures Valid() && vals == old(vals)[id := value]
      ensures kind == MergeKind(old(kind), KindOf(value))
    {
      var key := Render(fmt, value);
      var newBucket := key !in buckets;
      ghost var keys := buckets.Keys;
      AddStep(fmt, kind, vals, id, value);
      KeyAdded(buckets, key, Bucket(buckets, key) + {id});
      buckets := buckets[key := Bucket(buckets, key) + {id}];
      reverse := reverse[id := key];
      AddToView(key, value, newBucket, keys);
      vals := vals[id := value];
    }

    /** Fold the value's type into the kind and place a new bucket's key. */
    method AddToView(key: string, value: Value, newBucket: bool, ghost keys: set<string>)
      requires ViewOk(fmt, kind, sorted, keys) && (kind.Empty? ==> keys == {})
      requires key == Render(fmt, value) && (newBucket <==> key !in keys)
      modifies this`kind, this`sorted
      ensures kind == MergeKind(old(kind), KindOf(value))
      ensures ViewOk(fmt, kind, sorted, keys + {key})
    {
      Observe(value, keys);
      if newBucket {
        OrderedInsert(key, Norm(fmt, value), keys);
      } else {
        assert keys + {key} == keys;
      }
    }

    method Observe(value: Value, ghost keys: set<string>)
      requires ViewOk(fmt, kind, sorted, keys) && (kind.Empty? ==> keys == {})
      modifies this`kind, this`sorted
      ensures kind == MergeKind(old(kind), KindOf(value))
      ensures ViewOk(fmt, kind, sorted, keys)
    {
      var next := MergeKind(kind, KindOf(value));
      if next.Mixed? {
        sorted := [];
      }
      kind := next;
    }

    method OrderedInsert(key: string, val: Value, ghost keys: set<string>)
      requires ViewOk(fmt, kind, sorted, keys) && key !in keys
      requires !kind.Mixed? ==> !kind.Empty? && val == ValForKind(fmt, kind, key)
      modifies this`sorted
      ensures ViewOk(fmt, kind, sorted, keys + {key})
    {
      if kind.Mixed? { return; }
      var ok := OrderedKey(key, val);
      ViewType(fmt, kind, sorted, keys, val);
      var i := SearchSorted(fmt, sorted, ok);
      InsertKeepsView(fmt, kind, sorted, keys, key, i);
      if i < |sorted| && sorted[i].key == key { return; }
      sorted := Inserted(sorted, i, ok);
    }

    method OrderedRemove(key: string, ghost keys: set<string>)
      requires ViewOk(fmt, kind, sorted, keys) && key in keys
      modifies this`sorted
      ensures ViewOk(fmt, kind, sorted, keys - {key})
    {
      if kind.Mixed? { return; }
      var target := OrderedKey(key, ValForKind(fmt, kind, key));
      ViewType(fmt, kind, sorted, keys, target.val);
      var i := SearchSorted(fmt, sorted, target);
      DropKeepsView(fmt, kind, sorted, keys, i);
      if i < |sorted| && sorted[i].key == key {
        sorted := Dropped(sorted, i);
      }
    }

    /** remove: take the id out of whatever bucket it occupies, dropping an emptied bucket. */
    method Remove(id: nat)
      requires Valid()
      modifies this
      ensures Valid() && vals == old(vals) - {id} && kind == old(kind)
    {
      if id in reverse {
        var key := reverse[id];
        UnfileOne(reverse, id);
        ghost var keys := buckets.Keys;
        buckets := Without(buckets, key, id);
        if key !in buckets {
          OrderedRemove(key, keys);
          assert buckets.Keys == keys - {key};
        } else {
          assert buckets.Keys == keys;
        }
        reverse := reverse - {id};
        vals := vals - {id};
      }
    }

    /** update: move the id to its new value's bucket. */
    method Update(id: nat, value: Value)
      requires Valid()
      modifies this
      ensures Valid() && vals == old(vals)[id := value]
      ensures kind == MergeKind(old(kind), KindOf(value))
    {
      Remove(id);
      Add(value, id);
      assert vals == old(vals)[id := value];
    }

    /** Lookup: the ids filed under a key, each once. */
    method Lookup(key: string) returns (ids: seq<nat>)
      requires Valid()
      ensures NoDup(ids) && forall id :: id in ids <==> id in vals && Render(fmt, vals[id]) == key
    {
      BucketHolds(fmt, vals, key);
      ids := Elements(Bucket(buckets, key));
    }

    /** conflict: some other id holds the value. */
    method Conflict(key: string, id: nat) returns (clash: bool)
      requires Valid()
      ensures clash <==> exists other | other in vals :: other != id && Render(fmt, vals[other]) == key
    {
      BucketHolds(fmt, vals, key);
      clash := exists other | other in Bucket(buckets, key) :: other != id;
      if clash {
        var other :| other in Bucket(buckets, key) && other != id;
        assert other in vals;
      }
    }

    /** LookupRange: served only when the field is homogeneous and the query value has its
        type; then exactly the ids whose value satisfies the predicate, each once. */
    method LookupRange(op: Cmp, q: Value) returns (ids: seq<nat>, ok: bool)
      requires Valid()
      ensures ok <==> kind.Empty? || (kind == KindOf(q) && IsRange(op))
      ensures ok ==> NoDup(ids) && forall id :: id in ids <==> id in vals && Holds(fmt, op, vals[id], q)
    {
      hide Render, Compare, ValForKind, OrderLess, Inverse, Rendered, Increasing;
      if kind.Empty? { return [], true; }
      if kind.Mixed? { return [], false; }
      if KindOf(q) != kind { return [], false; }
      var qv := Norm(fmt, q);
      ViewType(fmt, kind, sorted, buckets.Keys, qv);
      var lo, hi := 0, |sorted|;
      match op {
        case Gt => lo := SearchBound(fmt, sorted, qv, true);
        case Gte => lo := SearchBound(fmt, sorted, qv, false);
        case Lt => hi := SearchBound(fmt, sorted, qv, false);
        case Lte => hi := SearchBound(fmt, sorted, qv, true);
        case _ => return [], false;
      }
      ok := true;
      ids := Collect(lo, hi);
      forall id ensures id in ids <==> id in vals && Holds(fmt, op, vals[id], q) {
        if id in vals {
          KeyCompares(fmt, vals[id], q);
          var key := Render(fmt, vals[id]);
          BucketHolds(fmt, vals, key);
          assert id in Bucket(buckets, key) && InView(sorted, key);
          var j :| 0 <= j < |sorted| && sorted[j].key == key;
        }
      }
    }

    method Collect(lo: nat, hi: nat) returns (ids: seq<nat>)
      requires Valid() && !kind.Mixed? && lo <= hi <= |sorted|
      ensures NoDup(ids)
      ensures forall id :: id in ids <==> id in vals && KeyIn(sorted, lo, hi, Render(fmt, vals[id]))
    {
      ids := [];
      for i := lo to hi
        invariant NoDup(ids)
        invariant forall id :: id in ids <==> id in vals && KeyIn(sorted, lo, i, Render(fmt, vals[id]))
      {
        var key := sorted[i].key;
        var more := Elements(buckets[key]);
        BucketHolds(fmt, vals, key);
        assert forall k :: KeyIn(sorted, lo, i + 1, k) <==> KeyIn(sorted, lo, i, k) || k == key;
        NoDupConcat(ids, more);
        ids := ids + more;
      }
    }

    /** rebuild: replay the segments and index the live records afresh. */
    method Rebuild(segs: seq<Segment>)
      modifies this
      ensures Valid() && Tight(kind, vals)
      ensures vals == FieldVals(field, Replay(Entries(segs)))
    {
      hide Rendered, Inverse, FieldVals, Replay, Entries, OrderedView;
      EmptyView(fmt, FieldVals(field, Replay(Entries(segs))));
      var latest := LatestEntries(segs);
      LiveIsLatest(latest, Entries(segs));
      var newBuckets, newReverse, newKind := IndexAll(fmt, field, latest, Replay(Entries(segs)));
      buckets, reverse, kind := newBuckets, newReverse, newKind;
      vals := FieldVals(field, Replay(Entries(segs)));
      if kind.Mixed? || kind.Empty? {
        sorted := [];
      } else {
        sorted := BuildSorted(fmt, kind, buckets.Keys);
      }
    }
  }

  /** The buckets, reverse map and kind of the live records, visited in an arbitrary order. */
  method IndexAll(fmt: RawFormat, field: string, latest: map<nat, Entry>, ghost view: View)
    returns (buckets: map<string, set<nat>>, reverse: map<nat, string>, kind: Kind)
    requires forall id :: id in view <==> id in latest && !latest[id].op.Delete?
    requires forall id | id in view :: view[id] == latest[id]
    ensures reverse == Rendered(fmt, FieldVals(field, view)) && buckets == Inverse(reverse)
    ensures Covers(kind, FieldVals(field, view)) && Tight(kind, FieldVals(field, view))
  {
    buckets, reverse, kind := map[], map[], Empty;
    ghost var all := FieldVals(field, view);
    ghost var seen: map<nat, Value> := map[];
    var todo := latest.Keys;
    while todo != {}
      invariant todo <= latest.Keys
      invariant reverse == Rendered(fmt, seen) && buckets == Inverse(reverse)
      invariant Covers(kind, seen) && Tight(kind, seen)
      invariant seen == all - todo
      decreases todo
    {
      var id :| id in todo;
      PutBack(all, todo, id);
      todo := todo - {id};
      var e := latest[id];
      if !e.op.Delete? && field in e.data {
        var v := e.data[field];
        var key := Render(fmt, v);
        AddStep(fmt, kind, seen, id, v);
        MergeTight(kind, seen, id, v);
        buckets := buckets[key := Bucket(buckets, key) + {id}];
        reverse := reverse[id := key];
        kind := MergeKind(kind, KindOf(v));
        seen := seen[id := v];
      }
    }
    assert all - todo == all;
  }

  lemma PutBack(m: map<nat, Value>, todo: set<nat>, id: nat)
    requires id in todo
    ensures m - (todo - {id}) == if id in m then (m - todo)[id := m[id]] else m - todo
  {
  }

  predicate Varied(vals: map<nat, Value>) {
    exists a, b | a in vals && b in vals :: KindOf(vals[a]) != KindOf(vals[b])
  }

  /** The kind says no more than the values make necessary. */
  predicate Tight(kind: Kind, vals: map<nat, Value>) {
    (kind.Empty? <==> vals == map[]) && (kind.Mixed? ==> Varied(vals))
  }

  lemma MergeTight(kind: Kind, vals: map<nat, Value>, id: nat, v: Value)
    requires Covers(kind, vals) && Tight(kind, vals) && id !in vals
    ensures Covers(MergeKind(kind, KindOf(v)), vals[id := v]) && Tight(MergeKind(kind, KindOf(v)), vals[id := v])
  {
    var k, w := MergeKind(kind, KindOf(v)), vals[id := v];
    assert id in w && w[id] == v;
    if kind.Mixed? {
      var a, b :| a in vals && b in vals && KindOf(vals[a]) != KindOf(vals[b]);
      assert a in w && b in w && w[a] == vals[a] && w[b] == vals[b];
    } else if k.Mixed? {
      assert vals.Keys != {} by { assert vals != map[]; }
      var a :| a in vals;
      assert a in w && w[a] == vals[a] && Fits(kind, vals[a]);
    }
  }
}
