/** Record values, their "%v" rendering, and the comparison and filter semantics
    of package query. */
module Values {

  /** How a number is printed and parsed back. A number is represented by its rank
      among the finite float64 values, since the engine only compares numbers. */
  datatype RawFormat = RawFormat(show: int -> string, parse: string -> int)

  ghost predicate Lossless(f: RawFormat) {
    forall n: int :: f.parse(f.show(n)) == n
  }

  function ShowUnary(n: int): string {
    if n < 0 then "-" + seq(-n, _ => '1') else seq(n, _ => '1')
  }

  function ParseUnary(s: string): int {
    if s != "" && s[0] == '-' then 1 - |s| else |s|
  }

  /** A number format that loses nothing; the unary one shows that such formats exist. */
  type NumFormat = f: RawFormat | Lossless(f) witness RawFormat(ShowUnary, ParseUnary)

  /** A JSON value as the engine sees it. `Other` stands for null, booleans, arrays
      and objects, which the engine handles through their rendering only. `Envelope`
      is a string carrying the encryption marker: its ciphertext text together with
      what sealing bound to it. */
  datatype Value =
    | Num(n: int)
    | Str(s: string)
    | Other(shown: string)
    | Envelope(text: string, keyId: string, key: nat, aad: string, body: Body)

  /** The plaintext under an envelope: one field's value, or a whole field map. */
  datatype Body = One(value: Value) | Many(fields: map<string, Value>)

  type Data = map<string, Value>

  const NIL := Other("<nil>")

  /** fmt.Sprintf("%v", v) */
  function Render(f: RawFormat, v: Value): string {
    match v
    case Num(n) => f.show(n)
    case Str(s) => s
    case Other(t) => t
    case Envelope(t, _, _, _, _) => t
  }

  /** strings.Compare */
  function StrCompare(a: string, b: string): (c: int)
    ensures c == 0 <==> a == b
    ensures -1 <= c <= 1
  {
    if a == [] then if b == [] then 0 else -1
    else if b == [] then 1
    else if a[0] < b[0] then -1
    else if b[0] < a[0] then 1
    else assert a == [a[0]] + a[1..]; assert b == [b[0]] + b[1..]; StrCompare(a[1..], b[1..])
  }

  lemma {:induction false} StrCompareFlip(a: string, b: string)
    ensures StrCompare(a, b) == -StrCompare(b, a)
  {
    if a != [] && b != [] && a[0] == b[0] {
      StrCompareFlip(a[1..], b[1..]);
    }
  }

  lemma {:induction false} StrCompareTrans(a: string, b: string, c: string)
    requires StrCompare(a, b) <= 0 && StrCompare(b, c) <= 0
    ensures StrCompare(a, c) <= 0
    ensures StrCompare(a, b) < 0 || StrCompare(b, c) < 0 ==> StrCompare(a, c) < 0
  {
    if a != [] && b != [] && c != [] && a[0] == b[0] == c[0] {
      StrCompareTrans(a[1..], b[1..], c[1..]);
    }
  }

  /** query.Compare: numerically when both are numbers, otherwise by rendering. */
  function Compare(f: RawFormat, a: Value, b: Value): (c: int)
    ensures -1 <= c <= 1
  {
    if a.Num? && b.Num? then
      if a.n < b.n then -1 else if b.n < a.n then 1 else 0
    else
      StrCompare(Render(f, a), Render(f, b))
  }

  /** query.equal */
  predicate Equal(f: RawFormat, a: Value, b: Value) {
    if a.Num? && b.Num? then a.n == b.n else Render(f, a) == Render(f, b)
  }

  lemma CompareFlip(f: RawFormat, a: Value, b: Value)
    ensures Compare(f, a, b) == -Compare(f, b, a)
  {
    StrCompareFlip(Render(f, a), Render(f, b));
  }

  /** Comparison is a total preorder among values that are all numbers or all non-numbers. */
  lemma CompareTrans(f: RawFormat, a: Value, b: Value, c: Value)
    requires a.Num? == b.Num? == c.Num?
    requires Compare(f, a, b) <= 0 && Compare(f, b, c) <= 0
    ensures Compare(f, a, c) <= 0
    ensures Compare(f, a, b) < 0 || Compare(f, b, c) < 0 ==> Compare(f, a, c) < 0
  {
    if !a.Num? {
      StrCompareTrans(Render(f, a), Render(f, b), Render(f, c));
    }
  }

  /** Across types the comparison is not transitive: 9 < 10 as numbers, while
      "10" < "1a" < "9" as text. */
  lemma CompareCycle(f: NumFormat, nine: int, ten: int)
    requires nine < ten && f.show(nine) == "9" && f.show(ten) == "10"
    ensures Compare(f, Num(nine), Num(ten)) < 0
    ensures Compare(f, Num(ten), Str("1a")) < 0
    ensures Compare(f, Str("1a"), Num(nine)) < 0
  {
    assert StrCompare("10", "1a") == StrCompare("10"[1..], "1a"[1..]);
    assert "10"[1..][0] == '0' && "1a"[1..][0] == 'a';
  }

  /** Type-aware equality is exactly equality of index keys. */
  lemma EqualIsSameKey(f: NumFormat, a: Value, b: Value)
    ensures Equal(f, a, b) <==> Render(f, a) == Render(f, b)
  {
  }

  datatype Cmp = Eq | Neq | Gt | Gte | Lt | Lte

  datatype Filter =
    | MatchAll
    | FieldTest(field: string, op: Cmp, value: Value)
    | And(subs: seq<Filter>)
    | Or(subs: seq<Filter>)

  predicate Holds(f: RawFormat, op: Cmp, v: Value, w: Value) {
    match op
    case Eq => Equal(f, v, w)
    case Neq => !Equal(f, v, w)
    case Gt => Compare(f, v, w) > 0
    case Gte => Compare(f, v, w) >= 0
    case Lt => Compare(f, v, w) < 0
    case Lte => Compare(f, v, w) <= 0
  }

  /** On two numbers the tests are the integer ones; on two strings, those of their order. */
  lemma HoldsOnNumbers(f: RawFormat, a: int, b: int)
    ensures Holds(f, Eq, Num(a), Num(b)) <==> a == b
    ensures Holds(f, Neq, Num(a), Num(b)) <==> a != b
    ensures Holds(f, Gt, Num(a), Num(b)) <==> b < a
    ensures Holds(f, Gte, Num(a), Num(b)) <==> b <= a
    ensures Holds(f, Lt, Num(a), Num(b)) <==> a < b
    ensures Holds(f, Lte, Num(a), Num(b)) <==> a <= b
  {
  }

  lemma HoldsOnText(f: RawFormat, a: string, b: string)
    ensures Holds(f, Eq, Str(a), Str(b)) <==> a == b
    ensures Holds(f, Neq, Str(a), Str(b)) <==> a != b
    ensures Holds(f, Lt, Str(a), Str(b)) <==> StrBefore(a, b)
    ensures Holds(f, Gte, Str(a), Str(b)) <==> !StrBefore(a, b)
    ensures Holds(f, Gt, Str(a), Str(b)) <==> StrBefore(b, a)
    ensures Holds(f, Lte, Str(a), Str(b)) <==> !StrBefore(b, a)
  {
    BeforeIff(a, b);
    BeforeIff(b, a);
    StrCompareFlip(a, b);
  }

  /** `a` is a proper prefix of `b`, or smaller at the first place where they differ. */
  ghost predicate StrBefore(a: string, b: string) {
    exists k: nat :: DiffersAt(a, b, k)
  }

  predicate DiffersAt(a: string, b: string, k: nat) {
    k <= |a| && k < |b| && a[..k] == b[..k] && (k == |a| || a[k] < b[k])
  }

  lemma {:induction false} BeforeIff(a: string, b: string)
    ensures StrCompare(a, b) < 0 <==> StrBefore(a, b)
  {
    if a != [] && b != [] && a[0] == b[0] {
      BeforeIff(a[1..], b[1..]);
      if k: nat :| DiffersAt(a[1..], b[1..], k) {
        assert a[..k + 1] == [a[0]] + a[1..][..k] && b[..k + 1] == [b[0]] + b[1..][..k];
        assert DiffersAt(a, b, k + 1);
      }
      if k: nat :| DiffersAt(a, b, k) {
        if k > 0 {
          assert a[1..][..k - 1] == a[..k][1..] && b[1..][..k - 1] == b[..k][1..];
          assert DiffersAt(a[1..], b[1..], k - 1);
        }
      }
    } else if StrCompare(a, b) < 0 {
      assert DiffersAt(a, b, 0);
    } else if k: nat :| DiffersAt(a, b, k) {
      if k > 0 { assert a[..k][0] == b[..k][0]; }
    }
  }

  /** Filter.Match */
  predicate Match(f: RawFormat, flt: Filter, d: Data)
    decreases flt
  {
    match flt
    case MatchAll => true
    case FieldTest(field, op, w) => field in d && Holds(f, op, d[field], w)
    case And(subs) => forall i | 0 <= i < |subs| :: Match(f, subs[i], d)
    case Or(subs) => exists i | 0 <= i < |subs| :: Match(f, subs[i], d)
  }
}
