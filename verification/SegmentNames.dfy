/** Segment file names. Open lists a collection's segments by sorting their names as strings,
    and the number is padded to six digits only, so name order is numeric order up to a point
    that these lemmas determine exactly. */
module SegmentNames {
  import opened Values

  /** n without its last k decimal digits. */
  function Drop(n: nat, k: nat): nat {
    if k == 0 then n else Drop(n / 10, k - 1)
  }

  /** The last w decimal digits of n, padded with zeros. */
  function Digits(n: nat, w: nat): (s: string)
    ensures |s| == w && forall i | 0 <= i < w :: '0' <= s[i] <= '9'
  {
    if w == 0 then "" else Digits(n / 10, w - 1) + [DigitOf(n % 10)]
  }

  function DigitOf(d: nat): (c: char)
    requires d < 10
    ensures '0' <= c <= '9'
  {
    ('0' as int + d) as char
  }

  /** The width %06d prints n with. */
  function Width(n: nat): (w: nat)
    ensures w >= 6 && Drop(n, w) == 0
  {
    if n < 1000000 then SmallWidth(n); 6 else Width(n / 10) + 1
  }

  lemma SmallWidth(n: nat)
    requires n < 1000000
    ensures Drop(n, 6) == 0
  {
    var h := n / 10 / 10 / 10;
    assert Drop(n, 6) == Drop(n / 10, 5) == Drop(n / 10 / 10, 4) == Drop(h, 3);
    assert Drop(h, 3) == Drop(h / 10, 2) == Drop(h / 10 / 10, 1) == h / 10 / 10 / 10;
  }

  function SegmentName(n: nat): string {
    "seg_" + Digits(n, Width(n)) + ".ndjson"
  }

  /** Where the sort puts one segment's file before another's. */
  predicate NameBefore(a: nat, b: nat) {
    StrCompare(SegmentName(a), SegmentName(b)) < 0
  }

  lemma {:induction false} CommonPrefix(p: string, a: string, b: string)
    ensures StrCompare(p + a, p + b) == StrCompare(a, b)
  {
    if p == "" {
      assert p + a == a && p + b == b;
    } else {
      CommonPrefix(p[1..], a, b);
      assert (p + a)[1..] == p[1..] + a && (p + b)[1..] == p[1..] + b;
    }
  }

  /** Digits of equal width compare as the numbers do; equal numbers leave it to what follows. */
  lemma {:induction false} DigitsCompare(a: nat, b: nat, w: nat, s: string, t: string)
    requires Drop(a, w) == 0 && Drop(b, w) == 0
    ensures StrCompare(Digits(a, w) + s, Digits(b, w) + t) ==
            if a < b then -1 else if b < a then 1 else StrCompare(s, t)
    decreases w
  {
    if w == 0 {
      assert Digits(a, 0) + s == s && Digits(b, 0) + t == t;
    } else {
      var x, y := DigitOf(a % 10), DigitOf(b % 10);
      DigitsCompare(a / 10, b / 10, w - 1, [x] + s, [y] + t);
      assert Digits(a, w) + s == Digits(a / 10, w - 1) + ([x] + s);
      assert Digits(b, w) + t == Digits(b / 10, w - 1) + ([y] + t);
      assert a == a / 10 * 10 + a % 10 && b == b / 10 * 10 + b % 10;
    }
  }

  lemma {:induction false} DigitsSplit(n: nat, w: nat, k: nat)
    ensures Digits(n, w + k) == Digits(Drop(n, k), w) + Digits(n, k)
    decreases k
  {
    if k == 0 {
      assert Digits(n, 0) == "";
    } else {
      DigitsSplit(n / 10, w, k - 1);
      assert Digits(n, w + k) == Digits(n / 10, w + k - 1) + [DigitOf(n % 10)];
    }
  }

  lemma {:induction false} DropDrop(n: nat, w: nat, k: nat)
    ensures Drop(Drop(n, k), w) == Drop(n, w + k)
    decreases k
  {
    if k > 0 { DropDrop(n / 10, w, k - 1); }
  }

  /** Numbers of the same width sort by name as by value. */
  lemma SameWidth(a: nat, b: nat)
    requires Width(a) == Width(b)
    ensures NameBefore(a, b) <==> a < b
  {
    hide Digits, Width, StrCompare;
    var w := Width(a);
    NameCompare(a, b);
    DigitsCompare(a, b, w, ".ndjson", ".ndjson");
  }

  lemma NameCompare(a: nat, b: nat)
    ensures StrCompare(SegmentName(a), SegmentName(b)) ==
            StrCompare(Digits(a, Width(a)) + ".ndjson", Digits(b, Width(b)) + ".ndjson")
  {
    hide Digits, Width, StrCompare;
    CommonPrefix("seg_", Digits(a, Width(a)) + ".ndjson", Digits(b, Width(b)) + ".ndjson");
    assert SegmentName(a) == "seg_" + (Digits(a, Width(a)) + ".ndjson");
    assert SegmentName(b) == "seg_" + (Digits(b, Width(b)) + ".ndjson");
  }

  /** Numbers of different widths: the shorter sorts first exactly when it does not exceed the
      longer one's leading digits, since the dot after it sorts before any digit. */
  lemma ShorterFirstIff(a: nat, b: nat)
    requires Width(a) < Width(b)
    ensures NameBefore(a, b) <==> a <= Drop(b, Width(b) - Width(a))
    ensures NameBefore(b, a) <==> a > Drop(b, Width(b) - Width(a))
  {
    hide Digits, Width, StrCompare;
    var w, k := Width(a), Width(b) - Width(a);
    var top, rest := Drop(b, k), Digits(b, k) + ".ndjson";
    NameCompare(a, b);
    DigitsSplit(b, w, k);
    DropDrop(b, w, k);
    DigitsCompare(a, top, w, ".ndjson", rest);
    assert Digits(b, w + k) + ".ndjson" == Digits(top, w) + rest;
    DotFirst(rest);
    StrCompareFlip(SegmentName(a), SegmentName(b));
  }

  lemma DotFirst(s: string)
    requires s != "" && '0' <= s[0]
    ensures StrCompare(".ndjson", s) == -1
  {
  }

  /** Name order is a strict total order on segment numbers. */
  lemma BeforeTotal(a: nat, b: nat)
    ensures a != b ==> (NameBefore(a, b) <==> !NameBefore(b, a))
    ensures !NameBefore(a, a)
  {
    hide Digits, Width, StrCompare;
    StrCompareFlip(SegmentName(a), SegmentName(b));
    if Width(a) == Width(b) {
      SameWidth(a, b);
      SameWidth(b, a);
    } else {
      assert |SegmentName(a)| == Width(a) + 11 && |SegmentName(b)| == Width(b) + 11;
    }
  }

  lemma BeforeTrans(a: nat, b: nat, c: nat)
    requires NameBefore(a, b) && NameBefore(b, c)
    ensures NameBefore(a, c)
  {
    StrCompareTrans(SegmentName(a), SegmentName(b), SegmentName(c));
  }

  /** Below a million names sort by number. */
  lemma SmallNames(a: nat, b: nat)
    requires a < b < 1000000
    ensures NameBefore(a, b)
  {
    SameWidth(a, b);
  }

  /** The first number that sorts before a smaller one. */
  lemma MillionFirst()
    ensures NameBefore(1000000, 999999) && NameBefore(100000, 1000000)
  {
    hide Digits, StrCompare, NameBefore;
    assert Width(999999) == 6 && Width(100000) == 6 && Width(1000000) == 7 && Drop(1000000, 1) == 100000;
    ShorterFirstIff(999999, 1000000);
    ShorterFirstIff(100000, 1000000);
  }
}
