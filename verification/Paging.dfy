/** Ordered scans and keyset pagination: pages fetched by following the cursor are exactly
    the fully sorted rows. */
module Paging {
  import opened Common
  import opened Values
  import opened Log
  import opened Ordering
  import TopK
  import opened Collections
  import opened Queries
  import Store

  datatype SortField = SortField(field: string, desc: bool)

  /** A row's sort key: an absent field reads as null. */
  function KeyOf(d: Data, f: string): Value {
    if f in d then d[f] else NIL
  }

  /** sortLess up to the id tiebreak: the first field on which the two differ decides. */
  function SortCompare(fmt: RawFormat, fields: seq<SortField>, a: Data, b: Data): int {
    if fields == [] then 0 else
    var sf := fields[0];
    var c := Compare(fmt, KeyOf(a, sf.field), KeyOf(b, sf.field));
    if c != 0 then (if sf.desc then -c else c) else SortCompare(fmt, fields[1..], a, b)
  }

  predicate SortLess(fmt: RawFormat, fields: seq<SortField>, a: Entry, b: Entry) {
    var c := SortCompare(fmt, fields, a.data, b.data);
    c < 0 || (c == 0 && a.id < b.id)
  }

  function Less(fmt: RawFormat, fields: seq<SortField>): (Entry, Entry) -> bool {
    (a, b) => SortLess(fmt, fields, a, b)
  }

  /** On each sort field the rows are all numeric or all non-numeric, absent counting as
      non-numeric. */
  ghost predicate Homogeneous(fields: seq<SortField>, rows: set<Entry>) {
    forall sf, a, b | sf in fields && a in rows && b in rows :: KeyOf(a.data, sf.field).Num? == KeyOf(b.data, sf.field).Num?
  }

  predicate UniqueIds(rows: set<Entry>) {
    forall a, b | a in rows && b in rows && a.id == b.id :: a == b
  }

  lemma {:induction false} SortFlip(fmt: RawFormat, fields: seq<SortField>, a: Data, b: Data)
    ensures SortCompare(fmt, fields, a, b) == -SortCompare(fmt, fields, b, a)
  {
    if fields != [] {
      CompareFlip(fmt, KeyOf(a, fields[0].field), KeyOf(b, fields[0].field));
      SortFlip(fmt, fields[1..], a, b);
    }
  }

  predicate SameKinds(fields: seq<SortField>, a: Data, b: Data) {
    forall sf | sf in fields :: KeyOf(a, sf.field).Num? == KeyOf(b, sf.field).Num?
  }

  lemma {:induction false} SortTrans(fmt: RawFormat, fields: seq<SortField>, a: Data, b: Data, c: Data)
    requires SameKinds(fields, a, b) && SameKinds(fields, b, c)
    requires SortCompare(fmt, fields, a, b) <= 0 && SortCompare(fmt, fields, b, c) <= 0
    ensures SortCompare(fmt, fields, a, c) <= 0
    ensures SortCompare(fmt, fields, a, b) < 0 || SortCompare(fmt, fields, b, c) < 0 ==> SortCompare(fmt, fields, a, c) < 0
  {
    if fields != [] {
      var sf := fields[0];
      var x, y, z := KeyOf(a, sf.field), KeyOf(b, sf.field), KeyOf(c, sf.field);
      assert sf in fields;
      if sf.desc {
        FlipThree(fmt, x, y, z);
        CompareTrans(fmt, z, y, x);
      } else {
        CompareTrans(fmt, x, y, z);
      }
      if Compare(fmt, x, y) == 0 && Compare(fmt, y, z) == 0 {
        SortTrans(fmt, fields[1..], a, b, c);
      }
    }
  }

  lemma FlipThree(fmt: RawFormat, x: Value, y: Value, z: Value)
    ensures Compare(fmt, x, y) == -Compare(fmt, y, x) && Compare(fmt, y, z) == -Compare(fmt, z, y)
    ensures Compare(fmt, x, z) == -Compare(fmt, z, x)
  {
    CompareFlip(fmt, x, y);
    CompareFlip(fmt, y, z);
    CompareFlip(fmt, x, z);
  }

  /** Under homogeneous sort fields the ordering is total: the id breaks every tie. */
  lemma SortIsTotal(fmt: RawFormat, fields: seq<SortField>, rows: set<Entry>)
    requires Homogeneous(fields, rows) && UniqueIds(rows)
    ensures StrictTotal(Less(fmt, fields), rows)
  {
    var less := Less(fmt, fields);
    forall a | a in rows ensures !less(a, a) {
      SortFlip(fmt, fields, a.data, a.data);
    }
    forall a, b | a in rows && b in rows && a != b ensures less(a, b) || less(b, a) {
      SortFlip(fmt, fields, a.data, b.data);
    }
    forall a, b, c | a in rows && b in rows && c in rows && less(a, b) && less(b, c) ensures less(a, c) {
      SortTrans(fmt, fields, a.data, b.data, c.data);
    }
  }

  // ---- The order in plain terms ------------------------------------------------------------

  /** The two rows compare equal on the first k sort fields. */
  predicate TieBelow(fmt: RawFormat, fields: seq<SortField>, a: Data, b: Data, k: nat)
    requires k <= |fields|
  {
    forall i | 0 <= i < k :: Compare(fmt, KeyOf(a, fields[i].field), KeyOf(b, fields[i].field)) == 0
  }

  /** Field k is the first on which they differ, and puts `a` first: the smaller value when
      ascending, the larger when descending. */
  predicate DecidedAt(fmt: RawFormat, fields: seq<SortField>, a: Data, b: Data, k: nat)
    requires k < |fields|
  {
    var c := Compare(fmt, KeyOf(a, fields[k].field), KeyOf(b, fields[k].field));
    TieBelow(fmt, fields, a, b, k) && (if fields[k].desc then c > 0 else c < 0)
  }

  /** Some field puts `a` first, or none decides and its id is the smaller. */
  predicate InOrder(fmt: RawFormat, fields: seq<SortField>, a: Entry, b: Entry) {
    || (exists k | 0 <= k < |fields| :: DecidedAt(fmt, fields, a.data, b.data, k))
    || (TieBelow(fmt, fields, a.data, b.data, |fields|) && a.id < b.id)
  }

  lemma {:induction false} ComparedAt(fmt: RawFormat, fields: seq<SortField>, a: Data, b: Data)
    ensures SortCompare(fmt, fields, a, b) == 0 <==> TieBelow(fmt, fields, a, b, |fields|)
    ensures SortCompare(fmt, fields, a, b) < 0 <==> exists k | 0 <= k < |fields| :: DecidedAt(fmt, fields, a, b, k)
  {
    hide Compare, KeyOf, DecidedAt, TieBelow;
    if fields == [] {
      FirstDecides(fmt, fields, a, b);
    } else {
      var rest := fields[1..];
      ComparedAt(fmt, rest, a, b);
      FirstDecides(fmt, fields, a, b);
      if Compare(fmt, KeyOf(a, fields[0].field), KeyOf(b, fields[0].field)) == 0 {
        TieMore(fmt, fields, a, b, |rest|);
        if k :| 0 <= k < |rest| && DecidedAt(fmt, rest, a, b, k) {
          DecidedMore(fmt, fields, a, b, k);
        }
        if k :| 0 <= k < |fields| && DecidedAt(fmt, fields, a, b, k) {
          DecidedMore(fmt, fields, a, b, k - 1);
        }
      }
    }
  }

  /** The first sort field decides unless the rows tie on it. */
  lemma FirstDecides(fmt: RawFormat, fields: seq<SortField>, a: Data, b: Data)
    ensures fields == [] ==> TieBelow(fmt, fields, a, b, |fields|)
    ensures fields != [] ==>
              var c := Compare(fmt, KeyOf(a, fields[0].field), KeyOf(b, fields[0].field));
              && (DecidedAt(fmt, fields, a, b, 0) <==> c != 0 && (fields[0].desc <==> c > 0))
              && (c != 0 ==> && !TieBelow(fmt, fields, a, b, |fields|)
                             && forall k | 0 < k < |fields| :: !DecidedAt(fmt, fields, a, b, k))
  {
    hide Compare, KeyOf;
  }

  lemma DecidedMore(fmt: RawFormat, fields: seq<SortField>, a: Data, b: Data, k: nat)
    requires fields != [] && k < |fields[1..]|
    requires Compare(fmt, KeyOf(a, fields[0].field), KeyOf(b, fields[0].field)) == 0
    ensures DecidedAt(fmt, fields, a, b, k + 1) <==> DecidedAt(fmt, fields[1..], a, b, k)
  {
    hide Compare, KeyOf, TieBelow;
    TieMore(fmt, fields, a, b, k);
  }

  lemma TieMore(fmt: RawFormat, fields: seq<SortField>, a: Data, b: Data, k: nat)
    requires fields != [] && k <= |fields[1..]|
    requires Compare(fmt, KeyOf(a, fields[0].field), KeyOf(b, fields[0].field)) == 0
    ensures TieBelow(fmt, fields, a, b, k + 1) <==> TieBelow(fmt, fields[1..], a, b, k)
  {
    var rest := fields[1..];
    assert forall i | 0 <= i < |rest| :: rest[i] == fields[i + 1];
    if TieBelow(fmt, rest, a, b, k) {
      forall i | 0 <= i < k + 1 ensures Compare(fmt, KeyOf(a, fields[i].field), KeyOf(b, fields[i].field)) == 0 {
        if i > 0 { assert rest[i - 1] == fields[i]; }
      }
    }
    if TieBelow(fmt, fields, a, b, k + 1) {
      forall i | 0 <= i < k ensures Compare(fmt, KeyOf(a, rest[i].field), KeyOf(b, rest[i].field)) == 0 {
        assert rest[i] == fields[i + 1];
      }
    }
  }

  lemma InOrderIff(fmt: RawFormat, fields: seq<SortField>, a: Entry, b: Entry)
    ensures SortLess(fmt, fields, a, b) <==> InOrder(fmt, fields, a, b)
  {
    hide SortCompare, TieBelow, DecidedAt;
    ComparedAt(fmt, fields, a.data, b.data);
  }

  /** Every row comes before every later one. */
  predicate Sorted(fmt: RawFormat, fields: seq<SortField>, rows: seq<Entry>) {
    forall i, j | 0 <= i < j < |rows| :: InOrder(fmt, fields, rows[i], rows[j])
  }

  lemma SliceSorted(fmt: RawFormat, fields: seq<SortField>, full: seq<Entry>, offset: nat, limit: int)
    requires Increases(Less(fmt, fields), full)
    ensures Sorted(fmt, fields, full) && Sorted(fmt, fields, Slice(full, offset, limit))
  {
    hide SortLess, InOrder;
    var less := Less(fmt, fields);
    forall i, j | 0 <= i < j < |full| ensures InOrder(fmt, fields, full[i], full[j]) {
      assert less(full[i], full[j]);
      InOrderIff(fmt, fields, full[i], full[j]);
    }
    var out := Slice(full, offset, limit);
    forall i, j | 0 <= i < j < |out| ensures InOrder(fmt, fields, out[i], out[j]) {
      assert out[i] == full[offset + i] && out[j] == full[offset + j];
    }
  }

  /** All rows have a number in this field. */
  predicate Numeric(f: string, rows: seq<Entry>) {
    forall r | r in rows :: f in r.data && r.data[f].Num?
  }

  /** Sorted by one numeric field, the numbers do not fall when ascending and do not rise when
      descending. */
  lemma NumbersSorted(fmt: RawFormat, f: string, desc: bool, rows: seq<Entry>, i: nat, j: nat)
    requires Sorted(fmt, [SortField(f, desc)], rows) && Numeric(f, rows) && i < j < |rows|
    ensures rows[i] in rows && rows[j] in rows
    ensures if desc then rows[j].data[f].n <= rows[i].data[f].n else rows[i].data[f].n <= rows[j].data[f].n
  {
    var fields, a, b := [SortField(f, desc)], rows[i], rows[j];
    assert a in rows && b in rows && InOrder(fmt, fields, a, b) && fields[0] == SortField(f, desc);
    if TieBelow(fmt, fields, a.data, b.data, 1) {
      assert Compare(fmt, KeyOf(a.data, fields[0].field), KeyOf(b.data, fields[0].field)) == 0;
    } else {
      assert DecidedAt(fmt, fields, a.data, b.data, 0);
    }
  }

  // ---- The cursor --------------------------------------------------------------------------

  /** A decoded page token: the sort keys and id of the last row emitted. */
  datatype Cursor = Cursor(keys: seq<Value>, id: nat)

  function CursorOf(fields: seq<SortField>, r: Entry): Cursor {
    Cursor(seq(|fields|, i requires 0 <= i < |fields| => KeyOf(r.data, fields[i].field)), r.id)
  }

  function BoundaryData(fields: seq<SortField>, keys: seq<Value>, n: nat): Data
    requires n <= |fields| == |keys|
  {
    if n == 0 then map[] else BoundaryData(fields, keys, n - 1)[fields[n - 1].field := keys[n - 1]]
  }

  /** The synthetic row that carries a cursor's keys and id. */
  function Boundary(fields: seq<SortField>, cur: Cursor): Entry
    requires |cur.keys| == |fields|
  {
    Entry(cur.id, Op.Insert, 0, 0, BoundaryData(fields, cur.keys, |fields|), 0, 0)
  }

  predicate SameKeys(fields: seq<SortField>, a: Data, b: Data) {
    forall i | 0 <= i < |fields| :: KeyOf(a, fields[i].field) == KeyOf(b, fields[i].field)
  }

  lemma {:induction false} BoundaryKeys(fields: seq<SortField>, d: Data, keys: seq<Value>, n: nat)
    requires n <= |fields| == |keys| && forall i | 0 <= i < |fields| :: keys[i] == KeyOf(d, fields[i].field)
    ensures forall i | 0 <= i < n :: KeyOf(BoundaryData(fields, keys, n), fields[i].field) == KeyOf(d, fields[i].field)
  {
    if n > 0 { BoundaryKeys(fields, d, keys, n - 1); }
  }

  lemma {:induction false} SameCompare(fmt: RawFormat, fields: seq<SortField>, a: Data, b: Data, x: Data)
    requires SameKeys(fields, a, b)
    ensures SortCompare(fmt, fields, a, x) == SortCompare(fmt, fields, b, x)
  {
    if fields != [] {
      assert KeyOf(a, fields[0].field) == KeyOf(b, fields[0].field);
      forall i | 0 <= i < |fields[1..]| ensures KeyOf(a, fields[1..][i].field) == KeyOf(b, fields[1..][i].field) {
        assert fields[1..][i] == fields[i + 1];
      }
      SameCompare(fmt, fields[1..], a, b, x);
    }
  }

  /** Seeking past a row's cursor is seeking past the row. */
  lemma CursorIsRow(fmt: RawFormat, fields: seq<SortField>, last: Entry, r: Entry)
    ensures SortLess(fmt, fields, Boundary(fields, CursorOf(fields, last)), r) <==> SortLess(fmt, fields, last, r)
  {
    var cur := CursorOf(fields, last);
    BoundaryKeys(fields, last.data, cur.keys, |fields|);
    SameCompare(fmt, fields, Boundary(fields, cur).data, last.data, r.data);
  }

  /** cursorAfter: without a cursor every row, otherwise those strictly after it. */
  predicate After(fmt: RawFormat, fields: seq<SortField>, cursor: Option<Cursor>, r: Entry)
    requires cursor.Some? ==> |cursor.value.keys| == |fields|
  {
    cursor.None? || SortLess(fmt, fields, Boundary(fields, cursor.value), r)
  }

  ghost function RowsAfter(fmt: RawFormat, fields: seq<SortField>, cursor: Option<Cursor>, S: set<Entry>): set<Entry>
    requires cursor.Some? ==> |cursor.value.keys| == |fields|
  {
    set r | r in S && After(fmt, fields, cursor, r)
  }

  // ---- One page ------------------------------------------------------------------------------

  datatype Page = Page(rows: seq<Entry>, next: Option<Cursor>) | InvalidToken

  /** The rows collected in visiting order. */
  method Collect(fmt: RawFormat, fields: seq<SortField>, rows: seq<Entry>, cursor: Option<Cursor>, ghost S: set<Entry>)
    returns (out: seq<Entry>)
    requires NoDup(rows) && Lists(rows, S) && (cursor.Some? ==> |cursor.value.keys| == |fields|)
    ensures NoDup(out) && Lists(out, RowsAfter(fmt, fields, cursor, S))
  {
    hide SortLess;
    out := [];
    for i := 0 to |rows|
      invariant NoDup(out) && forall r :: r in out <==> r in rows[..i] && After(fmt, fields, cursor, r)
    {
      TakeSnoc(rows, i);
      assert rows[i] !in rows[..i];
      if After(fmt, fields, cursor, rows[i]) {
        out := out + [rows[i]];
      }
    }
    TakeAll(rows);
  }

  /** The smallest offset + limit rows past the cursor, in order, and how many there were. */
  method CollectTop(fmt: RawFormat, fields: seq<SortField>, rows: seq<Entry>, cursor: Option<Cursor>,
                    cap: int, ghost S: set<Entry>)
    returns (out: seq<Entry>, matched: nat)
    requires NoDup(rows) && Lists(rows, S) && (cursor.Some? ==> |cursor.value.keys| == |fields|) && cap >= 0
    requires StrictTotal(Less(fmt, fields), S)
    ensures var past := RowsAfter(fmt, fields, cursor, S);
            && matched == |past| && |out| == TopK.Min(cap, |past|)
            && forall full :: Arranges(Less(fmt, fields), full, past) ==> |full| == |past| && out == full[..|out|]
  {
    hide SortLess, StrictTotal, Arranges, TopK.Buffer.Valid;
    var less := Less(fmt, fields);
    var th := new TopK.Buffer(less, cap, S);
    matched := 0;
    for i := 0 to |rows|
      invariant th.Valid(S) && th.less == less && th.cap == cap && matched == |th.seen|
      invariant forall r :: r in th.seen <==> r in rows[..i] && After(fmt, fields, cursor, r)
    {
      TakeSnoc(rows, i);
      assert rows[i] !in rows[..i];
      if After(fmt, fields, cursor, rows[i]) {
        matched := matched + 1;
        th.Push(rows[i], S);
      }
    }
    TakeAll(rows);
    assert th.seen == RowsAfter(fmt, fields, cursor, S);
    out := th.Sorted(S);
  }

  function Slice(s: seq<Entry>, offset: nat, limit: int): seq<Entry> {
    var rest := if offset < |s| then s[offset..] else [];
    if limit > 0 && limit < |rest| then rest[..limit] else rest
  }

  /** The page is the rows from place `offset` on, `limit` of them or as many as there are. */
  predicate PageOf(rows: seq<Entry>, full: seq<Entry>, offset: nat, limit: int) {
    && (forall i | 0 <= i < |rows| :: offset + i < |full| && rows[i] == full[offset + i])
    && (if limit > 0 && offset + limit <= |full| then |rows| == limit
        else if offset <= |full| then |rows| == |full| - offset
        else rows == [])
  }

  lemma SlicePages(full: seq<Entry>, offset: nat, limit: int)
    ensures PageOf(Slice(full, offset, limit), full, offset, limit)
  {
  }

  /** scanOrdered: the page is the slice of the full sort that starts `offset` rows past the
      cursor; a cursor for the next page is set exactly when rows remain. */
  method ScanOrdered(fmt: RawFormat, fields: seq<SortField>, rows: seq<Entry>, offset: nat, limit: int, cursor: Option<Cursor>,
                     ghost S: set<Entry>, ghost full: seq<Entry>) returns (p: Page)
    requires NoDup(rows) && Lists(rows, S) && StrictTotal(Less(fmt, fields), S)
    requires (cursor.None? || |cursor.value.keys| == |fields|) ==>
               Arranges(Less(fmt, fields), full, RowsAfter(fmt, fields, cursor, S))
    ensures p.InvalidToken? <==> cursor.Some? && |cursor.value.keys| != |fields|
    ensures !p.InvalidToken? ==>
              && p.rows == Slice(full, offset, limit)
              && p.next == if limit > 0 && p.rows != [] && |full| > offset + limit
                           then Some(CursorOf(fields, p.rows[|p.rows| - 1])) else None
    ensures !p.InvalidToken? ==> Sorted(fmt, fields, p.rows) && PageOf(p.rows, full, offset, limit)
  {
    hide SortLess, StrictTotal, CursorOf, Arranges, Slice, NoDup, Lists, Sorted, PageOf;
    if cursor.Some? && |cursor.value.keys| != |fields| {
      return InvalidToken;
    }
    var page;
    var matched: nat := 0;
    ghost var past := RowsAfter(fmt, fields, cursor, S);
    SubOrder(Less(fmt, fields), S, past);
    ArrangedSorted(fmt, fields, full, past, offset, limit);
    if limit > 0 {
      page, matched := CollectTop(fmt, fields, rows, cursor, offset + limit, S);
      assert Arranges(Less(fmt, fields), full, past);
      SliceTop(full, offset, limit);
    } else {
      var out := Collect(fmt, fields, rows, cursor, S);
      page := SortBy(Less(fmt, fields), out, past);
      OneArrangement(Less(fmt, fields), page, full, past);
    }
    page := Slice(page, offset, limit);
    SlicePages(full, offset, limit);
    var next := if limit > 0 && |page| > 0 && matched > offset + limit then Some(CursorOf(fields, page[|page| - 1])) else None;
    p := Page(page, next);
  }

  lemma ArrangedSorted(fmt: RawFormat, fields: seq<SortField>, full: seq<Entry>, S: set<Entry>, offset: nat, limit: int)
    requires Arranges(Less(fmt, fields), full, S)
    ensures Sorted(fmt, fields, full) && Sorted(fmt, fields, Slice(full, offset, limit))
  {
    SliceSorted(fmt, fields, full, offset, limit);
  }

  lemma SliceTop(full: seq<Entry>, offset: nat, limit: int)
    requires limit > 0
    ensures Slice(full[..TopK.Min(offset + limit, |full|)], offset, limit) == Slice(full, offset, limit)
  {
  }

  lemma SubOrder<T>(less: (T, T) -> bool, S: set<T>, A: set<T>)
    requires StrictTotal(less, S) && A <= S
    ensures StrictTotal(less, A)
  {
  }

  /** scanUnordered: skip `offset` rows of the natural order, then emit up to `limit`. */
  method ScanUnordered(rows: seq<Entry>, offset: nat, limit: int) returns (out: seq<Entry>)
    ensures out == Slice(rows, offset, limit) && PageOf(out, rows, offset, limit)
  {
    out := [];
    var skipped := 0;
    for i := 0 to |rows|
      invariant skipped == if i < offset then i else offset
      invariant out == if i < offset then [] else rows[offset..i]
      invariant limit > 0 ==> |out| < limit
    {
      if skipped < offset {
        skipped := skipped + 1;
      } else {
        out := out + [rows[i]];
        if limit > 0 && |out| >= limit {
          return;
        }
      }
    }
  }

  /** ScanStream: a sort or a page token makes the scan ordered; without either it is not, and
      gives no token. */
  method ScanStream(c: Collection, flt: Filter, now: int, fields: seq<SortField>, offset: nat, limit: int,
                    cursor: Option<Cursor>,
                    ghost S: set<Entry>, ghost full: seq<Entry>) returns (p: Page)
    requires c.Valid() && S == Served(c, flt, now) && StrictTotal(Less(c.cfg.fmt, fields), S)
    requires (cursor.None? || |cursor.value.keys| == |fields|) ==>
               Arranges(Less(c.cfg.fmt, fields), full, RowsAfter(c.cfg.fmt, fields, cursor, S))
    ensures p.InvalidToken? <==> cursor.Some? && |cursor.value.keys| != |fields|
    ensures !p.InvalidToken? && (fields != [] || cursor.Some?) ==>
              && p.rows == Slice(full, offset, limit)
              && p.next == if limit > 0 && p.rows != [] && |full| > offset + limit
                           then Some(CursorOf(fields, p.rows[|p.rows| - 1])) else None
    ensures !p.InvalidToken? && (fields != [] || cursor.Some?) ==>
              Sorted(c.cfg.fmt, fields, p.rows) && PageOf(p.rows, full, offset, limit)
    ensures fields == [] && cursor.None? ==>
              && p.next.None? && NoDup(p.rows) && (forall r | r in p.rows :: r in S)
              && |p.rows| == PageSize(|S|, offset, limit)
  {
    hide SortLess, StrictTotal, CursorOf, Arranges, Less, Served, Complete, Store.Core, Writes.Tracks, Writes.TotalBytes,
         Writes.HeldLive, Sorted, PlainlyAnswered, PageOf;
    var rows := ForEachMatch(c, flt, now);
    if fields == [] && cursor.None? {
      var out := ScanUnordered(rows, offset, limit);
      SliceOf(rows, S, offset, limit);
      return Page(out, None);
    }
    p := ScanOrdered(c.cfg.fmt, fields, rows, offset, limit, cursor, S, full);
  }

  function PageSize(n: nat, offset: nat, limit: int): nat {
    var rest := if offset < n then n - offset else 0;
    if limit > 0 && limit < rest then limit else rest
  }

  lemma SliceOf(rows: seq<Entry>, S: set<Entry>, offset: nat, limit: int)
    requires NoDup(rows) && Lists(rows, S)
    ensures var out := Slice(rows, offset, limit);
            NoDup(out) && (forall r | r in out :: r in S) && |out| == PageSize(|S|, offset, limit)
    ensures var n := PageSize(|S|, offset, limit);
            if limit > 0 && offset + limit <= |S| then n == limit else if offset <= |S| then n == |S| - offset else n == 0
  {
    ListSize(rows, S);
    var out := Slice(rows, offset, limit);
    forall r | r in out ensures r in rows {
      var i :| 0 <= i < |out| && out[i] == r;
      assert rows[offset + i] == r;
    }
  }

  // ---- All pages --------------------------------------------------------------------------------

  /** The rows past the k-th of a full sort are the rest of that sort. */
  lemma SuffixArranges(fmt: RawFormat, fields: seq<SortField>, full: seq<Entry>, S: set<Entry>, k: nat)
    requires StrictTotal(Less(fmt, fields), S) && Arranges(Less(fmt, fields), full, S) && 0 < k <= |full|
    ensures Arranges(Less(fmt, fields), full[k..], RowsAfter(fmt, fields, Some(CursorOf(fields, full[k - 1])), S))
  {
    hide SortLess, CursorOf;
    var less := Less(fmt, fields);
    var last := full[k - 1];
    CursorSize(fields, last);
    var past := RowsAfter(fmt, fields, Some(CursorOf(fields, last)), S);
    assert last in S;
    forall r | r in S ensures r in past <==> less(last, r) {
      CursorIsRow(fmt, fields, last, r);
    }
    forall r | r in past ensures r in full[k..] {
      var i :| 0 <= i < |full| && full[i] == r;
      assert full[k..][i - k] == r;
    }
    forall r | r in full[k..] ensures r in past {
      var i :| 0 <= i < |full[k..]| && full[k..][i] == r;
      assert less(full[k - 1], full[k + i]);
    }
  }

  lemma CursorSize(fields: seq<SortField>, r: Entry)
    ensures |CursorOf(fields, r).keys| == |fields|
  {
  }

  lemma AllAfterNothing(fmt: RawFormat, fields: seq<SortField>, S: set<Entry>)
    ensures RowsAfter(fmt, fields, None, S) == S
  {
  }

  /** Following the next-page cursor from the first page, each page a scan of its own over a
      collection that does not change meanwhile. */
  method FetchAll(c: Collection, flt: Filter, now: int, fields: seq<SortField>, limit: int,
                  ghost S: set<Entry>, ghost full: seq<Entry>)
    returns (all: seq<Entry>)
    requires c.Valid() && limit > 0 && S == Served(c, flt, now)
    requires StrictTotal(Less(c.cfg.fmt, fields), S) && Arranges(Less(c.cfg.fmt, fields), full, S)
    ensures fields != [] ==> all == full
    ensures fields == [] ==> NoDup(all) && (forall r | r in all :: r in S) && |all| == PageSize(|S|, 0, limit)
  {
    hide SortLess, StrictTotal, CursorOf, Arranges, Served, Less, Store.Core, Writes.Tracks, Writes.TotalBytes,
         Writes.HeldLive, Sorted;
    var fmt := c.cfg.fmt;
    AllAfterNothing(fmt, fields, S);
    all := [];
    var cursor: Option<Cursor> := None;
    assert full[0..] == full;
    if fields == [] {
      var only := ScanStream(c, flt, now, fields, 0, limit, None, S, full);
      return only.rows;
    }
    while true
      invariant |all| <= |full| && all == full[..|all|]
      invariant cursor.Some? ==> |cursor.value.keys| == |fields|
      invariant Arranges(Less(fmt, fields), full[|all|..], RowsAfter(fmt, fields, cursor, S))
      decreases |full| - |all|
    {
      var p := ScanStream(c, flt, now, fields, 0, limit, cursor, S, full[|all|..]);
      all := all + p.rows;
      if p.next.None? {
        return;
      }
      CursorSize(fields, p.rows[|p.rows| - 1]);
      SuffixArranges(fmt, fields, full, S, |all|);
      cursor := p.next;
    }
  }

  /** Keyset pagination: under a sort the concatenated pages are the full sort of what the scan
      yields, each record once; with no sort there is one page. With the index used in sync,
      the scan yields the matching records. */
  method PageThrough(c: Collection, flt: Filter, fields: seq<SortField>, limit: int, now: int) returns (all: seq<Entry>)
    requires c.Valid() && limit > 0 && Homogeneous(fields, Served(c, flt, now))
    ensures NoDup(all)
    ensures fields != [] ==> Arranges(Less(c.cfg.fmt, fields), all, Served(c, flt, now)) && Sorted(c.cfg.fmt, fields, all)
    ensures |fields| == 1 && Numeric(fields[0].field, all) ==>
              var f := fields[0].field;
              forall i, j | 0 <= i < j < |all| ::
                && all[i] in all && all[j] in all
                && if fields[0].desc then all[j].data[f].n <= all[i].data[f].n else all[i].data[f].n <= all[j].data[f].n
    ensures fields == [] ==>
              (forall r | r in all :: r in Served(c, flt, now)) && |all| == PageSize(|Served(c, flt, now)|, 0, limit)
    ensures InSync(c, flt) ==> Served(c, flt, now) == Matching(c.cfg.fmt, c.view, flt, now)
  {
    hide SortLess, StrictTotal, Homogeneous, Arranges, UniqueIds, Less, Served, Store.Core, Writes.Tracks, Writes.TotalBytes,
         Writes.HeldLive, Sorted;
    ghost var S := Served(c, flt, now);
    ServedIds(c, flt, now);
    SortIsTotal(c.cfg.fmt, fields, S);
    ghost var full := Arrangement(Less(c.cfg.fmt, fields), S);
    all := FetchAll(c, flt, now, fields, limit, S, full);
    if fields != [] {
      IncreasesNoDup(Less(c.cfg.fmt, fields), all, S);
      ArrangedSorted(c.cfg.fmt, fields, all, S, 0, 0);
    }
    if |fields| == 1 && Numeric(fields[0].field, all) {
      OneField(fields);
      forall i, j | 0 <= i < j < |all|
        ensures all[i] in all && all[j] in all
        ensures var f := fields[0].field;
                if fields[0].desc then all[j].data[f].n <= all[i].data[f].n else all[i].data[f].n <= all[j].data[f].n
      {
        NumbersSorted(c.cfg.fmt, fields[0].field, fields[0].desc, all, i, j);
      }
    }
    if InSync(c, flt) { ServedMatches(c, flt, now); }
  }

  lemma OneField(fields: seq<SortField>)
    requires |fields| == 1
    ensures fields == [SortField(fields[0].field, fields[0].desc)]
  {
  }

  function Matching(fmt: RawFormat, v: View, flt: Filter, now: int): set<Entry> {
    set id | id in v && Wanted(fmt, flt, now, v[id]) :: v[id]
  }

  lemma ServedIds(c: Collection, flt: Filter, now: int)
    requires c.Valid()
    ensures UniqueIds(Served(c, flt, now))
  {
    hide Store.Core, Match;
    Store.CoreIds(c.cfg.len, c.sealed + [c.active], c.log, c.index, c.idSeq, c.hist, c.view);
  }

  lemma ServedMatches(c: Collection, flt: Filter, now: int)
    requires InSync(c, flt) && c.Valid()
    ensures Served(c, flt, now) == Matching(c.cfg.fmt, c.view, flt, now)
  {
    hide Store.Core, Match, Filed;
    if FromIndex(c, flt) {
      forall id | id in c.view && Wanted(c.cfg.fmt, flt, now, c.view[id]) ensures Filed(c.cfg.fmt, c.held, flt, id) {
        SyncedFiles(c.cfg.fmt, c.held, c.view, flt, id);
      }
    }
  }

  // ---- Pages of a collection that changes -----------------------------------------------------

  /** One request: the rows its scan yields, the cursor it carries, and what it answers. */
  datatype Fetch = Fetch(rows: set<Entry>, cursor: Option<Cursor>, full: seq<Entry>, page: seq<Entry>, next: Option<Cursor>)

  /** The request is answered as ScanStream answers it. */
  ghost predicate Answered(fmt: RawFormat, fields: seq<SortField>, limit: int, f: Fetch) {
    && (f.cursor.Some? ==> |f.cursor.value.keys| == |fields|)
    && StrictTotal(Less(fmt, fields), f.rows) && Arranges(Less(fmt, fields), f.full, RowsAfter(fmt, fields, f.cursor, f.rows))
    && f.page == Slice(f.full, 0, limit)
    && f.next == if f.page != [] && |f.full| > limit then Some(CursorOf(fields, f.page[|f.page| - 1])) else None
  }

  /** Requests that follow the cursor to its end, the records changing in between. */
  ghost predicate Followed(fmt: RawFormat, fields: seq<SortField>, limit: int, fs: seq<Fetch>) {
    && limit > 0 && fs != [] && fs[0].cursor.None? && fs[|fs| - 1].next.None?
    && (forall i | 0 <= i < |fs| :: Answered(fmt, fields, limit, fs[i]))
    && (forall i | 0 < i < |fs| :: fs[i].cursor.Some? && fs[i].cursor == fs[i - 1].next)
  }

  /** A row past the cursor is on the page or past the next one. */
  lemma OnPageOrLater(fmt: RawFormat, fields: seq<SortField>, limit: int, f: Fetch, r: Entry)
    requires limit > 0 && Answered(fmt, fields, limit, f) && r in f.rows && After(fmt, fields, f.cursor, r)
    ensures r in f.page || f.next.Some?
    ensures f.next.Some? ==> |f.next.value.keys| == |fields| && (r in f.page || After(fmt, fields, f.next, r))
  {
    hide SortLess, StrictTotal, CursorOf;
    assert r in RowsAfter(fmt, fields, f.cursor, f.rows);
    var i :| 0 <= i < |f.full| && f.full[i] == r;
    if f.next.Some? {
      var last := f.page[|f.page| - 1];
      CursorSize(fields, last);
      if r !in f.page {
        assert f.page == f.full[..limit] && last == f.full[limit - 1];
        assert forall k | 0 <= k < limit :: f.full[k] == f.page[k] && f.page[k] in f.page;
        assert Less(fmt, fields)(f.full[limit - 1], f.full[i]);
        CursorIsRow(fmt, fields, last, r);
      }
    } else {
      assert f.page == f.full;
    }
  }

  lemma {:induction false} StillAhead(fmt: RawFormat, fields: seq<SortField>, limit: int, fs: seq<Fetch>, r: Entry, i: nat)
    requires Followed(fmt, fields, limit, fs) && i < |fs|
    requires forall j | 0 <= j < i :: r in fs[j].rows && r !in fs[j].page
    ensures Answered(fmt, fields, limit, fs[i]) && After(fmt, fields, fs[i].cursor, r)
  {
    hide Answered;
    assert Answered(fmt, fields, limit, fs[i]);
    if i > 0 {
      StillAhead(fmt, fields, limit, fs, r, i - 1);
      OnPageOrLater(fmt, fields, limit, fs[i - 1], r);
    }
  }

  /** Nothing is skipped: a record that stays as it is throughout is on some page. */
  lemma StableIsFound(fmt: RawFormat, fields: seq<SortField>, limit: int, fs: seq<Fetch>, r: Entry)
    requires Followed(fmt, fields, limit, fs) && forall i | 0 <= i < |fs| :: r in fs[i].rows
    ensures exists i | 0 <= i < |fs| :: r in fs[i].page
  {
    hide Answered;
    if forall i | 0 <= i < |fs| :: r !in fs[i].page {
      var n := |fs| - 1;
      StillAhead(fmt, fields, limit, fs, r, n);
      OnPageOrLater(fmt, fields, limit, fs[n], r);
    }
  }

  lemma LessTrans(fmt: RawFormat, fields: seq<SortField>, U: set<Entry>, a: Entry, b: Entry, c: Entry)
    requires Homogeneous(fields, U) && a in U && b in U && c in U
    requires SortLess(fmt, fields, a, b) && SortLess(fmt, fields, b, c)
    ensures SortLess(fmt, fields, a, c)
  {
    SortTrans(fmt, fields, a.data, b.data, c.data);
  }

  /** Within a page rows ascend, and each lies past the cursor that was asked for. */
  lemma PageAscends(fmt: RawFormat, fields: seq<SortField>, limit: int, f: Fetch, x: Entry)
    requires limit > 0 && Answered(fmt, fields, limit, f) && x in f.page
    ensures x in f.rows && After(fmt, fields, f.cursor, x)
    ensures var last := f.page[|f.page| - 1];
            last in f.rows && (x == last || SortLess(fmt, fields, x, last))
  {
    hide SortLess, StrictTotal, CursorOf;
    var i :| 0 <= i < |f.page| && f.page[i] == x;
    var k := |f.page| - 1;
    assert x == f.full[i] && f.page[k] == f.full[k];
    assert x in f.full && f.full[k] in f.full;
    if i < k { assert Less(fmt, fields)(f.full[i], f.full[k]); }
  }

  /** Nothing is repeated: later pages lie strictly after earlier ones in the sort, so a record
      comes up again only if a change moved it forward. */
  lemma {:induction false} PagesAscend(fmt: RawFormat, fields: seq<SortField>, limit: int, fs: seq<Fetch>, U: set<Entry>,
                                       i: nat, j: nat, x: Entry, y: Entry)
    requires Followed(fmt, fields, limit, fs) && Homogeneous(fields, U) && (forall k | 0 <= k < |fs| :: fs[k].rows <= U)
    requires i < j < |fs| && x in fs[i].page && y in fs[j].page
    ensures SortLess(fmt, fields, x, y)
    decreases j
  {
    hide SortLess, Homogeneous, Answered, After;
    assert Answered(fmt, fields, limit, fs[i]) && Answered(fmt, fields, limit, fs[j]) && Answered(fmt, fields, limit, fs[j - 1]);
    assert fs[j].cursor.Some? && fs[j].cursor == fs[j - 1].next;
    var last := NextIsLast(fmt, fields, limit, fs[j - 1]);
    PageAscends(fmt, fields, limit, fs[j], y);
    PastLast(fmt, fields, last, y);
    PageAscends(fmt, fields, limit, fs[j - 1], last);
    PageAscends(fmt, fields, limit, fs[i], x);
    if i == j - 1 {
      if x != last { LessTrans(fmt, fields, U, x, last, y); }
    } else {
      PagesAscend(fmt, fields, limit, fs, U, i, j - 1, x, last);
      LessTrans(fmt, fields, U, x, last, y);
    }
  }

  lemma NextIsLast(fmt: RawFormat, fields: seq<SortField>, limit: int, f: Fetch) returns (last: Entry)
    requires Answered(fmt, fields, limit, f) && f.next.Some?
    ensures f.page != [] && last == f.page[|f.page| - 1] && f.next == Some(CursorOf(fields, last))
  {
    hide SortLess, StrictTotal, CursorOf;
    last := f.page[|f.page| - 1];
  }

  lemma PastLast(fmt: RawFormat, fields: seq<SortField>, last: Entry, y: Entry)
    ensures |CursorOf(fields, last).keys| == |fields|
    ensures After(fmt, fields, Some(CursorOf(fields, last)), y) ==> SortLess(fmt, fields, last, y)
  {
    CursorIsRow(fmt, fields, last, y);
  }
}
