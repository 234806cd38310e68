/** The two access paths of a scan: candidates from a secondary index and the stream over
    all segments. Both yield exactly the live, unexpired, matching records. */
module Queries {
  import opened Common
  import opened Values
  import opened Log
  import opened Compaction
  import opened Store
  import opened SecondaryIndexes
  import opened Writes
  import opened Collections
  import opened Ordering

  predicate Wanted(fmt: RawFormat, flt: Filter, now: int, e: Entry) {
    !Expired(e.expiresAt, now) && Match(fmt, flt, e.data)
  }

  /** `rows` lists exactly the unexpired live records the filter accepts, each once. */
  ghost predicate Exactly(rows: seq<Entry>, fmt: RawFormat, v: View, flt: Filter, now: int) {
    DistinctIds(rows) && forall e :: e in rows <==> e.id in v && v[e.id] == e && Wanted(fmt, flt, now, e)
  }

  // ---- The stream over all segments ------------------------------------------------------

  /** The test a scanned line must pass: the index points at it, and it is wanted. */
  predicate Passes(fmt: RawFormat, ix: Index, flt: Filter, now: int, l: Line) {
    && PointsAt(ix, l) && !l.e.op.Delete?
    && !Expired(ix[l.e.id].expiresAt, now) && Match(fmt, flt, l.e.data)
  }

  /** The rows the stream has yielded after n lines, in segment order. */
  function Streamed(fmt: RawFormat, ix: Index, flt: Filter, now: int, ls: seq<Line>, n: nat): seq<Entry>
    requires n <= |ls|
  {
    if n == 0 then [] else
    Streamed(fmt, ix, flt, now, ls, n - 1) + if Passes(fmt, ix, flt, now, ls[n - 1]) then [ls[n - 1].e] else []
  }

  /** Line k of the first n passed the test and is the row `e`. */
  predicate PassedAt(fmt: RawFormat, ix: Index, flt: Filter, now: int, ls: seq<Line>, n: nat, e: Entry)
    requires n <= |ls|
  {
    exists k | 0 <= k < n :: ls[k].e == e && Passes(fmt, ix, flt, now, ls[k])
  }

  lemma {:induction false} StreamedRows(fmt: RawFormat, ix: Index, flt: Filter, now: int, ls: seq<Line>, n: nat)
    requires n <= |ls| && ix == Rebuild(ls) && Placed(ls)
    ensures DistinctIds(Streamed(fmt, ix, flt, now, ls, n))
    ensures forall e :: e in Streamed(fmt, ix, flt, now, ls, n) <==> PassedAt(fmt, ix, flt, now, ls, n, e)
  {
    if n > 0 {
      StreamedRows(fmt, ix, flt, now, ls, n - 1);
      var rows := Streamed(fmt, ix, flt, now, ls, n - 1);
      forall e ensures PassedAt(fmt, ix, flt, now, ls, n, e) <==>
                       PassedAt(fmt, ix, flt, now, ls, n - 1, e) || (ls[n - 1].e == e && Passes(fmt, ix, flt, now, ls[n - 1])) {
      }
      if Passes(fmt, ix, flt, now, ls[n - 1]) {
        forall i | 0 <= i < |rows| ensures rows[i].id != ls[n - 1].e.id {
          assert rows[i] in rows;
        }
      }
    }
  }

  /** On well-formed segments the stream yields exactly the wanted records. */
  lemma StreamIsExact(fmt: RawFormat, len: LineLen, segs: seq<Segment>, log: seq<Entry>, ix: Index, idSeq: nat,
                      hist: seq<Entry>, v: View, flt: Filter, now: int)
    requires Core(len, segs, log, ix, idSeq, hist, v)
    ensures var ls := AllLines(len, segs);
            Exactly(Streamed(fmt, ix, flt, now, ls, |ls|), fmt, v, flt, now)
  {
    hide Core, Rebuild, AllLines;
    var ls := AllLines(len, segs);
    CoreLines(len, segs, log, ix, idSeq, hist, v);
    LinesPlaced(len, segs);
    StreamedRows(fmt, ix, flt, now, ls, |ls|);
    forall e ensures PassedAt(fmt, ix, flt, now, ls, |ls|, e) <==> e.id in v && v[e.id] == e && Wanted(fmt, flt, now, e) {
      if PassedAt(fmt, ix, flt, now, ls, |ls|, e) {
        var k :| 0 <= k < |ls| && ls[k].e == e && Passes(fmt, ix, flt, now, ls[k]);
        LivenessTestExact(ls, k);
        var i := LivePosition(ls, e.id);
        SameLive(ls, i, k);
      }
      if e.id in v && v[e.id] == e && Wanted(fmt, flt, now, e) {
        var i := LivePosition(ls, e.id);
        assert Passes(fmt, ix, flt, now, ls[i]);
      }
    }
  }

  lemma SameLive(ls: seq<Line>, i: nat, k: nat)
    requires i < |ls| && k < |ls| && LiveAt(ls, i) && LiveAt(ls, k) && ls[i].e.id == ls[k].e.id
    ensures i == k
  {
  }

  lemma CoreLines(len: LineLen, segs: seq<Segment>, log: seq<Entry>, ix: Index, idSeq: nat, hist: seq<Entry>, v: View)
    requires Core(len, segs, log, ix, idSeq, hist, v)
    ensures Ascending(segs) && ix == Rebuild(AllLines(len, segs)) && v == Replay(EntriesOf(AllLines(len, segs)))
    ensures ix.Keys == v.Keys && forall id | id in ix :: Mirrors(ix[id], v[id])
    ensures forall id | id in v :: !v[id].op.Delete?
  {
    CoreMirrors(len, segs, log, ix, idSeq, hist, v);
    ReplayIds(map[], log);
  }

  lemma {:induction false} LinesPrefix(len: LineLen, segs: seq<Segment>, n: nat)
    requires n <= |segs|
    ensures AllLines(len, segs[..n]) <= AllLines(len, segs)
  {
    hide LinesOf, Bytes;
    if n == |segs| {
      TakeAll(segs);
    } else {
      var init := segs[..|segs| - 1];
      LinesPrefix(len, init, n);
      assert init[..n] == segs[..n];
    }
  }

  lemma NextLines(len: LineLen, segs: seq<Segment>, i: nat)
    requires i < |segs|
    ensures AllLines(len, segs[..i + 1]) == AllLines(len, segs[..i]) + LinesOf(len, segs[i].num, segs[i].entries)
  {
    hide LinesOf, Bytes;
    assert segs[..i + 1][..i] == segs[..i];
  }

  /** Where a segment's lines lie among all lines. */
  lemma SegmentOffsets(len: LineLen, segs: seq<Segment>, i: nat)
    requires i < |segs|
    ensures |AllLines(len, segs[..i])| + |segs[i].entries| == |AllLines(len, segs[..i + 1])| <= |AllLines(len, segs)|
    ensures forall j | 0 <= j < |segs[i].entries| ::
              AllLines(len, segs)[|AllLines(len, segs[..i])| + j] ==
                  Line(segs[i].num, Bytes(len, segs[i].entries[..j]), segs[i].entries[j])
  {
    hide AllLines, LinesOf, Bytes;
    LinesPrefix(len, segs, i + 1);
    NextLines(len, segs, i);
    var mine := LinesOf(len, segs[i].num, segs[i].entries);
    forall j | 0 <= j < |segs[i].entries|
      ensures AllLines(len, segs)[|AllLines(len, segs[..i])| + j] ==
          Line(segs[i].num, Bytes(len, segs[i].entries[..j]), segs[i].entries[j])
    {
      assert AllLines(len, segs[..i + 1])[|AllLines(len, segs[..i])| + j] == mine[j];
    }
  }

  /** One segment of streamLive. */
  method StreamSegment(c: Collection, s: Segment, flt: Filter, now: int, ghost ls: seq<Line>, ghost at: nat)
    returns (rows: seq<Entry>)
    requires at + |s.entries| <= |ls|
    requires forall j | 0 <= j < |s.entries| :: ls[at + j] == Line(s.num, Bytes(c.cfg.len, s.entries[..j]), s.entries[j])
    ensures Streamed(c.cfg.fmt, c.index, flt, now, ls, at) + rows == Streamed(c.cfg.fmt, c.index, flt, now, ls, at + |s.entries|)
  {
    hide Bytes, Match;
    rows := [];
    var off := 0;
    NoBytes(c.cfg.len, s.entries);
    for j := 0 to |s.entries|
      invariant off == Bytes(c.cfg.len, s.entries[..j])
      invariant Streamed(c.cfg.fmt, c.index, flt, now, ls, at) + rows == Streamed(c.cfg.fmt, c.index, flt, now, ls, at + j)
    {
      var e := s.entries[j];
      if e.id in c.index && c.index[e.id].seg == s.num && c.index[e.id].off == off && !e.op.Delete?
         && !Expired(c.index[e.id].expiresAt, now) && Match(c.cfg.fmt, flt, e.data) {
        rows := rows + [e];
      }
      BytesSnoc(c.cfg.len, s.entries, j);
      off := off + c.cfg.len(e);
    }
  }

  /** streamLive: every segment in order, skipping stale versions, tombstones and expired
      records by the primary index. */
  method StreamLive(c: Collection, flt: Filter, now: int) returns (rows: seq<Entry>)
    requires c.Valid()
    ensures Exactly(rows, c.cfg.fmt, c.view, flt, now)
  {
    hide Core, Tracks, FieldVals, AllLines, LinesOf, Exactly, Bytes;
    var segs := c.sealed + [c.active];
    ghost var ls := AllLines(c.cfg.len, segs);
    rows := [];
    NoLines(c.cfg.len, segs);
    for i := 0 to |segs|
      invariant |AllLines(c.cfg.len, segs[..i])| <= |ls|
      invariant rows == Streamed(c.cfg.fmt, c.index, flt, now, ls, |AllLines(c.cfg.len, segs[..i])|)
    {
      SegmentOffsets(c.cfg.len, segs, i);
      var more := StreamSegment(c, segs[i], flt, now, ls, |AllLines(c.cfg.len, segs[..i])|);
      rows := rows + more;
    }
    TakeAll(segs);
    StreamIsExact(c.cfg.fmt, c.cfg.len, segs, c.log, c.index, c.idSeq, c.hist, c.view, flt, now);
  }

  lemma NoLines(len: LineLen, segs: seq<Segment>)
    ensures AllLines(len, segs[..0]) == []
  {
  }

  // ---- Candidates from an index ------------------------------------------------------------

  predicate Rising(ids: seq<nat>) {
    forall i, j | 0 <= i < j < |ids| :: ids[i] < ids[j]
  }

  /** sort.Slice over the candidate ids. */
  method SortIds(ids: seq<nat>) returns (out: seq<nat>)
    requires NoDup(ids)
    ensures Rising(out) && forall x :: x in out <==> x in ids
  {
    out := SortBy((a: nat, b: nat) => a < b, ids, set x | x in ids);
  }

  /** The index files the record under a value that passes the filter's test. */
  predicate Filed(fmt: RawFormat, h: Held, flt: Filter, id: nat) {
    flt.FieldTest? && flt.field in h && id in h[flt.field] && Holds(fmt, flt.op, h[flt.field][id], flt.value)
  }

  /** An index serves the filter: an equality, or a range on a field of one kind, the value's. */
  ghost predicate FromIndex(c: Collection, flt: Filter) reads c`sidx, c.sidx.Values {
    flt.FieldTest? && flt.field in c.sidx &&
    match flt.op
    case Eq => true
    case Neq => false
    case _ => var s := c.sidx[flt.field]; s.kind.Empty? || (s.kind == KindOf(flt.value) && IsRange(flt.op))
  }

  /** What a scan yields: through an index, the wanted records filed there; otherwise all. */
  ghost function Served(c: Collection, flt: Filter, now: int): set<Entry> reads c, c.sidx.Values {
    set id | id in c.view && Wanted(c.cfg.fmt, flt, now, c.view[id])
             && (FromIndex(c, flt) ==> Filed(c.cfg.fmt, c.held, flt, id)) ::
      c.view[id]
  }

  /** The index a filter may use holds the values of the live records. */
  ghost predicate InSync(c: Collection, flt: Filter) reads c {
    flt.FieldTest? && flt.field in c.held ==> c.held[flt.field] == FieldVals(flt.field, c.view)
  }

  lemma SyncedFiles(fmt: RawFormat, h: Held, v: View, flt: Filter, id: nat)
    requires flt.FieldTest? && flt.field in h && h[flt.field] == FieldVals(flt.field, v)
    ensures Filed(fmt, h, flt, id) <==> id in v && Match(fmt, flt, v[id].data)
  {
  }

  /** Every wanted record is among what the scan yields. */
  ghost predicate Complete(c: Collection, flt: Filter, now: int) reads c, c.sidx.Values {
    FromIndex(c, flt) ==> forall id | id in c.view && Wanted(c.cfg.fmt, flt, now, c.view[id]) :: Filed(c.cfg.fmt, c.held, flt, id)
  }

  /** A scan is exact if and only if the index it uses files every wanted record; one in sync
      with the stored records does. */
  lemma ServedIff(c: Collection, flt: Filter, now: int, rows: seq<Entry>)
    requires c.Valid() && DistinctIds(rows) && forall e :: e in rows <==> e in Served(c, flt, now)
    ensures Exactly(rows, c.cfg.fmt, c.view, flt, now) <==> Complete(c, flt, now)
    ensures InSync(c, flt) ==> Complete(c, flt, now)
  {
    hide Core, Tracks, TotalBytes, HeldLive, Match, FieldVals, Holds, KindOf, Filed;
    CoreIds(c.cfg.len, c.sealed + [c.active], c.log, c.index, c.idSeq, c.hist, c.view);
    var v := c.view;
    if InSync(c, flt) && FromIndex(c, flt) {
      forall id | id in v && Wanted(c.cfg.fmt, flt, now, v[id]) ensures Filed(c.cfg.fmt, c.held, flt, id) {
        SyncedFiles(c.cfg.fmt, c.held, v, flt, id);
      }
    }
    if Exactly(rows, c.cfg.fmt, v, flt, now) {
      forall id | id in v && Wanted(c.cfg.fmt, flt, now, v[id]) ensures FromIndex(c, flt) ==> Filed(c.cfg.fmt, c.held, flt, id) {
        assert v[id] in rows && v[id].id == id;
      }
    }
  }

  /** visitCandidates: re-read each candidate and re-apply the filter, in ascending id order. */
  method VisitCandidates(c: Collection, flt: Filter, ids: seq<nat>, now: int) returns (rows: seq<Entry>)
    requires c.Valid() && NoDup(ids)
    ensures forall i, j | 0 <= i < j < |rows| :: rows[i].id < rows[j].id
    ensures forall e :: e in rows <==> e.id in ids && e.id in c.view && c.view[e.id] == e && Wanted(c.cfg.fmt, flt, now, e)
  {
    hide Core, Tracks, FieldVals, Match;
    CoreIds(c.cfg.len, c.sealed + [c.active], c.log, c.index, c.idSeq, c.hist, c.view);
    var sorted := SortIds(ids);
    rows := [];
    for i := 0 to |sorted|
      invariant forall k, j | 0 <= k < j < |rows| :: rows[k].id < rows[j].id
      invariant forall e :: e in rows <==>
          e.id in sorted[..i] && e.id in c.view && c.view[e.id] == e && Wanted(c.cfg.fmt, flt, now, e)
    {
      TakeSnoc(sorted, i);
      assert forall k | 0 <= k < |rows| :: rows[k].id < sorted[i] by {
        forall k | 0 <= k < |rows| ensures rows[k].id < sorted[i] { assert rows[k] in rows; }
      }
      var e := c.Get(sorted[i], now);
      if e.Some? && Match(c.cfg.fmt, flt, e.value.data) {
        rows := rows + [e.value];
      }
    }
    TakeAll(sorted);
  }

  /** indexCandidates: equality through the buckets, ranges through the ordered view. When
      an index answers, it returns exactly the ids it files under a passing value. */
  method IndexCandidates(c: Collection, flt: Filter) returns (ids: Option<seq<nat>>)
    requires c.Valid()
    ensures ids.Some? <==> FromIndex(c, flt)
    ensures ids.Some? ==> NoDup(ids.value) && forall id :: id in ids.value <==> Filed(c.cfg.fmt, c.held, flt, id)
  {
    hide Core, Compare, Render, TotalBytes, HeldLive;
    if !flt.FieldTest? || flt.field !in c.sidx {
      return None;
    }
    var s := c.sidx[flt.field];
    assert Tracks(s, c.cfg.fmt, flt.field, c.held[flt.field]);
    match flt.op {
      case Eq =>
        var found := s.Lookup(Render(c.cfg.fmt, flt.value));
        forall id | id in s.vals
            ensures Equal(c.cfg.fmt, s.vals[id], flt.value) <==> Render(c.cfg.fmt, s.vals[id]) == Render(c.cfg.fmt, flt.value) {
          EqualIsSameKey(c.cfg.fmt, s.vals[id], flt.value);
        }
        ids := Some(found);
      case Neq => ids := None;
      case _ =>
        var found, ok := s.LookupRange(flt.op, flt.value);
        ids := if ok then Some(found) else None;
    }
  }

  /** forEachMatch: whichever path serves the filter, the wanted records come out, each once;
      all of them when the index used, if any, is in sync with the stored records. */
  method ForEachMatch(c: Collection, flt: Filter, now: int) returns (rows: seq<Entry>)
    requires c.Valid()
    ensures DistinctIds(rows) && forall e :: e in rows <==> e in Served(c, flt, now)
    ensures Exactly(rows, c.cfg.fmt, c.view, flt, now) <==> Complete(c, flt, now)
    ensures InSync(c, flt) ==> Exactly(rows, c.cfg.fmt, c.view, flt, now)
    ensures PlainlyAnswered(c, flt, now, rows)
  {
    hide Core, Tracks, FieldVals, Match, TotalBytes, HeldLive, FromIndex, Filed, Complete, PlainlyAnswered;
    CoreIds(c.cfg.len, c.sealed + [c.active], c.log, c.index, c.idSeq, c.hist, c.view);
    var ids := IndexCandidates(c, flt);
    if ids.Some? {
      rows := VisitCandidates(c, flt, ids.value, now);
    } else {
      rows := StreamLive(c, flt, now);
    }
    ServedIff(c, flt, now, rows);
    RowsMean(c, flt, now, rows);
  }

  /** The test on two numbers. */
  predicate InRange(op: Cmp, a: int, b: int) {
    && (op.Eq? ==> a == b) && (op.Neq? ==> a != b)
    && (op.Gt? ==> b < a) && (op.Gte? ==> b <= a) && (op.Lt? ==> a < b) && (op.Lte? ==> a <= b)
  }

  /** The record is live and its deadline, if it has one, is still ahead. */
  predicate Current(v: View, now: int, id: nat) {
    id in v && (v[id].expiresAt == 0 || now < v[id].expiresAt)
  }

  /** What the rows of a scan are, in plain terms. Of a conjunction exactly the current records
      that match every part, of a disjunction those that match some part, and of a test against
      a number, among records with a number there, those in range. */
  ghost predicate PlainlyAnswered(c: Collection, flt: Filter, now: int, rows: seq<Entry>) reads c {
    && (forall e | e in rows :: Current(c.view, now, e.id) && c.view[e.id] == e)
    && (flt.And? ==> forall id | Current(c.view, now, id) ::
          c.view[id] in rows <==> forall i | 0 <= i < |flt.subs| :: Match(c.cfg.fmt, flt.subs[i], c.view[id].data))
    && (flt.Or? ==> forall id | Current(c.view, now, id) ::
          c.view[id] in rows <==> exists i | 0 <= i < |flt.subs| :: Match(c.cfg.fmt, flt.subs[i], c.view[id].data))
    && (flt.FieldTest? ==> forall e | e in rows :: flt.field in e.data && TestedOnNumbers(flt, e))
    && (flt.FieldTest? && InSync(c, flt) ==> forall id | Current(c.view, now, id) && NumericIn(flt, c.view[id]) ::
          c.view[id] in rows <==> TestedOnNumbers(flt, c.view[id]))
  }

  predicate NumericIn(flt: Filter, e: Entry)
    requires flt.FieldTest?
  {
    flt.field in e.data && e.data[flt.field].Num? && flt.value.Num?
  }

  predicate TestedOnNumbers(flt: Filter, e: Entry)
    requires flt.FieldTest?
  {
    NumericIn(flt, e) ==> InRange(flt.op, e.data[flt.field].n, flt.value.n)
  }

  lemma RowsMean(c: Collection, flt: Filter, now: int, rows: seq<Entry>)
    requires c.Valid() && forall e :: e in rows <==> e in Served(c, flt, now)
    requires InSync(c, flt) ==> Exactly(rows, c.cfg.fmt, c.view, flt, now)
    ensures PlainlyAnswered(c, flt, now, rows)
  {
    hide Core, Tracks, FieldVals, TotalBytes, HeldLive, Filed, Holds;
    CoreIds(c.cfg.len, c.sealed + [c.active], c.log, c.index, c.idSeq, c.hist, c.view);
    forall e | e in rows && flt.FieldTest? ensures flt.field in e.data && TestedOnNumbers(flt, e) {
      if NumericIn(flt, e) { HoldsOnNumbers(c.cfg.fmt, e.data[flt.field].n, flt.value.n); }
    }
    forall id | Current(c.view, now, id) && flt.FieldTest? && NumericIn(flt, c.view[id])
      ensures Match(c.cfg.fmt, flt, c.view[id].data) <==> TestedOnNumbers(flt, c.view[id])
    {
      HoldsOnNumbers(c.cfg.fmt, c.view[id].data[flt.field].n, flt.value.n);
    }
  }

  // ---- Count ----------------------------------------------------------------------------------

  function ScanIds(fmt: RawFormat, v: View, flt: Filter, now: int): set<nat> {
    set id | id in v && Wanted(fmt, flt, now, v[id])
  }

  /** The live records the filter accepts, expired or not. */
  function TrackedIds(fmt: RawFormat, v: View, flt: Filter): set<nat> {
    set id | id in v && Match(fmt, flt, v[id].data)
  }

  lemma {:induction false} DistinctSize(rows: seq<Entry>, ids: set<nat>)
    requires DistinctIds(rows) && forall id :: id in ids <==> exists i | 0 <= i < |rows| :: rows[i].id == id
    ensures |rows| == |ids|
  {
    if rows != [] {
      var init, last := rows[..|rows| - 1], rows[|rows| - 1];
      forall id ensures id in ids - {last.id} <==> exists i | 0 <= i < |init| :: init[i].id == id {
        if id in ids - {last.id} {
          var i :| 0 <= i < |rows| && rows[i].id == id;
          assert init[i].id == id;
        }
        if i :| 0 <= i < |init| && init[i].id == id {
          assert rows[i].id == id;
        }
      }
      DistinctSize(init, ids - {last.id});
      assert rows[|rows| - 1].id == last.id;
    }
  }

  /** Every scan result has the same length. */
  lemma ScanSize(rows: seq<Entry>, fmt: RawFormat, v: View, flt: Filter, now: int)
    requires Exactly(rows, fmt, v, flt, now) && forall id | id in v :: v[id].id == id
    ensures |rows| == |ScanIds(fmt, v, flt, now)|
  {
    var ids := ScanIds(fmt, v, flt, now);
    forall id ensures id in ids <==> exists i | 0 <= i < |rows| :: rows[i].id == id {
      if id in ids {
        assert v[id] in rows;
        var i :| 0 <= i < |rows| && rows[i] == v[id];
        assert rows[i].id == id;
      }
      if i :| 0 <= i < |rows| && rows[i].id == id {
        assert rows[i] in rows;
      }
    }
    DistinctSize(rows, ids);
  }

  /** Count's fast paths: the whole collection, or one value of an indexed field. */
  predicate FastPath(flt: Filter, indexed: set<string>) {
    flt.MatchAll? || (flt.FieldTest? && flt.op.Eq? && flt.field in indexed)
  }

  /** Count: the fast paths count every tracked record, the fallback what a scan yields. */
  method Count(c: Collection, flt: Filter, now: int) returns (n: nat)
    requires c.Valid()
    ensures flt.FieldTest? && flt.op.Eq? && flt.field in c.sidx ==>
              n == |set id | id in c.view && Filed(c.cfg.fmt, c.held, flt, id)|
    ensures InSync(c, flt) ==>
              n == if FastPath(flt, c.sidx.Keys) then |TrackedIds(c.cfg.fmt, c.view, flt)|
                   else |ScanIds(c.cfg.fmt, c.view, flt, now)|
  {
    hide Core, Tracks, FieldVals, TotalBytes, Match, Complete, Filed, Served;
    CoreMirrors(c.cfg.len, c.sealed + [c.active], c.log, c.index, c.idSeq, c.hist, c.view);
    CoreIds(c.cfg.len, c.sealed + [c.active], c.log, c.index, c.idSeq, c.hist, c.view);
    if flt.MatchAll? {
      AllTracked(c.cfg.fmt, c.view);
      return |c.index|;
    }
    if flt.FieldTest? && flt.op.Eq? {
      var ids := IndexCandidates(c, flt);
      if ids.Some? {
        FiledIsLive(c, flt);
        ListSize(ids.value, set id | id in c.view && Filed(c.cfg.fmt, c.held, flt, id));
        if InSync(c, flt) { FiledIsTracked(c, flt); }
        return |ids.value|;
      }
    }
    var rows := ForEachMatch(c, flt, now);
    if InSync(c, flt) { ScanSize(rows, c.cfg.fmt, c.view, flt, now); }
    n := |rows|;
  }

  lemma FiledIsLive(c: Collection, flt: Filter)
    requires c.Valid()
    ensures forall id | Filed(c.cfg.fmt, c.held, flt, id) :: id in c.view
  {
  }

  lemma FiledIsTracked(c: Collection, flt: Filter)
    requires flt.FieldTest? && flt.field in c.held && InSync(c, flt)
    ensures (set id | id in c.view && Filed(c.cfg.fmt, c.held, flt, id)) == TrackedIds(c.cfg.fmt, c.view, flt)
  {
    hide Match, Filed, FieldVals;
    forall id | id in c.view ensures Filed(c.cfg.fmt, c.held, flt, id) <==> Match(c.cfg.fmt, flt, c.view[id].data) {
      SyncedFiles(c.cfg.fmt, c.held, c.view, flt, id);
    }
  }

  lemma AllTracked(fmt: RawFormat, v: View)
    ensures |TrackedIds(fmt, v, MatchAll)| == |v|
  {
    assert TrackedIds(fmt, v, MatchAll) == v.Keys;
  }

  /** A fast-path count equals the scan's length exactly when no counted record is past its
      deadline. */
  lemma CountIsScanIff(fmt: RawFormat, v: View, flt: Filter, now: int)
    ensures |TrackedIds(fmt, v, flt)| == |ScanIds(fmt, v, flt, now)| <==>
            forall id | id in v && Match(fmt, flt, v[id].data) :: !Expired(v[id].expiresAt, now)
  {
    var all, seen := TrackedIds(fmt, v, flt), ScanIds(fmt, v, flt, now);
    if forall id | id in v && Match(fmt, flt, v[id].data) :: !Expired(v[id].expiresAt, now) {
      assert all == seen;
    } else {
      var id :| id in v && Match(fmt, flt, v[id].data) && Expired(v[id].expiresAt, now);
      assert seen <= all - {id};
      SubsetSize(seen, all - {id});
    }
  }

  /** A record past its deadline but not yet reaped is counted and not scanned. */
  lemma ExpiredIsCounted(fmt: RawFormat, e: Entry)
    requires e.expiresAt == 5
    ensures var v: View := map[e.id := e];
            |TrackedIds(fmt, v, MatchAll)| == 1 && |ScanIds(fmt, v, MatchAll, 9)| == 0
  {
    var v: View := map[e.id := e];
    assert TrackedIds(fmt, v, MatchAll) == {e.id};
    assert ScanIds(fmt, v, MatchAll, 9) == {};
  }
}
