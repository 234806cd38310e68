/** Segment entries, last-write-wins replay, and the primary index as a function of
    the segments. Replay is the reference every derived structure is compared to. */
module Log {
  import opened Values

  datatype Op = Insert | Update | Delete

  /** One segment line. A delete carries no data, revision, epoch or deadline. */
  datatype Entry = Entry(id: nat, op: Op, ts: int, rev: nat, data: Data, epoch: nat, expiresAt: int)

  function Tombstone(id: nat, ts: int): Entry {
    Entry(id, Delete, ts, 0, map[], 0, 0)
  }

  /** A zero deadline never passes. */
  predicate Expired(deadline: int, now: int) {
    deadline != 0 && now >= deadline
  }

  // ---- Replay ----------------------------------------------------------------

  /** The live records: each id with the entry that last wrote it. */
  type View = map<nat, Entry>

  function Apply(v: View, e: Entry): View {
    if e.op.Delete? then v - {e.id} else v[e.id := e]
  }

  function ReplayOn(v: View, es: seq<Entry>): View {
    if es == [] then v else Apply(ReplayOn(v, es[..|es| - 1]), es[|es| - 1])
  }

  function Replay(es: seq<Entry>): View {
    ReplayOn(map[], es)
  }

  lemma ReplaySnoc(v: View, es: seq<Entry>, e: Entry)
    ensures ReplayOn(v, es + [e]) == Apply(ReplayOn(v, es), e)
  {
  }

  lemma {:induction false} ReplayConcat(v: View, a: seq<Entry>, b: seq<Entry>)
    ensures ReplayOn(v, a + b) == ReplayOn(ReplayOn(v, a), b)
  {
    if b == [] {
      assert a + b == a;
    } else {
      ReplayConcat(v, a, b[..|b| - 1]);
      assert (a + b)[..|a + b| - 1] == a + b[..|b| - 1];
    }
  }

  predicate SameAt(v: View, w: View, id: nat) {
    (id in v <==> id in w) && (id in v ==> v[id] == w[id])
  }

  predicate Touched(es: seq<Entry>, id: nat) {
    exists k | 0 <= k < |es| :: es[k].id == id
  }

  /** What replay makes of one id depends on the entries of that id only, and on the
      starting view only when there are none. */
  lemma {:induction false} ReplayAt(v: View, w: View, es: seq<Entry>, id: nat)
    ensures Touched(es, id) || SameAt(v, w, id) ==> SameAt(ReplayOn(v, es), ReplayOn(w, es), id)
    ensures !Touched(es, id) ==> SameAt(ReplayOn(v, es), v, id)
  {
    if es != [] {
      var init := es[..|es| - 1];
      ReplayAt(v, w, init, id);
      if es[|es| - 1].id != id && Touched(es, id) {
        var k :| 0 <= k < |es| && es[k].id == id;
        assert init[k].id == id;
      }
    }
  }

  lemma {:induction false} ReplayIds(v: View, es: seq<Entry>)
    requires forall id | id in v :: v[id].id == id && !v[id].op.Delete?
    ensures forall id | id in ReplayOn(v, es) :: ReplayOn(v, es)[id].id == id && !ReplayOn(v, es)[id].op.Delete?
  {
    if es != [] { ReplayIds(v, es[..|es| - 1]); }
  }

  /** A write carries a revision above the one it replaces; a fresh record starts at 1 or more. */
  predicate Sound(v: View, e: Entry) {
    e.op.Delete? || (e.rev >= 1 && (e.id in v ==> e.rev > v[e.id].rev))
  }

  predicate WellFormed(es: seq<Entry>) {
    es == [] || (WellFormed(es[..|es| - 1]) && Sound(Replay(es[..|es| - 1]), es[|es| - 1]))
  }

  lemma {:induction false} WellFormedPrefix(a: seq<Entry>, b: seq<Entry>)
    requires WellFormed(a + b)
    ensures WellFormed(a)
  {
    if b == [] {
      assert a + b == a;
    } else {
      assert (a + b)[..|a + b| - 1] == a + b[..|b| - 1];
      WellFormedPrefix(a, b[..|b| - 1]);
    }
  }

  /** In a well-formed log a record's revision strictly increases between deletions. */
  lemma {:induction false} RevisionsIncrease(es: seq<Entry>, i: nat, j: nat)
    requires WellFormed(es) && i < j < |es|
    requires es[i].id == es[j].id && !es[i].op.Delete? && !es[j].op.Delete?
    requires forall k | i < k < j && es[k].op.Delete? :: es[k].id != es[i].id
    ensures es[i].rev < es[j].rev
  {
    if j + 1 < |es| {
      assert es == es[..|es| - 1] + [es[|es| - 1]];
      RevisionsIncrease(es[..|es| - 1], i, j);
    } else {
      RevisionAtLeast(es[..j], i);
    }
  }

  /** Until it is deleted, a record's revision stays at or above that of any of its writes. */
  lemma {:induction false} RevisionAtLeast(es: seq<Entry>, i: nat)
    requires WellFormed(es) && i < |es| && !es[i].op.Delete?
    requires forall k | i < k < |es| && es[k].op.Delete? :: es[k].id != es[i].id
    ensures es[i].id in Replay(es) && Replay(es)[es[i].id].rev >= es[i].rev
  {
    if i < |es| - 1 {
      RevisionAtLeast(es[..|es| - 1], i);
    }
  }

  /** applyEntry on the live view: skip what is already present at an equal or newer
      revision, and a delete of what is already absent. */
  function Replicate(v: View, e: Entry): View {
    if e.op.Delete? then if e.id in v then v - {e.id} else v
    else if e.id in v && v[e.id].rev >= e.rev then v
    else v[e.id := e]
  }

  // ---- Segments and the primary index --------------------------------------

  /** A segment file seg_<num>.ndjson and its lines. */
  datatype Segment = Segment(num: nat, entries: seq<Entry>)

  /** The encoded length of an entry, newline included. */
  type LineLen = f: Entry -> nat | forall e: Entry :: f(e) > 0 witness (_ => 1)

  function Bytes(len: LineLen, es: seq<Entry>): nat {
    if es == [] then 0 else Bytes(len, es[..|es| - 1]) + len(es[|es| - 1])
  }

  /** A line of a segment with the byte offset at which it starts. */
  datatype Line = Line(seg: nat, off: nat, e: Entry)

  function LinesOf(len: LineLen, num: nat, es: seq<Entry>): (ls: seq<Line>)
    ensures |ls| == |es|
    ensures forall i | 0 <= i < |es| :: ls[i] == Line(num, Bytes(len, es[..i]), es[i])
  {
    if es == [] then [] else
    var init := es[..|es| - 1];
    assert forall i | 0 <= i < |init| :: init[..i] == es[..i];
    LinesOf(len, num, init) + [Line(num, Bytes(len, init), es[|es| - 1])]
  }

  function AllLines(len: LineLen, segs: seq<Segment>): seq<Line> {
    if segs == [] then [] else
    var s := segs[|segs| - 1];
    AllLines(len, segs[..|segs| - 1]) + LinesOf(len, s.num, s.entries)
  }

  function Entries(segs: seq<Segment>): seq<Entry> {
    if segs == [] then [] else Entries(segs[..|segs| - 1]) + segs[|segs| - 1].entries
  }

  function EntriesOf(ls: seq<Line>): (es: seq<Entry>)
    ensures |es| == |ls|
    ensures forall i | 0 <= i < |ls| :: es[i] == ls[i].e
  {
    seq(|ls|, i requires 0 <= i < |ls| => ls[i].e)
  }

  lemma {:induction false} LinesAreEntries(len: LineLen, segs: seq<Segment>)
    ensures EntriesOf(AllLines(len, segs)) == Entries(segs)
  {
    if segs != [] {
      LinesAreEntries(len, segs[..|segs| - 1]);
    }
  }

  /** Where a record's latest version lies, with the metadata mirrored from it. */
  datatype IndexEntry = IndexEntry(seg: nat, off: nat, rev: nat, expiresAt: int, epoch: nat)

  type Index = map<nat, IndexEntry>

  /** One step of Index.Rebuild: the revision is recomputed by replay order but never
      falls below the one the line carries. */
  function IndexLine(ix: Index, l: Line): Index {
    if l.e.op.Delete? then ix - {l.e.id} else
    var next := (if l.e.id in ix then ix[l.e.id].rev else 0) + 1;
    var rev := if l.e.rev > next then l.e.rev else next;
    ix[l.e.id := IndexEntry(l.seg, l.off, rev, l.e.expiresAt, l.e.epoch)]
  }

  function Rebuild(ls: seq<Line>): Index {
    if ls == [] then map[] else IndexLine(Rebuild(ls[..|ls| - 1]), ls[|ls| - 1])
  }

  lemma RebuildSnoc(ls: seq<Line>, l: Line)
    ensures Rebuild(ls + [l]) == IndexLine(Rebuild(ls), l)
  {
  }

  /** The index entry a view's record must have. */
  predicate Mirrors(x: IndexEntry, e: Entry) {
    x.rev == e.rev && x.expiresAt == e.expiresAt && x.epoch == e.epoch
  }

  /** On a well-formed log the rebuilt index lists exactly the live records, with the
      revision, deadline and epoch of their latest version. */
  lemma {:induction false} RebuildIsReplay(ls: seq<Line>)
    requires WellFormed(EntriesOf(ls))
    ensures Rebuild(ls).Keys == Replay(EntriesOf(ls)).Keys
    ensures forall id | id in Rebuild(ls) :: Mirrors(Rebuild(ls)[id], Replay(EntriesOf(ls))[id])
  {
    if ls != [] {
      var init := ls[..|ls| - 1];
      assert EntriesOf(ls) == EntriesOf(init) + [ls[|ls| - 1].e];
      assert EntriesOf(ls)[..|ls| - 1] == EntriesOf(init);
      RebuildIsReplay(init);
    }
  }

  /** Line i holds the current version of its record. */
  predicate LiveAt(ls: seq<Line>, i: nat)
    requires i < |ls|
  {
    !ls[i].e.op.Delete? && forall j | i < j < |ls| :: ls[j].e.id != ls[i].e.id
  }

  predicate PointsAt(ix: Index, l: Line) {
    l.e.id in ix && ix[l.e.id].seg == l.seg && ix[l.e.id].off == l.off
  }

  /** No two lines share a location. */
  predicate Placed(ls: seq<Line>) {
    forall i, j | 0 <= i < j < |ls| :: ls[i].seg != ls[j].seg || ls[i].off != ls[j].off
  }

  lemma {:induction false} LivePosition(ls: seq<Line>, id: nat) returns (i: nat)
    requires id in Rebuild(ls)
    ensures i < |ls| && ls[i].e.id == id && LiveAt(ls, i)
    ensures PointsAt(Rebuild(ls), ls[i])
    ensures id in Replay(EntriesOf(ls)) && Replay(EntriesOf(ls))[id] == ls[i].e
  {
    var init := ls[..|ls| - 1];
    assert EntriesOf(ls)[..|ls| - 1] == EntriesOf(init);
    if ls[|ls| - 1].e.id == id {
      i := |ls| - 1;
    } else {
      i := LivePosition(init, id);
    }
  }

  lemma {:induction false} LiveIsIndexed(ls: seq<Line>, i: nat)
    requires i < |ls| && LiveAt(ls, i)
    ensures PointsAt(Rebuild(ls), ls[i])
  {
    if i < |ls| - 1 {
      LiveIsIndexed(ls[..|ls| - 1], i);
    }
  }

  /** The liveness test of a segment scan is exact: the index points at a line that is
      not a tombstone just when that line is the current version of its record. */
  lemma LivenessTestExact(ls: seq<Line>, i: nat)
    requires i < |ls| && Placed(ls)
    ensures PointsAt(Rebuild(ls), ls[i]) && !ls[i].e.op.Delete? <==> LiveAt(ls, i)
  {
  }

  /** Segment numbers strictly increase along the list. */
  predicate Ascending(segs: seq<Segment>) {
    forall i, j | 0 <= i < j < |segs| :: segs[i].num < segs[j].num
  }

  lemma {:induction false} BytesGrow(len: LineLen, es: seq<Entry>, i: nat, j: nat)
    requires i < j <= |es|
    ensures Bytes(len, es[..i]) < Bytes(len, es[..j])
  {
    assert es[..j][..j - 1] == es[..j - 1];
    if i < j - 1 {
      BytesGrow(len, es, i, j - 1);
    }
  }

  lemma {:induction false} BytesConcat(len: LineLen, a: seq<Entry>, b: seq<Entry>)
    ensures Bytes(len, a + b) == Bytes(len, a) + Bytes(len, b)
  {
    if b == [] {
      assert a + b == a;
    } else {
      assert (a + b)[..|a + b| - 1] == a + b[..|b| - 1];
      BytesConcat(len, a, b[..|b| - 1]);
    }
  }

  lemma {:induction false} LinesPlaced(len: LineLen, segs: seq<Segment>)
    requires Ascending(segs)
    ensures Placed(AllLines(len, segs))
    ensures forall l | l in AllLines(len, segs) :: exists s | s in segs :: s.num == l.seg
  {
    if segs != [] {
      var init, s := segs[..|segs| - 1], segs[|segs| - 1];
      LinesPlaced(len, init);
      var ls := AllLines(len, init);
      var mine := LinesOf(len, s.num, s.entries);
      forall i, j | 0 <= i < j < |mine|
        ensures mine[i].off != mine[j].off
      {
        BytesGrow(len, s.entries, i, j);
      }
      forall l | l in ls ensures l.seg < s.num && exists t | t in segs :: t.num == l.seg {
        var t :| t in init && t.num == l.seg;
        assert t in segs;
      }
      forall l | l in mine ensures exists t | t in segs :: t.num == l.seg {
        assert s in segs;
      }
    }
  }
}
