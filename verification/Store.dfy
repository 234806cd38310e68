/** The primary part of a collection as values: what appending an entry, rotating and
    compacting do to segments and index, and the invariant they keep. */
module Store {
  import opened Log
  import opened Compaction

  /** Every id in the log was handed out by the id counter. */
  predicate IdsBelow(es: seq<Entry>, idSeq: nat) {
    forall i | 0 <= i < |es| :: es[i].id <= idSeq
  }

  /** The index is what Rebuild computes from the lines, and the log is well-formed. `hist` is
      every entry ever committed, with a tombstone for each record compaction reclaimed;
      re-sealing rewrites data but never a revision. */
  ghost predicate Indexes(ls: seq<Line>, log: seq<Entry>, index: Index, idSeq: nat, hist: seq<Entry>, view: View) {
    var ok :=
      && index == Rebuild(ls) && EntriesOf(ls) == log
      && WellFormed(log) && IdsBelow(log, idSeq) && Replay(log) == view
      && WellFormed(hist) && SameRevs(Replay(hist), view);
    ok
  }

  /** The same records at the same revisions. */
  predicate SameRevs(v: View, w: View) {
    v.Keys == w.Keys && forall id | id in v :: v[id].rev == w[id].rev
  }

  /** The invariant of the primary state of a collection. */
  ghost predicate Core(len: LineLen, segs: seq<Segment>, log: seq<Entry>, index: Index, idSeq: nat,
                       hist: seq<Entry>, view: View) {
    var ok := Ascending(segs) && Indexes(AllLines(len, segs), log, index, idSeq, hist, view);
    ok
  }

  function Appended(s: Segment, e: Entry): Segment {
    s.(entries := s.entries + [e])
  }

  /** The index after an entry is appended at `off` of segment `num`. */
  function Indexed(index: Index, num: nat, off: nat, e: Entry): Index {
    if e.op.Delete? then index - {e.id}
    else index[e.id := IndexEntry(num, off, e.rev, e.expiresAt, e.epoch)]
  }

  lemma AppendLines(len: LineLen, sealed: seq<Segment>, active: Segment, e: Entry)
    ensures AllLines(len, sealed + [Appended(active, e)]) ==
            AllLines(len, sealed + [active]) + [Line(active.num, Bytes(len, active.entries), e)]
  {
    var s := Appended(active, e);
    assert (sealed + [s])[..|sealed|] == sealed && (sealed + [active])[..|sealed|] == sealed;
    assert s.entries[..|active.entries|] == active.entries;
  }

  /** The index lists exactly the live records and mirrors their metadata. */
  lemma IndexMirrors(ls: seq<Line>, log: seq<Entry>, index: Index, idSeq: nat, hist: seq<Entry>, view: View)
    requires Indexes(ls, log, index, idSeq, hist, view)
    ensures index.Keys == view.Keys
    ensures forall id | id in index :: Mirrors(index[id], view[id])
  {
    RebuildIsReplay(ls);
  }

  lemma AppendSound(es: seq<Entry>, e: Entry)
    requires WellFormed(es) && Sound(Replay(es), e)
    ensures WellFormed(es + [e]) && Replay(es + [e]) == Apply(Replay(es), e)
  {
  }

  lemma AppendIndexes(ls: seq<Line>, log: seq<Entry>, index: Index, idSeq: nat, hist: seq<Entry>, view: View, l: Line)
    requires Indexes(ls, log, index, idSeq, hist, view) && Sound(view, l.e) && l.e.id <= idSeq
    ensures Indexes(ls + [l], log + [l.e], Indexed(index, l.seg, l.off, l.e), idSeq, hist + [l.e], Apply(view, l.e))
  {
    RebuildSnoc(ls, l);
    IndexMirrors(ls, log, index, idSeq, hist, view);
    AppendSound(log, l.e);
    AppendSound(hist, l.e);
    assert EntriesOf(ls + [l]) == log + [l.e];
  }

  lemma AppendAscends(sealed: seq<Segment>, active: Segment, e: Entry)
    requires Ascending(sealed + [active])
    ensures Ascending(sealed + [Appended(active, e)])
  {
    var a, b := sealed + [active], sealed + [Appended(active, e)];
    assert forall i | 0 <= i < |b| :: b[i].num == a[i].num;
  }

  /** Appending a sound entry and setting its index entry keeps the index equal to Rebuild. */
  lemma AppendKeepsCore(len: LineLen, sealed: seq<Segment>, active: Segment, log: seq<Entry>, index: Index, idSeq: nat,
                        hist: seq<Entry>, view: View, e: Entry)
    requires Core(len, sealed + [active], log, index, idSeq, hist, view)
    requires Sound(view, e) && e.id <= idSeq
    ensures Core(len, sealed + [Appended(active, e)], log + [e],
                 Indexed(index, active.num, Bytes(len, active.entries), e), idSeq, hist + [e], Apply(view, e))
  {
    AppendLines(len, sealed, active, e);
    AppendIndexes(AllLines(len, sealed + [active]), log, index, idSeq, hist, view,
                  Line(active.num, Bytes(len, active.entries), e));
    AppendAscends(sealed, active, e);
  }

  /** Sealing the active segment behind a fresh, higher-numbered one changes nothing else. */
  lemma RotateKeepsCore(len: LineLen, segs: seq<Segment>, log: seq<Entry>, index: Index, idSeq: nat,
                        hist: seq<Entry>, view: View, num: nat)
    requires Core(len, segs, log, index, idSeq, hist, view)
    requires forall s | s in segs :: s.num < num
    ensures Core(len, segs + [Segment(num, [])], log, index, idSeq, hist, view)
  {
    var more := segs + [Segment(num, [])];
    assert more[..|segs|] == segs;
    var ls := AllLines(len, segs);
    assert AllLines(len, more) == ls + [] == ls;
  }

  lemma CoreGrows(len: LineLen, segs: seq<Segment>, log: seq<Entry>, index: Index, idSeq: nat, hist: seq<Entry>, view: View)
    requires Core(len, segs, log, index, idSeq, hist, view)
    ensures Core(len, segs, log, index, idSeq + 1, hist, view)
    ensures idSeq + 1 !in view
  {
    ReplayAt(map[], map[], log, idSeq + 1);
    assert !Touched(log, idSeq + 1);
  }

  lemma CoreRaises(len: LineLen, segs: seq<Segment>, log: seq<Entry>, index: Index, idSeq: nat,
                   hist: seq<Entry>, view: View, id: nat)
    requires Core(len, segs, log, index, idSeq, hist, view) && idSeq <= id
    ensures Core(len, segs, log, index, id, hist, view)
  {
  }

  predicate AllDeletes(es: seq<Entry>) {
    forall i | 0 <= i < |es| :: es[i].op.Delete?
  }

  lemma {:induction false} DeletesAreSound(es: seq<Entry>, ts: seq<Entry>)
    requires WellFormed(es) && AllDeletes(ts)
    ensures WellFormed(es + ts)
  {
    if ts == [] {
      assert es + ts == es;
    } else {
      var k := |ts| - 1;
      DeletesAreSound(es, ts[..k]);
      assert es + ts == (es + ts[..k]) + [ts[k]];
    }
  }

  /** Tombstones for a set of ids take exactly these out of a view. */
  lemma {:induction false} Tombstones(v: View, ids: set<nat>) returns (ts: seq<Entry>)
    ensures AllDeletes(ts) && ReplayOn(v, ts) == v - ids && (ids == {} ==> ts == [])
  {
    if ids == {} {
      ts := [];
      assert v - ids == v;
    } else {
      var id :| id in ids;
      var init := Tombstones(v, ids - {id});
      ts := init + [Tombstone(id, 0)];
      ReplaySnoc(v, init, Tombstone(id, 0));
      assert (v - (ids - {id})) - {id} == v - ids;
    }
  }

  /** The records a compaction pass reclaims. */
  function ReclaimedIds(past: seq<Entry>, active: seq<Entry>, now: int): set<nat> {
    set id | id in Replay(past) && Reclaimed(past, active, now, id)
  }

  /** `w` is `v` without the reclaimed records, and equal to it up to sealing. */
  ghost predicate Compacted(v: View, w: View, gone: set<nat>) {
    w.Keys == v.Keys - gone && forall id | id in w :: SameButSealed(v[id], w[id])
  }

  /** What a pass takes out of the live view, in plain terms: nothing without a deadline or with
      one still ahead, and everything past its deadline that the active segment does not
      mention. */
  ghost predicate OnlyDueGone(v: View, w: View, active: seq<Entry>, now: int) {
    && (forall id | id in w :: id in v)
    && (forall id | id in v && (v[id].expiresAt == 0 || now < v[id].expiresAt) :: id in w)
    && (forall id | id in v && v[id].expiresAt != 0 && v[id].expiresAt <= now && !Touched(active, id) :: id !in w)
  }

  lemma DueGone(past: seq<Entry>, active: seq<Entry>, now: int, v: View, w: View)
    requires v == Replay(past + active) && Compacted(v, w, ReclaimedIds(past, active, now))
    ensures OnlyDueGone(v, w, active, now)
  {
    hide Replay, Reclaimed, Touched;
    forall id ensures id in ReclaimedIds(past, active, now) <==> Reclaimed(past, active, now, id) {
      InReclaimed(past, active, now, id);
    }
    forall id | id in v ensures
        Reclaimed(past, active, now, id) <==> !Touched(active, id) && v[id].expiresAt != 0 && v[id].expiresAt <= now {
      ReclaimedIff(past, active, now, id);
    }
  }

  lemma InReclaimed(past: seq<Entry>, active: seq<Entry>, now: int, id: nat)
    ensures id in ReclaimedIds(past, active, now) <==> Reclaimed(past, active, now, id)
  {
  }

  lemma CompactedView(past: seq<Entry>, out: seq<Entry>, cut: seq<Entry>, active: seq<Entry>, now: int)
    requires Survivors(out, past, now) && Resealed(out, cut)
    ensures Compacted(Replay(past + active), Replay(cut + active), ReclaimedIds(past, active, now))
    ensures out == cut ==> Replay(cut + active) == Replay(past + active) - ReclaimedIds(past, active, now)
  {
    CompactionPreserves(past, out, cut, active, now);
  }

  lemma SurvivorIdsBelow(past: seq<Entry>, out: seq<Entry>, cut: seq<Entry>, active: seq<Entry>, now: int, idSeq: nat)
    requires Survivors(out, past, now) && Resealed(out, cut) && IdsBelow(past + active, idSeq)
    ensures IdsBelow(cut + active, idSeq)
  {
    forall i | 0 <= i < |cut| ensures cut[i].id <= idSeq {
      assert out[i] in out && out[i].id == cut[i].id;
      ReplayAt(map[], map[], past, cut[i].id);
      var k :| 0 <= k < |past| && past[k].id == cut[i].id;
      assert (past + active)[k] == past[k];
    }
    forall i | 0 <= i < |active| ensures active[i].id <= idSeq {
      assert (past + active)[|past| + i] == active[i];
    }
  }

  lemma CompactIndexes(past: seq<Entry>, out: seq<Entry>, cut: seq<Entry>, active: seq<Entry>, now: int,
                       ls: seq<Line>, index: Index, idSeq: nat, hist: seq<Entry>, view: View, ls': seq<Line>)
    returns (drops: seq<Entry>)
    requires Indexes(ls, past + active, index, idSeq, hist, view)
    requires Survivors(out, past, now) && Resealed(out, cut) && EntriesOf(ls') == cut + active
    ensures AllDeletes(drops)
    ensures Indexes(ls', cut + active, Rebuild(ls'), idSeq, hist + drops, Replay(cut + active))
    ensures Compacted(view, Replay(cut + active), ReclaimedIds(past, active, now))
    ensures ReclaimedIds(past, active, now) == {} ==> drops == []
    ensures out == cut ==> Replay(cut + active) == view - ReclaimedIds(past, active, now)
  {
    CompactedView(past, out, cut, active, now);
    CompactionKeepsWellFormed(past, out, cut, active, now);
    SurvivorIdsBelow(past, out, cut, active, now, idSeq);
    drops := Tombstones(Replay(hist), ReclaimedIds(past, active, now));
    ReplayConcat(map[], hist, drops);
    DeletesAreSound(hist, drops);
  }

  lemma EntriesSnoc(segs: seq<Segment>, s: Segment)
    ensures Entries(segs + [s]) == Entries(segs) + s.entries
  {
  }

  lemma CoreLog(len: LineLen, segs: seq<Segment>, log: seq<Entry>, index: Index, idSeq: nat, hist: seq<Entry>, view: View)
    requires Core(len, segs, log, index, idSeq, hist, view)
    ensures log == Entries(segs)
  {
    LinesAreEntries(len, segs);
  }

  lemma CoreMirrors(len: LineLen, segs: seq<Segment>, log: seq<Entry>, index: Index, idSeq: nat, hist: seq<Entry>, view: View)
    requires Core(len, segs, log, index, idSeq, hist, view)
    ensures index.Keys == view.Keys && |index| == |view|
    ensures forall id | id in index :: Mirrors(index[id], view[id])
  {
    IndexMirrors(AllLines(len, segs), log, index, idSeq, hist, view);
    assert |index| == |index.Keys| && |view| == |view.Keys|;
  }

  lemma CoreView(len: LineLen, segs: seq<Segment>, log: seq<Entry>, index: Index, idSeq: nat, hist: seq<Entry>, view: View)
    requires Core(len, segs, log, index, idSeq, hist, view)
    ensures view == Replay(Entries(segs))
  {
    CoreLog(len, segs, log, index, idSeq, hist, view);
  }

  /** Where a line of the concatenated segments comes from. */
  lemma {:induction false} LineOrigin(len: LineLen, segs: seq<Segment>, k: nat) returns (i: nat, j: nat)
    requires k < |AllLines(len, segs)|
    ensures i < |segs| && j < |segs[i].entries|
    ensures AllLines(len, segs)[k] == Line(segs[i].num, Bytes(len, segs[i].entries[..j]), segs[i].entries[j])
  {
    var init := segs[..|segs| - 1];
    var before := AllLines(len, init);
    if k < |before| {
      i, j := LineOrigin(len, init, k);
    } else {
      i, j := |segs| - 1, k - |before|;
    }
  }

  /** The index entry of a live record locates the line that last wrote it. */
  lemma Located(len: LineLen, segs: seq<Segment>, log: seq<Entry>, index: Index, idSeq: nat,
                hist: seq<Entry>, view: View, id: nat)
    returns (i: nat, j: nat)
    requires Core(len, segs, log, index, idSeq, hist, view) && id in index
    ensures i < |segs| && segs[i].num == index[id].seg && j < |segs[i].entries|
    ensures Bytes(len, segs[i].entries[..j]) == index[id].off
    ensures id in view && segs[i].entries[j] == view[id]
  {
    var k := LivePosition(AllLines(len, segs), id);
    i, j := LineOrigin(len, segs, k);
  }

  lemma CoreHistory(len: LineLen, segs: seq<Segment>, log: seq<Entry>, index: Index, idSeq: nat, hist: seq<Entry>, view: View)
    requires Core(len, segs, log, index, idSeq, hist, view)
    ensures WellFormed(hist)
  {
  }

  lemma CoreAscends(len: LineLen, segs: seq<Segment>, log: seq<Entry>, index: Index, idSeq: nat, hist: seq<Entry>, view: View)
    requires Core(len, segs, log, index, idSeq, hist, view)
    ensures Ascending(segs)
  {
  }

  /** A rebuilt index and a counter past every id make a valid store. */
  lemma OpenCore(len: LineLen, sealed: seq<Segment>, active: Segment, counter: nat, idSeq: nat)
    requires Ascending(sealed + [active]) && WellFormed(Entries(sealed + [active]))
    requires IdsBelow(Entries(sealed), counter) && counter <= idSeq && IdsBelow(active.entries, idSeq)
    ensures var segs := sealed + [active];
            var log := Entries(segs);
            Core(len, segs, log, Rebuild(AllLines(len, segs)), idSeq, log, Replay(log))
  {
    EntriesSnoc(sealed, active);
    LinesAreEntries(len, sealed + [active]);
  }

  /** Every live record's id was handed out. */
  lemma CoreIds(len: LineLen, segs: seq<Segment>, log: seq<Entry>, index: Index, idSeq: nat, hist: seq<Entry>, view: View)
    requires Core(len, segs, log, index, idSeq, hist, view)
    ensures forall id | id in view :: id <= idSeq && view[id].id == id && view[id].rev >= 1
  {
    ReplayIds(map[], log);
    WritesHaveRevisions(log);
    forall id | id in view ensures id <= idSeq {
      ReplayAt(map[], map[], log, id);
    }
  }

  /** Replacing the sealed segments by compacted ones and rebuilding the index keeps the
      invariant; the live view loses exactly the reclaimed records. */
  lemma CompactKeepsCore(len: LineLen, sealed: seq<Segment>, active: Segment, log: seq<Entry>, index: Index, idSeq: nat,
                         hist: seq<Entry>, view: View, out: seq<Entry>, cut: seq<Segment>, now: int)
    returns (drops: seq<Entry>)
    requires Core(len, sealed + [active], log, index, idSeq, hist, view)
    requires Survivors(out, Entries(sealed), now) && Resealed(out, Entries(cut)) && Ascending(cut + [active])
    ensures AllDeletes(drops) && (ReclaimedIds(Entries(sealed), active.entries, now) == {} ==> drops == [])
    ensures var log' := Entries(cut) + active.entries;
            && Core(len, cut + [active], log', Rebuild(AllLines(len, cut + [active])), idSeq, hist + drops, Replay(log'))
            && Compacted(view, Replay(log'), ReclaimedIds(Entries(sealed), active.entries, now))
            && (out == Entries(cut) ==> Replay(log') == view - ReclaimedIds(Entries(sealed), active.entries, now))
  {
    CoreLog(len, sealed + [active], log, index, idSeq, hist, view);
    EntriesSnoc(sealed, active);
    EntriesSnoc(cut, active);
    LinesAreEntries(len, cut + [active]);
    drops := CompactIndexes(Entries(sealed), out, Entries(cut), active.entries, now,
                            AllLines(len, sealed + [active]), index, idSeq, hist, view, AllLines(len, cut + [active]));
  }
}
