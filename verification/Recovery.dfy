/** Opening a collection: recover an interrupted swap, list the segment files by name, and
    rebuild every index from them. */
module Recovery {
  import opened Common
  import opened Log
  import opened Compaction
  import opened Store
  import opened SegmentNames
  import opened Swap
  import opened SecondaryIndexes
  import opened Writes
  import opened Collections
  import opened Compactor
  import opened Passes

  /** The number whose file name sorts last. */
  method LastByName(nums: set<nat>) returns (m: nat)
    requires nums != {}
    ensures SortsLast(nums, m)
  {
    hide NameBefore;
    m :| m in nums;
    var todo := nums - {m};
    while todo != {}
      invariant todo <= nums && m in nums && m !in todo
      invariant forall x | x in nums && x != m && x !in todo :: NameBefore(x, m)
      decreases todo
    {
      var x :| x in todo;
      todo := todo - {x};
      BeforeTotal(m, x);
      if NameBefore(m, x) {
        forall y | y in nums && y != x && y !in todo ensures NameBefore(y, x) {
          if y != m { BeforeTrans(y, m, x); }
        }
        m := x;
      }
    }
  }

  /** The segments of a directory, in the order of their sorted file names. */
  method OpenSegments(f: Files) returns (segs: seq<Segment>)
    ensures (forall n | n in SegNums(f) :: Seg(n) in f) && segs == Load(f, SegNums(f))
  {
    hide Load, SegNums, SortsLast;
    SegNumsIn(f);
    var nums := SegNums(f);
    segs := [];
    while nums != {}
      invariant nums <= SegNums(f) && Load(f, SegNums(f)) == Load(f, nums) + segs
      decreases nums
    {
      var hi := LastByName(nums);
      LoadLast(f, nums, hi);
      segs := [Segment(hi, f[Seg(hi)])] + segs;
      nums := nums - {hi};
    }
    NoneLeft(f);
  }

  lemma LoadLast(f: Files, nums: set<nat>, hi: nat)
    requires (forall n | n in nums :: Seg(n) in f) && SortsLast(nums, hi)
    ensures hi in nums && Load(f, nums) == Load(f, nums - {hi}) + [Segment(hi, f[Seg(hi)])]
  {
    hide NameBefore;
    OneLast(nums, hi, LastOf(nums));
  }

  lemma NoneLeft(f: Files)
    ensures Load(f, {}) == []
  {
  }

  /** Restoring a snapshot: each collection's segment files are opened and replayed. Whatever
      segments the files were copied from, it has what these say, as long as the file names
      sort as the segments are numbered. */
  method Restore(archive: map<string, Files>, ghost layouts: map<string, seq<Segment>>) returns (db: map<string, View>)
    requires layouts.Keys == archive.Keys && forall c | c in archive :: SegsAre(archive[c], layouts[c])
    ensures db.Keys == archive.Keys
    ensures forall c | c in archive && NameOrdered(layouts[c]) :: db[c] == Replay(Entries(layouts[c]))
  {
    hide Load, SegNums, SegsAre, NameOrdered, Replay, Entries;
    db := map[];
    var todo := archive.Keys;
    while todo != {}
      invariant todo <= archive.Keys && db.Keys == archive.Keys - todo
      invariant forall c | c in db && NameOrdered(layouts[c]) :: db[c] == Replay(Entries(layouts[c]))
      decreases todo
    {
      var c :| c in todo;
      var segs := OpenSegments(archive[c]);
      OpenFindsIff(archive[c], layouts[c]);
      db := db[c := Replay(Entries(segs))];
      todo := todo - {c};
    }
  }

  ghost function Join(p: Plan, a: seq<State>, b: seq<State>): (r: seq<State>)
    requires DistinctTemps(p.temps) && IsRun(p, a) && IsRun(p, b) && a[|a| - 1] == b[0]
    ensures IsRun(p, r) && r[0] == a[0] && r[|r| - 1] == b[|b| - 1]
  {
    hide Next;
    var r := a + b[1..];
    assert forall i | 0 <= i < |b| :: r[|a| - 1 + i] == b[i];
    assert forall i | 0 <= i < |a| :: r[i] == a[i];
    forall i | 0 <= i < |r| - 1 ensures Next(p, r[i], r[i + 1]) {
      if i < |a| - 1 {
        assert Next(p, a[i], a[i + 1]);
      } else {
        var j := i - (|a| - 1);
        assert Next(p, b[j], b[j + 1]) && r[i] == b[j] && r[i + 1] == b[j + 1];
      }
    }
    r
  }

  /** Whatever layout a run decided for, its log is well-formed and within the id counter. */
  lemma DecidedIsSound(p: Plan, s: State, now: int, out: seq<Entry>, counter: Option<nat>)
    requires Survivors(out, Entries(p.sealed), now) && Resealed(out, Contents(p.temps))
    requires WellFormed(Entries(p.sealed) + s.act) && (counter.Some? ==> IdsBelow(Entries(p.sealed), counter.value))
    ensures var k := |LayoutOf(p, s)| - 1;
            && WellFormed(Entries(LayoutOf(p, s)))
            && (counter.Some? ==> IdsBelow(Entries(LayoutOf(p, s)[..k]), counter.value))
  {
    hide WellFormed, Survivors, Resealed, Entries, Contents;
    LayoutEntries(p, s.act);
    var k := |LayoutOf(p, s)| - 1;
    assert LayoutOf(p, s)[..k] == if s.committed then Swap.Compacted(p.temps) else p.sealed;
    CompactionKeepsWellFormed(Entries(p.sealed), out, Contents(p.temps), s.act, now);
    if counter.Some? { CutIdsBelow(p, out, now, counter.value); }
  }

  lemma CutIdsBelow(p: Plan, out: seq<Entry>, now: int, n: nat)
    requires Survivors(out, Entries(p.sealed), now) && Resealed(out, Contents(p.temps)) && IdsBelow(Entries(p.sealed), n)
    ensures IdsBelow(Entries(Swap.Compacted(p.temps)), n)
  {
    assert Entries(p.sealed) + [] == Entries(p.sealed) && Contents(p.temps) + [] == Contents(p.temps);
    SurvivorIdsBelow(Entries(p.sealed), out, Contents(p.temps), [], now, n);
  }

  /** A collection reopened after a crash at any point of a pass, and of any number of
      recoveries cut short, is valid: its index is rebuilt from the surviving segments, its
      files are exactly theirs, and its records are those from before the pass, save for what
      the pass reclaimed if it had committed. */
  method Reopen(cfg: Config, d: Directory, counter: Option<nat>, indexes: map<string, bool>,
                ghost p: Plan, ghost run: seq<State>, ghost now: int, ghost out: seq<Entry>) returns (c: Collection)
    requires d.Valid() && PlanOk(p) && IsRun(p, run) && Init(p, run[0])
    requires run[|run| - 1].phase.Down? && run[|run| - 1].disk == d.Now()
    requires Survivors(out, Entries(p.sealed), now) && Resealed(out, Contents(p.temps))
    requires WellFormed(Entries(p.sealed) + run[|run| - 1].act)
    requires counter.Some? ==> IdsBelow(Entries(p.sealed), counter.value)
    requires NameOrdered(LayoutOf(p, run[|run| - 1]))
    modifies d
    ensures var s := run[|run| - 1];
            && fresh(c) && c.Valid() && c.sealed + [c.active] == LayoutOf(p, s) && FilesAre(d, c.sealed, c.active, None)
            && SameRecords(p, s, now, out != Contents(p.temps), c.view, Replay(Entries(p.sealed) + s.act))
    ensures c.sidx.Keys == indexes.Keys && (forall f | f in indexes :: c.sidx[f].unique == indexes[f])
    ensures c.held == HeldOf(indexes.Keys, c.view)
  {
    hide Next, Init, PlanOk, SameRecords, Survivors, Resealed, Entries, Contents, WellFormed, IdsBelow, NameOrdered, Load,
         SegNums, SegsAre, Found, Replay, OldLayout, NewLayout, HeldOf, FilesOf, DistinctTemps, Core, Tracks, TotalBytes,
         HeldLive;
    ghost var s := run[|run| - 1];
    PlanShape(p, s);
    var found;
    ghost var rec;
    found, rec := d.RecoverCompaction(p, s.committed, s.act);
    assert IsRun(p, rec);
    ghost var whole := Join(p, run, rec);
    CrashSafety(p, whole);
    CrashKeepsView(p, whole, now, out);
    DecidedIsSound(p, s, now, out, counter);
    var segs := OpenSegments(d.files);
    var k := |segs| - 1;
    assert segs[..k] + [segs[k]] == segs;
    c := OpenCollection(cfg, segs[..k], segs[k], counter, indexes);
    FoundIs(d.files, segs);
    SameDecision(p, s, rec[|rec| - 1], now, out != Contents(p.temps), c.view, Replay(Entries(p.sealed) + s.act));
  }

  lemma SameDecision(p: Plan, s: State, t: State, now: int, resealed: bool, v: View, w: View)
    requires s.committed == t.committed && s.act == t.act
    ensures SameRecords(p, s, now, resealed, v, w) <==> SameRecords(p, t, now, resealed, v, w)
  {
  }

  lemma PlanShape(p: Plan, s: State)
    requires PlanOk(p)
    ensures DistinctTemps(p.temps) && |LayoutOf(p, s)| > 0
  {
  }

  lemma FoundIs(f: Files, segs: seq<Segment>)
    requires (forall n | n in SegNums(f) :: Seg(n) in f) && segs == Load(f, SegNums(f))
    ensures Found(f) == Replay(Entries(segs))
  {
  }
}
