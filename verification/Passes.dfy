/** A compaction pass over a collection and its directory together: resolve, re-seal,
    write, swap, install. */
module Passes {
  import opened Common
  import opened Log
  import opened Compaction
  import opened SecondaryIndexes
  import opened Store
  import opened Writes
  import opened Collections
  import opened Compactor
  import opened Collisions
  import Swap

  /** A pass under way: the sealed segments it snapshotted, the temp segments it wrote, and when
      it resolved them. */
  datatype Pass = Pass(sealed: seq<Segment>, temps: seq<Swap.TempSeg>, now: int)

  datatype Begun = Idle | Failed | Ready(pass: Pass)

  /** How the second half ended. `Collided`: it produced as many segments as the active one's number or
      more, so one of its renames landed on the active segment. `Dropped`: a rotation in the
      meantime sealed a segment it does not know, and it took that out of the list. */
  datatype Finish = Installed | Collided | Dropped

  /** Re-sealing rewrites data and epoch only; it fails when a key is missing. */
  ghost predicate Reseals(reseal: Entry -> Option<Entry>) {
    forall e: Entry :: reseal(e).Some? ==> SameButSealed(e, reseal(e).value)
  }

  /** reencryptForMigration: every surviving entry re-sealed, or a failure. */
  method ResealAll(out: seq<Entry>, reseal: Entry -> Option<Entry>) returns (cut: Option<seq<Entry>>)
    requires Reseals(reseal)
    ensures cut.None? <==> exists i | 0 <= i < |out| :: reseal(out[i]).None?
    ensures cut.Some? ==> Resealed(out, cut.value) && forall i | 0 <= i < |out| :: reseal(out[i]) == Some(cut.value[i])
  {
    var done := [];
    for i := 0 to |out|
      invariant |done| == i && forall j | 0 <= j < i :: reseal(out[j]) == Some(done[j])
    {
      var r := reseal(out[i]);
      if r.None? {
        return None;
      }
      done := done + [r.value];
    }
    cut := Some(done);
  }

  lemma SegmentIsIn(segs: seq<Segment>, k: nat)
    requires k < |segs|
    ensures forall e | e in segs[k].entries :: e in Entries(segs)
  {
    var at := Block(segs, k);
    forall e | e in segs[k].entries ensures e in Entries(segs) {
      var i :| 0 <= i < |segs[k].entries| && segs[k].entries[i] == e;
      assert Entries(segs)[at + i] == e;
    }
  }

  /** What a collided pass leaves: the new segments are the sealed list, the active segment
      reads as the new segment of its own number, and the collection holds what the new
      segments say, nothing of what the active one did. */
  ghost predicate LeftCollided(c: Collection, num: nat) reads c, c.sidx.Values {
    && c.active.num == num && 1 <= num <= |c.sealed| && c.sealed[num - 1].num == num
    && c.active.entries == c.sealed[num - 1].entries && !Ascending(c.sealed + [c.active])
    && c.view == Replay(Entries(c.sealed)) && c.index == Rebuild(AllLines(c.cfg.len, c.sealed + [c.active]))
    && c.held == HeldOf(c.sidx.Keys, c.view) && c.SidxOk(c.held)
  }

  /** What a pass leaves that dropped a segment: everything is derived from the new list. */
  ghost predicate LeftDropped(c: Collection) reads c, c.sidx.Values {
    && c.view == Replay(Entries(c.sealed) + c.active.entries) && c.index == Rebuild(AllLines(c.cfg.len, c.sealed + [c.active]))
    && c.held == HeldOf(c.sidx.Keys, c.view) && c.SidxOk(c.held)
  }

  /** The files of the directory are those of the segments and the temps of the pass under way. */
  ghost predicate FilesAre(d: Directory, sealed: seq<Segment>, active: Segment, pass: Option<Pass>) reads d {
    && d.Valid() && d.manifest.None? && Ascending(sealed + [active])
    && match pass
       case None => d.files == Swap.FilesOf(sealed + [active])
       case Some(q) => Swap.DistinctTemps(q.temps) && d.files == Swap.FilesOf(sealed + [active]) + TempFiles(q.temps)
  }

  /** What the temps of a pass hold: the resolved entries, re-sealed. */
  ghost predicate Holding(pass: Pass, out: seq<Entry>) {
    && pass.sealed != [] && Survivors(out, Entries(pass.sealed), pass.now)
    && Resealed(out, Swap.Contents(pass.temps)) && |pass.temps| <= |out|
  }

  /** The first half of a pass, without the lock: resolve the sealed segments, re-seal, and write
      the temps. Nothing else on disk changes, and the collection does not. */
  method BeginPass(c: Collection, d: Directory, now: int, maxSize: int, reseal: Entry -> Option<Entry>)
    returns (r: Begun, ghost out: seq<Entry>)
    requires maxSize > 0 && Reseals(reseal) && FilesAre(d, c.sealed, c.active, None)
    modifies d`files, d`trace
    ensures r.Idle? <==> c.sealed == []
    ensures !r.Idle? ==> Survivors(out, Entries(c.sealed), now)
    ensures r.Failed? <==> !r.Idle? && exists i | 0 <= i < |out| :: reseal(out[i]).None?
    ensures !r.Ready? ==> d.files == old(d.files) && d.trace == old(d.trace)
    ensures r.Ready? ==>
              && r.pass.sealed == c.sealed && r.pass.now == now && Holding(r.pass, out)
              && (forall i | 0 <= i < |out| :: reseal(out[i]) == Some(Swap.Contents(r.pass.temps)[i]))
              && FilesAre(d, c.sealed, c.active, Some(r.pass)) && old(d.trace) <= d.trace
              && WritingSince(d.trace, |old(d.trace)| - 1, c.sealed, c.active.num)
  {
    hide Survivors, Resealed, Entries, Swap.FilesOf, Ascending, Swap.Contents, WritingSince, BesideSince;
    out := [];
    if c.sealed == [] {
      return Idle, out;
    }
    var resolved := ResolveEntries(c.sealed, now);
    out := resolved;
    var cut := ResealAll(resolved, reseal);
    if cut.None? {
      return Failed, out;
    }
    Swap.FilesOfAre(c.sealed + [c.active]);
    var temps := d.WriteCompacted(c.cfg.len, cut.value, maxSize);
    BesideIsWriting(d.trace, |old(d.trace)| - 1, c.sealed, c.active);
    AtLeastOneEach(temps);
    SameLength(out, cut.value);
    r := Ready(Pass(c.sealed, temps, now));
  }

  lemma SameLength(out: seq<Entry>, cut: seq<Entry>)
    requires Resealed(out, cut)
    ensures |out| == |cut|
  {
  }

  lemma ResealedDistinct(out: seq<Entry>, cut: seq<Entry>)
    requires Resealed(out, cut) && DistinctIds(out) && forall e | e in out :: !e.op.Delete?
    ensures DistinctIds(cut) && forall e | e in cut :: !e.op.Delete?
  {
    forall e | e in cut ensures !e.op.Delete? {
      var i :| 0 <= i < |cut| && cut[i] == e;
      assert out[i] in out;
    }
  }

  lemma SurvivorsAreWrites(out: seq<Entry>, past: seq<Entry>, now: int)
    requires Survivors(out, past, now)
    ensures DistinctIds(out) && forall e | e in out :: !e.op.Delete?
  {
    ReplayIds(map[], past);
  }

  // ---- The swap -------------------------------------------------------------------------------

  /** What was sealed since the pass took its snapshot. */
  function Later(pass: Pass, sealed: seq<Segment>): seq<Segment>
    requires pass.sealed <= sealed
  {
    sealed[|pass.sealed|..]
  }

  /** `w` has exactly the records of `v` that the active segment has a line of, or that forgetting
      the dropped segments leaves alone. */
  ghost predicate SegmentDropped(v: View, w: View, past: seq<Entry>, mid: seq<Entry>, act: seq<Entry>, now: int) {
    forall id :: Intact(v, w, id) <==> Touched(act, id) || ComesThrough(past, mid, now, id)
  }

  lemma {:induction false} EntriesConcat(a: seq<Segment>, b: seq<Segment>)
    ensures Entries(a + b) == Entries(a) + Entries(b)
  {
    hide Entries;
    NoEntries();
    if b == [] {
      assert a + b == a;
    } else {
      var init, last := b[..|b| - 1], b[|b| - 1];
      EntriesConcat(a, init);
      EntriesSnoc(a + init, last);
      EntriesSnoc(init, last);
      assert a + b == (a + init) + [last] && b == init + [last];
    }
  }

  lemma NoEntries()
    ensures Entries([]) == []
  {
  }

  /** What is lost, in terms of the lines since the snapshot. */
  lemma DropForgets(v: View, pass: Pass, sealed: seq<Segment>, active: Segment, out: seq<Entry>)
    requires pass.sealed <= sealed && v == Replay(Entries(sealed + [active])) && Holding(pass, out)
    ensures var past, mid := Entries(pass.sealed), Entries(Later(pass, sealed));
            var cut := Swap.Contents(pass.temps);
            && Forgotten(v, Replay(cut), past, mid + active.entries, pass.now)
            && SegmentDropped(v, Replay(cut + active.entries), past, mid, active.entries, pass.now)
  {
    hide Survivors, Resealed, Replay, Entries, ComesThrough, Intact;
    var past, mid := Entries(pass.sealed), Entries(Later(pass, sealed));
    var cut := Swap.Contents(pass.temps);
    assert sealed == pass.sealed + Later(pass, sealed);
    EntriesConcat(pass.sealed, Later(pass, sealed));
    EntriesSnoc(sealed, active);
    assert past + mid + active.entries == past + (mid + active.entries);
    CollisionForgets(past, out, cut, mid + active.entries, pass.now);
    forall id
      ensures Intact(v, Replay(cut + active.entries), id) <==>
              Touched(active.entries, id) || ComesThrough(past, mid, pass.now, id)
    {
      RotationForgets(past, out, cut, mid, active.entries, pass.now, id);
    }
  }

  /** The segments as they read after the swap: the compacted ones and what the active one's path
      now holds. */
  method InstallList(c: Collection, d: Directory, pass: Pass, ghost out: seq<Entry>)
    requires c.Valid() && Holding(pass, out) && Swap.Seg(c.active.num) in d.files
    requires forall k | 0 <= k < |pass.temps| :: LandedAt(pass.temps, d.files, k)
    requires 1 <= c.active.num && (c.active.num > |pass.temps| ==> d.files[Swap.Seg(c.active.num)] == c.active.entries)
    modifies c`sealed, c`active, c`index, c`view, c`held, c.sidx.Values
    ensures c.sealed == Swap.Compacted(pass.temps) && c.active.num == old(c.active.num)
    ensures if c.active.num <= |pass.temps| then LeftCollided(c, c.active.num) && c.view == Replay(Swap.Contents(pass.temps))
            else LeftDropped(c) && c.active == old(c.active) && c.view == Replay(Swap.Contents(pass.temps) + c.active.entries)
  {
    hide Core, Tracks, TotalBytes, HeldLive, FieldVals, HeldOf, Survivors, Resealed, Replay, Rebuild, AllLines, Entries;
    var num := c.active.num;
    var cut := Swap.Compacted(pass.temps);
    var over := d.files[Swap.Seg(num)];
    c.InstallOver(cut, over);
    if num <= |cut| {
      assert LandedAt(pass.temps, d.files, num - 1);
      assert cut[num - 1] in cut && cut[num - 1].num == num;
      SurvivorsAreWrites(out, Entries(pass.sealed), pass.now);
      ResealedDistinct(out, Entries(cut));
      SegmentIsIn(cut, num - 1);
      Again(Entries(cut), over);
    }
  }

  /** The second half of a pass, under the lock: swap the files and install the new list. Writes
      may have come in between. If they sealed no segment and the new segments stay clear of
      the active one's number, the collection is valid, its live view the same, up to sealing,
      less the reclaimed records, and the directory holds exactly the files of the segments;
      its states since the pass began are a run of the crash model from the initial one.
      Otherwise the new list is installed all the same, and what is lost is stated. */
  method FinishPass(c: Collection, d: Directory, pass: Pass, ghost out: seq<Entry>, ghost began: nat)
    returns (r: Finish, ghost drops: seq<Entry>, ghost run: seq<Swap.State>)
    requires c.Valid() && Holding(pass, out) && pass.sealed <= c.sealed && FilesAre(d, c.sealed, c.active, Some(pass))
    requires c.sealed == pass.sealed ==> WritingSince(d.trace, began, c.sealed, c.active.num)
    modifies c`sealed, c`active, c`index, c`log, c`hist, c`view, c`held, c`size, c.sidx.Values, d
    ensures d.Valid() && d.manifest.None? && old(d.trace) <= d.trace && c.sealed == Swap.Compacted(pass.temps)
    ensures r.Collided? <==> |pass.temps| >= old(c.active.num)
    ensures r.Dropped? <==> |pass.temps| < old(c.active.num) && old(c.sealed) != pass.sealed
    ensures r.Installed? ==>
              && c.Valid() && c.active == old(c.active) && FilesAre(d, c.sealed, c.active, None)
              && c.log == Entries(c.sealed) + c.active.entries && c.held == HeldOf(c.sidx.Keys, c.view)
              && Compacted(old(c.view), c.view, ReclaimedIds(Entries(pass.sealed), c.active.entries, pass.now))
              && (out == Entries(c.sealed) ==>
                    c.view == old(c.view) - ReclaimedIds(Entries(pass.sealed), c.active.entries, pass.now))
              && OnlyDueGone(old(c.view), c.view, c.active.entries, pass.now)
              && AllDeletes(drops) && c.hist == old(c.hist) + drops
              && (ReclaimedIds(Entries(pass.sealed), c.active.entries, pass.now) == {} ==> drops == [])
    ensures r.Installed? ==>
              && var p := Swap.Plan(pass.sealed, c.active.num, pass.temps);
              && began < |d.trace|
              && var first := Swap.State(d.trace[began], Swap.Phase.Writing, false, ActiveIn(d.trace[began], c.active.num));
              && Swap.PlanOk(p) && Swap.Init(p, first)
              && Track(p, run, d.trace, began, first, Swap.State(d.Now(), Swap.Done(false), true, c.active.entries))
    ensures r.Collided? ==>
              && LeftCollided(c, old(c.active.num))
              && Forgotten(old(c.view), c.view, Entries(pass.sealed), old(Entries(Later(pass, c.sealed)) + c.active.entries),
                           pass.now)
    ensures r.Dropped? ==>
              && LeftDropped(c) && c.active == old(c.active)
              && SegmentDropped(old(c.view), c.view, Entries(pass.sealed), old(Entries(Later(pass, c.sealed))),
                                c.active.entries, pass.now)
  {
    hide Core, Tracks, TotalBytes, HeldLive, FieldVals, HeldOf, Holding, Entries, ReclaimedIds, Compacted, AllDeletes,
         Forgotten, SegmentDropped, Swap.FilesOf, Swap.PlanOk, Swap.Init, Replay, Rebuild, AllLines, Track, WritingSince,
         LeftCollided, LeftDropped, Ascending, Swap.AfterRenames, Swap.TempsWritten, Swap.ManifestOf;
    drops, run := [], [];
    var p := Swap.Plan(pass.sealed, c.active.num, pass.temps);
    ghost var same := c.sealed == pass.sealed;
    HoldingMeans(pass, out);
    run := SwapFiles(c, d, p, began, same);
    if |pass.temps| >= c.active.num || |c.sealed| > |pass.sealed| {
      CoreView(c.cfg.len, c.sealed + [c.active], c.log, c.index, c.idSeq, c.hist, c.view);
      DropForgets(c.view, pass, c.sealed, c.active, out);
      r := if |pass.temps| >= c.active.num then Collided else Dropped;
      InstallList(c, d, pass, out);
      return;
    }
    drops := c.InstallCompacted(Swap.Compacted(pass.temps), pass.now, out);
    r := Installed;
  }

  lemma HoldingMeans(pass: Pass, out: seq<Entry>)
    requires Holding(pass, out)
    ensures pass.sealed != [] && |pass.temps| <= |out| && Survivors(out, Entries(pass.sealed), pass.now)
    ensures Resealed(out, Entries(Swap.Compacted(pass.temps)))
  {
  }

  /** The swap on disk. */
  method SwapFiles(c: Collection, d: Directory, p: Swap.Plan, ghost began: nat, ghost same: bool)
    returns (ghost run: seq<Swap.State>)
    requires p.sealed != [] && p.sealed <= c.sealed && p.active == c.active.num && (same <==> c.sealed == p.sealed)
    requires Swap.DistinctTemps(p.temps) && FilesAre(d, c.sealed, c.active, Some(Pass(p.sealed, p.temps, 0)))
    requires same ==> WritingSince(d.trace, began, p.sealed, p.active)
    modifies d
    ensures d.Valid() && d.manifest.None? && old(d.trace) <= d.trace && p.active >= 1
    ensures Swap.Seg(p.active) in d.files
    ensures forall k | 0 <= k < |p.temps| :: LandedAt(p.temps, d.files, k)
    ensures |p.temps| < p.active ==>
              d.files[Swap.Seg(p.active)] == c.active.entries && Ascending(Swap.Compacted(p.temps) + [c.active])
    ensures same && |p.temps| < p.active ==>
              && FilesAre(d, Swap.Compacted(p.temps), c.active, None) && began < |d.trace|
              && var first := Swap.State(d.trace[began], Swap.Phase.Writing, false, ActiveIn(d.trace[began], p.active));
              && Swap.PlanOk(p) && Swap.Init(p, first)
              && Track(p, run, d.trace, began, first, Swap.State(d.Now(), Swap.Done(false), true, c.active.entries))
  {
    hide Swap.FilesOf, Swap.PlanOk, Swap.Init, Track, InWriting, GrowsIn, Swap.TempsWritten, Swap.AfterRenames,
         Swap.ManifestOf, Holds, TempFiles, Swap.NewLayout, Swap.OldLayout, ActiveIn, Ascending;
    ghost var act := c.active.entries;
    ghost var whole := Swap.Plan(c.sealed, p.active, p.temps);
    WholeLayout(whole, p, c.sealed, c.active);
    LayoutActive(whole, d.files, act);
    SwapLands(p, d.files, Swap.FilesOf(c.sealed + [c.active]));
    ActiveLands(p, d.files, c.sealed, c.active);
    ghost var from, run0 := |d.trace| - 1, [Swap.State(d.Now(), Swap.Phase.Writing, false, act)];
    TrackStart(p, run0[0], d.trace);
    ghost var first := run0[0];
    if same {
      from, run0 := began, WriteRun(d.trace, began, p.active);
      WritingIsRun(p, d.trace, began);
      LastActive(d.Now(), p.active);
      first := Swap.State(d.trace[began], Swap.Phase.Writing, false, ActiveIn(d.trace[began], p.active));
    }
    if same && |p.temps| < p.active {
      PlanFits(p, act);
      FirstIsInit(p, d.trace[began], d.trace, began);
    }
    run := d.SwapIn(p, act, from, first, run0);
    if same && |p.temps| < p.active {
      SwapEnds(p, run, d.trace, began, first, Swap.State(d.Now(), Swap.Done(false), true, act));
    }
  }

  lemma WholeLayout(whole: Swap.Plan, p: Swap.Plan, sealed: seq<Segment>, active: Segment)
    requires whole == Swap.Plan(sealed, active.num, p.temps) && p.active == active.num && p.sealed <= sealed && p.sealed != []
    ensures Swap.OldLayout(whole, active.entries) == sealed + [active] && sealed != []
    ensures sealed == p.sealed ==> Swap.OldLayout(p, active.entries) == sealed + [active]
    ensures Swap.NewLayout(p, active.entries) == Swap.Compacted(p.temps) + [active]
    ensures forall f :: Swap.TempsWritten(whole, f) <==> Swap.TempsWritten(p, f)
  {
  }

  /** The active segment's path is not removed, and keeps its content unless a new segment was
      renamed over it. */
  lemma ActiveLands(p: Swap.Plan, f: Swap.Files, sealed: seq<Segment>, active: Segment)
    requires Swap.DistinctTemps(p.temps) && Swap.TempsWritten(p, f) && Ascending(sealed + [active])
    requires p.sealed <= sealed && p.active == active.num >= 1
    requires Swap.Seg(active.num) in f && f[Swap.Seg(active.num)] == active.entries
    ensures var g := Swap.AfterRenames(f, p.temps) - Swap.ManifestOf(p).removals;
            && Swap.Seg(p.active) in g
            && (|p.temps| < p.active ==> g[Swap.Seg(p.active)] == active.entries && Ascending(Swap.Compacted(p.temps) + [active]))
  {
    hide Swap.AfterRenames;
    Swap.ActiveSurvivesIff(f, p.temps, active.num);
    var segs := sealed + [active];
    forall s | s in p.sealed ensures s.num < active.num {
      var i :| 0 <= i < |p.sealed| && p.sealed[i] == s;
      assert segs[i] == s && segs[|sealed|] == active;
    }
    assert Swap.Seg(active.num) !in Swap.ManifestOf(p).removals;
  }

  lemma LastActive(d: Swap.Disk, active: nat)
    ensures Swap.Seg(active) in d.files ==> ActiveIn(d, active) == d.files[Swap.Seg(active)]
  {
  }

  lemma SwapEnds(p: Swap.Plan, run: seq<Swap.State>, trace: seq<Swap.Disk>, from: nat, first: Swap.State, last: Swap.State)
    requires Swap.PlanOk(p) && Swap.Init(p, first) && Track(p, run, trace, from, first, last)
    requires last.phase.Done? && last.committed && last.disk.manifest.None? && Swap.Temps(last.disk.files) == {}
    ensures Ascending(Swap.NewLayout(p, last.act)) && last.disk.files == Swap.FilesOf(Swap.NewLayout(p, last.act))
  {
    hide Swap.Init, Swap.PlanOk, Swap.Next, Swap.FilesOf, Swap.SegsAre;
    PassEnds(p, run);
    Swap.LayoutsAscend(p, last.act);
    Swap.ExactFiles(last.disk.files, Swap.NewLayout(p, last.act));
  }

  // ---- Both halves at once ----------------------------------------------------------------------

  datatype PassResult = NothingToDo | Aborted | Ended(finish: Finish)

  /** compact with no write in between: it leaves the collection valid and its live view the same,
      up to sealing, less the reclaimed records, and the directory with exactly the files of
      the new segments; a failed re-seal changes nothing anywhere. A pass that collides with
      the active segment installs its segments all the same. */
  method CompactPass(c: Collection, d: Directory, now: int, maxSize: int, reseal: Entry -> Option<Entry>)
    returns (r: PassResult, ghost out: seq<Entry>, ghost drops: seq<Entry>)
    requires c.Valid() && maxSize > 0 && Reseals(reseal) && FilesAre(d, c.sealed, c.active, None)
    modifies c`sealed, c`active, c`index, c`log, c`hist, c`view, c`held, c`size, c.sidx.Values, d
    ensures r.NothingToDo? <==> old(c.sealed) == []
    ensures !r.NothingToDo? ==> Survivors(out, old(Entries(c.sealed)), now)
    ensures r.Aborted? <==> !r.NothingToDo? && exists i | 0 <= i < |out| :: reseal(out[i]).None?
    ensures !r.Ended? ==> unchanged(c) && unchanged(old(c.sidx.Values)) && d.files == old(d.files)
    ensures r.Ended? ==>
              Resealed(out, Entries(c.sealed)) && forall i | 0 <= i < |out| :: reseal(out[i]) == Some(Entries(c.sealed)[i])
    ensures r != Ended(Collided) ==> c.Valid() && c.active == old(c.active) && FilesAre(d, c.sealed, c.active, None)
    ensures r == Ended(Installed) ==>
              && c.log == Entries(c.sealed) + c.active.entries && c.held == HeldOf(c.sidx.Keys, c.view)
              && Compacted(old(c.view), c.view, ReclaimedIds(old(Entries(c.sealed)), c.active.entries, now))
              && (out == Entries(c.sealed) ==>
                    c.view == old(c.view) - ReclaimedIds(old(Entries(c.sealed)), c.active.entries, now))
              && (forall id | id in c.view :: id in old(c.view))
              && (forall id | id in old(c.view) && (old(c.view)[id].expiresAt == 0 || now < old(c.view)[id].expiresAt) ::
                    id in c.view)
              && (forall id | id in old(c.view) && old(c.view)[id].expiresAt != 0 && old(c.view)[id].expiresAt <= now
                              && !Touched(c.active.entries, id) :: id !in c.view)
              && AllDeletes(drops) && c.hist == old(c.hist) + drops
    ensures r == Ended(Collided) ==>
              && old(c.active.num) <= |out| && LeftCollided(c, old(c.active.num))
              && Forgotten(old(c.view), c.view, old(Entries(c.sealed)), old(c.active.entries), now)
    ensures r != Ended(Dropped)
  {
    hide Core, Tracks, TotalBytes, HeldLive, FieldVals, HeldOf, Holding, Entries, ReclaimedIds, Compacted, AllDeletes,
         Forgotten, SegmentDropped, Swap.FilesOf, Swap.PlanOk, Swap.Init, Track, WritingSince, LeftCollided, LeftDropped,
         Ascending, TempFiles, Survivors, Resealed, Swap.DistinctTemps;
    drops := [];
    var b;
    ghost var from, run := |d.trace| - 1, [];
    b, out := BeginPass(c, d, now, maxSize, reseal);
    match b {
      case Idle => r := NothingToDo;
      case Failed => r := Aborted;
      case Ready(pass) =>
        HoldingMeans(pass, out);
        NothingLater(pass);
        ghost var act := c.active.entries;
        assert [] + act == act;
        var f;
        f, drops, run := FinishPass(c, d, pass, out, from);
        r := Ended(f);
    }
  }

  lemma NothingLater(pass: Pass)
    ensures Entries(Later(pass, pass.sealed)) == []
  {
  }
}
