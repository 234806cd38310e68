/** The compaction pass and the recovery as the code performs them on a directory. The
    directory records every state it goes through, and each method shows these states to be
    a run of the crash model, so that the crash-safety theorem speaks about these very steps. */
module Compactor {
  import opened Common
  import opened Log
  import opened Swap

  /** `files` holds the files of `base` that are not temps, and the given temp segments. */
  ghost predicate Holds(files: Files, base: Files, temps: seq<TempSeg>) {
    && (forall t | t in temps :: t.name in files && files[t.name] == t.entries)
    && (forall x | x in files && x.IsTemp() :: Named(temps, x))
    && (forall x | x in files && x.Seg? :: x in base && files[x] == base[x])
    && (forall x | x in base && x.Seg? :: x in files)
  }

  predicate Named(temps: seq<TempSeg>, x: Name) {
    exists t | t in temps :: t.name == x
  }

  lemma ContentsSnoc(temps: seq<TempSeg>, t: TempSeg)
    ensures Contents(temps + [t]) == Contents(temps) + t.entries
  {
    var segs := Compacted(temps + [t]);
    assert segs[..|temps|] == Compacted(temps);
  }

  /** The i-th temp segment written is called .compact_<i+1>. */
  predicate Fresh(segs: seq<TempSeg>) {
    forall i | 0 <= i < |segs| :: segs[i].name == Temp(i + 1)
  }

  lemma FreshSnoc(segs: seq<TempSeg>, t: TempSeg)
    requires Fresh(segs) && t.name == Temp(|segs| + 1)
    ensures Fresh(segs + [t])
  {
  }

  lemma HoldsOpen(f: Files, base: Files, segs: seq<TempSeg>, x: Name)
    requires Holds(f, base, segs) && x.IsTemp() && x !in f
    ensures Holds(f[x := []], base, segs + [TempSeg(x, [])])
  {
  }

  /** Merging two temp files into a third and removing them. */
  lemma HoldsMerge(f: Files, base: Files, done: seq<TempSeg>, s: TempSeg, next: TempSeg, rest: seq<TempSeg>, x: Name)
    requires Holds(f, base, done + [s] + [next] + rest) && s.name.IsTemp() && next.name.IsTemp()
    requires forall t | t in done || t in rest :: t.name != s.name && t.name != next.name && t.name != x
    requires x.IsTemp() && x != s.name && x != next.name
    ensures Holds(f[x := s.entries + next.entries] - {s.name} - {next.name}, base,
                  done + [TempSeg(x, s.entries + next.entries)] + rest)
  {
    var was := done + [s] + [next] + rest;
    var m := TempSeg(x, s.entries + next.entries);
    var now' := done + [m] + rest;
    var g := f[x := m.entries] - {s.name} - {next.name};
    assert now'[|done|] == m && m in now';
    forall t | t in now' ensures t.name in g && g[t.name] == t.entries {
      assert t == m || t in done || t in rest;
      assert t != m ==> t in was;
    }
    forall y | y in g && y.IsTemp() ensures Named(now', y) {
      if y != x {
        var t :| t in was && t.name == y;
        assert t in done || t == s || t == next || t in rest;
        assert t in now';
      }
    }
  }

  /** The pass has written `out`: full segments `segs` and the one being filled. */
  ghost predicate Filling(f: Files, base: Files, segs: seq<TempSeg>, cur: TempSeg, out: seq<Entry>) {
    && Fresh(segs) && cur.name == Temp(|segs| + 1)
    && Holds(f, base, segs + [cur])
    && Contents(segs) + cur.entries == out
    && (forall t | t in segs :: t.entries != [])
  }

  lemma FirstSegment(f: Files)
    requires forall x | x in f :: x.Seg?
    ensures Filling(Opened(f, Temp(1)), f, [], TempSeg(Temp(1), []), [])
  {
  }

  lemma NextSegment(f: Files, base: Files, segs: seq<TempSeg>, cur: TempSeg, out: seq<Entry>)
    requires Filling(f, base, segs, cur, out) && cur.entries != []
    ensures Filling(Opened(f, Temp(|segs| + 2)), base, segs + [cur], TempSeg(Temp(|segs| + 2), []), out)
  {
    ContentsSnoc(segs, cur);
    FreshSnoc(segs, cur);
    HoldsOpen(f, base, segs + [cur], Temp(|segs| + 2));
  }

  lemma AppendOne(f: Files, base: Files, segs: seq<TempSeg>, cur: TempSeg, out: seq<Entry>, e: Entry)
    requires Filling(f, base, segs, cur, out)
    ensures cur.name in f && f[cur.name] == cur.entries
    ensures Filling(f[cur.name := cur.entries + [e]], base, segs, TempSeg(cur.name, cur.entries + [e]), out + [e])
  {
  }

  lemma LastSegment(f: Files, base: Files, segs: seq<TempSeg>, cur: TempSeg, out: seq<Entry>)
    requires Filling(f, base, segs, cur, out) && cur.entries != []
    ensures Fresh(segs + [cur]) && Contents(segs + [cur]) == out && Holds(f, base, segs + [cur])
    ensures forall t | t in segs + [cur] :: t.entries != []
  {
    ContentsSnoc(segs, cur);
    FreshSnoc(segs, cur);
  }

  /** Merge names carry the number of the first segment merged. */
  predicate Numbers(done: seq<TempSeg>, i: nat) {
    && (forall r | 0 <= r < |done| :: done[r].name.IsTemp() && done[r].name.i <= i)
    && (forall q, r | 0 <= q < r < |done| :: done[q].name.i < done[r].name.i)
  }

  /** Rebalancing has put segs[..i] into `done` and left the rest as they were. */
  ghost predicate Rebalancing(f: Files, base: Files, segs: seq<TempSeg>, done: seq<TempSeg>, i: nat)
    requires i <= |segs|
  {
    && Numbers(done, i)
    && Contents(done) == Contents(segs[..i])
    && Holds(f, base, done + segs[i..])
    && ((forall t | t in segs :: t.entries != []) ==> forall t | t in done :: t.entries != [])
  }

  /** A segment passes the size limit with its last line at most. */
  predicate ClosedInTime(len: LineLen, es: seq<Entry>, maxSize: int) {
    es == [] || Bytes(len, es[..|es| - 1]) < maxSize
  }

  lemma NoBytesIn(len: LineLen)
    ensures Bytes(len, []) == 0
  {
  }

  lemma OpenedInTime(len: LineLen, maxSize: int)
    ensures ClosedInTime(len, [], maxSize) && Filled(len, [], maxSize)
  {
  }

  lemma StillInTime(len: LineLen, es: seq<Entry>, e: Entry, maxSize: int)
    requires Bytes(len, es) < maxSize
    ensures ClosedInTime(len, es + [e], maxSize)
  {
    assert (es + [e])[..|es|] == es;
  }

  /** Segments that were closed when they reached the limit. */
  predicate Filled(len: LineLen, segs: seq<TempSeg>, maxSize: int) {
    forall t | t in segs :: Bytes(len, t.entries) >= maxSize && ClosedInTime(len, t.entries, maxSize)
  }

  lemma FilledMore(len: LineLen, segs: seq<TempSeg>, cur: TempSeg, maxSize: int)
    requires Filled(len, segs, maxSize) && Bytes(len, cur.entries) >= maxSize && ClosedInTime(len, cur.entries, maxSize)
    ensures Filled(len, segs + [cur], maxSize)
  {
  }

  lemma FilledEnds(len: LineLen, segs: seq<TempSeg>, cur: TempSeg, maxSize: int)
    requires Filled(len, segs, maxSize) && ClosedInTime(len, cur.entries, maxSize) && cur.entries != [] && maxSize > 0
    ensures forall t | t in segs + [cur] :: t.entries != [] && ClosedInTime(len, t.entries, maxSize)
    ensures forall i | 0 <= i < |segs| :: Bytes(len, (segs + [cur])[i].entries) >= maxSize
  {
    forall t | t in segs + [cur] ensures t.entries != [] && ClosedInTime(len, t.entries, maxSize) {
      NoBytesIn(len);
    }
  }

  /** A temp segment that is not merged with its successor: it is not undersized, it is the last,
      or the two do not fit in one. */
  predicate Stays(len: LineLen, segs: seq<TempSeg>, maxSize: int, k: nat)
    requires k < |segs|
  {
    || Bytes(len, segs[k].entries) >= maxSize / 10 || k == |segs| - 1
    || Bytes(len, segs[k].entries) + Bytes(len, segs[k + 1].entries) > maxSize
  }

  /** What rebalancing leaves: a segment that stays, or one that did not with its successor. */
  predicate Rebalanced(len: LineLen, segs: seq<TempSeg>, maxSize: int, t: TempSeg) {
    exists k | 0 <= k < |segs| :: LeftOf(len, segs, maxSize, t, k)
  }

  predicate LeftOf(len: LineLen, segs: seq<TempSeg>, maxSize: int, t: TempSeg, k: nat)
    requires k < |segs|
  {
    if Stays(len, segs, maxSize, k) then t == segs[k]
    else k + 1 < |segs| && t.entries == segs[k].entries + segs[k + 1].entries
  }

  lemma RebalancedAt(len: LineLen, segs: seq<TempSeg>, maxSize: int, k: nat)
    requires k < |segs|
    ensures var (a, b) := (Bytes(len, segs[k].entries), if k + 1 < |segs| then Bytes(len, segs[k + 1].entries) else 0);
            if a >= maxSize / 10 || k == |segs| - 1 || a + b > maxSize then Rebalanced(len, segs, maxSize, segs[k])
            else forall t: TempSeg | t.entries == segs[k].entries + segs[k + 1].entries :: Rebalanced(len, segs, maxSize, t)
  {
    hide Bytes;
    if Stays(len, segs, maxSize, k) {
      assert LeftOf(len, segs, maxSize, segs[k], k);
    } else {
      forall t: TempSeg | t.entries == segs[k].entries + segs[k + 1].entries ensures Rebalanced(len, segs, maxSize, t) {
        assert LeftOf(len, segs, maxSize, t, k);
      }
    }
  }

  lemma RebalancedFits(len: LineLen, segs: seq<TempSeg>, maxSize: int, t: TempSeg)
    requires Rebalanced(len, segs, maxSize, t)
    ensures t in segs || Bytes(len, t.entries) <= maxSize
  {
    hide Bytes;
    var k :| 0 <= k < |segs| && LeftOf(len, segs, maxSize, t, k);
    if !Stays(len, segs, maxSize, k) { BytesConcat(len, segs[k].entries, segs[k + 1].entries); }
  }

  lemma RebalanceStart(f: Files, base: Files, segs: seq<TempSeg>)
    requires Holds(f, base, segs)
    ensures Rebalancing(f, base, segs, [], 0)
  {
  }

  lemma RebalanceEnd(f: Files, base: Files, segs: seq<TempSeg>, done: seq<TempSeg>)
    requires Fresh(segs) && Rebalancing(f, base, segs, done, |segs|)
    ensures DistinctTemps(done) && Contents(done) == Contents(segs) && Holds(f, base, done)
    ensures (forall t | t in segs :: t.entries != []) ==> forall t | t in done :: t.entries != []
  {
    assert segs[..|segs|] == segs && done + segs[|segs|..] == done;
  }

  lemma KeepOne(f: Files, base: Files, segs: seq<TempSeg>, done: seq<TempSeg>, i: nat)
    requires i < |segs| && Fresh(segs) && Rebalancing(f, base, segs, done, i)
    ensures Rebalancing(f, base, segs, done + [segs[i]], i + 1)
  {
    hide Holds, Contents;
    ContentsSnoc(done, segs[i]);
    ContentsSnoc(segs[..i], segs[i]);
    TakeSnoc(segs, i);
    MoveOne(done, segs, i);
  }

  lemma MergeTwo(f: Files, base: Files, segs: seq<TempSeg>, done: seq<TempSeg>, i: nat)
    requires i + 1 < |segs| && Fresh(segs) && Rebalancing(f, base, segs, done, i)
    ensures var s, next := segs[i], segs[i + 1];
            var m := TempSeg(Merge(s.name.i), s.entries + next.entries);
            Rebalancing(f[m.name := m.entries] - {s.name} - {next.name}, base, segs, done + [m], i + 2)
  {
    hide Holds, Contents;
    var s, next := segs[i], segs[i + 1];
    var m := TempSeg(Merge(s.name.i), s.entries + next.entries);
    var rest := segs[i + 2..];
    MergeContents(segs, done, i, m);
    MoveOne(done, segs, i);
    MoveOne(done + [s], segs, i + 1);
    forall t | t in done || t in rest ensures t.name != s.name && t.name != next.name && t.name != m.name {
    }
    HoldsMerge(f, base, done, s, next, rest, m.name);
    assert s in segs;
  }

  /** The name of a merged file is new. */
  lemma MergeName(f: Files, base: Files, segs: seq<TempSeg>, done: seq<TempSeg>, i: nat)
    requires i + 1 < |segs| && Fresh(segs) && Rebalancing(f, base, segs, done, i)
    ensures segs[i].name.IsTemp() && segs[i + 1].name.IsTemp() && Merge(segs[i].name.i) !in f
  {
    assert forall t | t in done + segs[i..] :: t in done || t in segs;
  }

  lemma MergeContents(segs: seq<TempSeg>, done: seq<TempSeg>, i: nat, m: TempSeg)
    requires i + 1 < |segs| && Contents(done) == Contents(segs[..i])
    requires m.entries == segs[i].entries + segs[i + 1].entries
    ensures Contents(done + [m]) == Contents(segs[..i + 2])
  {
    ContentsSnoc(done, m);
    ContentsSnoc(segs[..i], segs[i]);
    ContentsSnoc(segs[..i + 1], segs[i + 1]);
    TakeSnoc(segs, i);
    TakeSnoc(segs, i + 1);
  }

  // ---- What a directory went through ---------------------------------------------------

  /** The sequence without the states that repeat the one before. */
  ghost function Changes(ds: seq<Disk>): seq<Disk> {
    if ds == [] then [] else
    var init, last := ds[..|ds| - 1], ds[|ds| - 1];
    if init != [] && init[|init| - 1] == last then Changes(init) else Changes(init) + [last]
  }

  lemma {:induction false} InChanges(ds: seq<Disk>, d: Disk)
    ensures d in Changes(ds) <==> d in ds
  {
    if ds != [] {
      var init, last := ds[..|ds| - 1], ds[|ds| - 1];
      assert ds == init + [last];
      InChanges(init, d);
    }
  }

  ghost function Disks(run: seq<State>): (ds: seq<Disk>)
    ensures |ds| == |run| && forall i | 0 <= i < |run| :: ds[i] == run[i].disk
  {
    seq(|run|, i requires 0 <= i < |run| => run[i].disk)
  }

  /** The states the directory went through since position `from` of its trace are those of
      the run of the crash model, from the first to the last and in their order. */
  ghost predicate Track(p: Plan, run: seq<State>, trace: seq<Disk>, from: nat, first: State, last: State)
    requires DistinctTemps(p.temps)
  {
    && IsRun(p, run) && run[0] == first && run[|run| - 1] == last
    && from < |trace| && first.disk == trace[from] && last.disk == trace[|trace| - 1]
    && Changes(Disks(run)) == Changes(trace[from..])
  }

  lemma TrackStart(p: Plan, s: State, trace: seq<Disk>)
    requires DistinctTemps(p.temps) && trace != [] && s.disk == trace[|trace| - 1]
    ensures Track(p, [s], trace, |trace| - 1, s, s)
  {
    assert Disks([s]) == trace[|trace| - 1..];
  }

  /** A step that changes the directory. */
  lemma TrackMove(p: Plan, run: seq<State>, trace: seq<Disk>, from: nat, first: State, s: State, t: State)
    requires DistinctTemps(p.temps) && Track(p, run, trace, from, first, s) && Next(p, s, t)
    ensures Track(p, run + [t], trace + [t.disk], from, first, t)
  {
    hide Next, Changes;
    ExtendRun(p, run, t);
    assert Disks(run + [t]) == Disks(run) + [t.disk];
    assert (trace + [t.disk])[from..] == trace[from..] + [t.disk];
    ChangesSnoc(Disks(run), t.disk);
    ChangesSnoc(trace[from..], t.disk);
  }

  /** A step that does not. */
  lemma TrackStay(p: Plan, run: seq<State>, trace: seq<Disk>, from: nat, first: State, s: State, t: State)
    requires DistinctTemps(p.temps) && Track(p, run, trace, from, first, s) && Next(p, s, t) && t.disk == s.disk
    ensures Track(p, run + [t], trace, from, first, t)
  {
    hide Next, Changes;
    ExtendRun(p, run, t);
    assert Disks(run + [t]) == Disks(run) + [t.disk];
    ChangesSnoc(Disks(run), t.disk);
  }

  lemma {:induction false} ChangesSnoc(ds: seq<Disk>, d: Disk)
    ensures Changes(ds + [d]) == if ds != [] && ds[|ds| - 1] == d then Changes(ds) else Changes(ds) + [d]
  {
    assert (ds + [d])[..|ds|] == ds;
  }

  lemma ExtendRun(p: Plan, run: seq<State>, t: State)
    requires DistinctTemps(p.temps) && IsRun(p, run) && Next(p, run[|run| - 1], t)
    ensures IsRun(p, run + [t])
  {
    hide Next;
    var r := run + [t];
    assert r[..|run|] == run;
    forall i | 0 <= i < |r| - 1 ensures Next(p, r[i], r[i + 1]) {
      if i < |run| - 1 { assert Next(p, run[i], run[i + 1]) && r[i] == run[i] && r[i + 1] == run[i + 1]; }
    }
  }

  lemma StepRename(p: Plan, s: State, x: Name)
    requires DistinctTemps(p.temps) && s.phase.Renaming? && x in s.phase.todo
    ensures Next(p, s, Renamed(s, x))
  {
  }

  lemma StepRemove(p: Plan, s: State, x: Name)
    requires DistinctTemps(p.temps) && (s.phase.Removing? || s.phase.Discarding?) && x in s.phase.todo
    ensures Next(p, s, Removed(s, x))
  {
  }

  /** The process may stop wherever the directory was: a run of the model ends there. */
  lemma CrashAt(p: Plan, run: seq<State>, trace: seq<Disk>, from: nat, first: State, last: State, k: nat)
    returns (cut: seq<State>)
    requires DistinctTemps(p.temps) && Track(p, run, trace, from, first, last) && from <= k < |trace|
    ensures IsRun(p, cut) && cut[0] == first && cut[|cut| - 1].phase.Down? && cut[|cut| - 1].disk == trace[k]
  {
    hide Next;
    assert trace[from..][k - from] == trace[k] && trace[k] in trace[from..];
    InChanges(trace[from..], trace[k]);
    InChanges(Disks(run), trace[k]);
    var i :| 0 <= i < |run| && run[i].disk == trace[k];
    StepDown(p, run[i]);
    RunPrefix(p, run, i);
    ExtendRun(p, run[..i + 1], run[i].(phase := Down));
    cut := run[..i + 1] + [run[i].(phase := Down)];
  }

  lemma StepDown(p: Plan, s: State)
    requires DistinctTemps(p.temps)
    ensures Next(p, s, s.(phase := Down))
  {
  }

  lemma RunPrefix(p: Plan, run: seq<State>, i: nat)
    requires DistinctTemps(p.temps) && IsRun(p, run) && i < |run|
    ensures IsRun(p, run[..i + 1]) && run[..i + 1][0] == run[0] && run[..i + 1][i] == run[i]
  {
    hide Next;
    var some := run[..i + 1];
    forall j | 0 <= j < |some| - 1 ensures Next(p, some[j], some[j + 1]) {
      assert Next(p, run[j], run[j + 1]) && some[j] == run[j] && some[j + 1] == run[j + 1];
    }
  }

  // ---- The writing phase ---------------------------------------------------------------

  /** A directory during the writing of a pass: the snapshotted segments, an active one that
      only grows, and temps. */
  ghost predicate InWriting(sealed: seq<Segment>, active: nat, d: Disk) {
    d.manifest.None? && Seg(active) in d.files && SegsAre(d.files, sealed + [Segment(active, d.files[Seg(active)])])
  }

  predicate GrowsIn(active: nat, a: Disk, b: Disk) {
    Seg(active) in a.files && Seg(active) in b.files && a.files[Seg(active)] <= b.files[Seg(active)]
  }

  /** Since position `from`, where there were no temps, the directory was in that phase. */
  ghost predicate WritingSince(trace: seq<Disk>, from: nat, sealed: seq<Segment>, active: nat) {
    && from < |trace| && Temps(trace[from].files) == {}
    && (forall k | from <= k < |trace| :: InWriting(sealed, active, trace[k]))
    && (forall k | from < k < |trace| :: GrowsIn(active, trace[k - 1], trace[k]))
  }

  /** What the active segment's file holds. */
  function ActiveIn(d: Disk, active: nat): seq<Entry> {
    if Seg(active) in d.files then d.files[Seg(active)] else []
  }

  ghost function WriteRun(trace: seq<Disk>, from: nat, active: nat): seq<State>
    requires from <= |trace|
  {
    seq(|trace| - from, i requires 0 <= i < |trace| - from =>
      State(trace[from + i], Phase.Writing, false, ActiveIn(trace[from + i], active)))
  }

  lemma WritingIsRun(p: Plan, trace: seq<Disk>, from: nat)
    requires DistinctTemps(p.temps) && WritingSince(trace, from, p.sealed, p.active)
    ensures var first := State(trace[from], Phase.Writing, false, ActiveIn(trace[from], p.active));
            var d := trace[|trace| - 1];
            Track(p, WriteRun(trace, from, p.active), trace, from, first, State(d, Phase.Writing, false, ActiveIn(d, p.active)))
  {
    hide InWriting, Next;
    var run := WriteRun(trace, from, p.active);
    assert Disks(run) == trace[from..];
    forall i | 0 <= i < |run| - 1 ensures Next(p, run[i], run[i + 1]) {
      var a, b := trace[from + i], trace[from + i + 1];
      assert GrowsIn(p.active, trace[from + i + 1 - 1], b);
      WritingStep(p, a, b);
    }
  }

  lemma WritingStep(p: Plan, a: Disk, b: Disk)
    requires DistinctTemps(p.temps) && InWriting(p.sealed, p.active, a) && InWriting(p.sealed, p.active, b)
    requires GrowsIn(p.active, a, b)
    ensures Next(p, State(a, Phase.Writing, false, ActiveIn(a, p.active)), State(b, Phase.Writing, false, ActiveIn(b, p.active)))
  {
    var x, y := p.sealed + [Segment(p.active, a.files[Seg(p.active)])], p.sealed + [Segment(p.active, b.files[Seg(p.active)])];
    assert x[|p.sealed|].num == p.active && y[|p.sealed|].num == p.active;
    forall i | 0 <= i < |x| && x[i].num != p.active ensures i < |p.sealed| && x[i] == y[i] {
    }
    forall f: Name | f in b.files && f.Seg? ensures f in a.files {
      var i :| 0 <= i < |y| && y[i].num == f.n;
      assert x[i].num == f.n;
    }
    forall f: Name | f in a.files && f.Seg?
      ensures f in b.files && b.files[f] == if f.n == p.active then b.files[Seg(p.active)] else a.files[f]
    {
      var i :| 0 <= i < |x| && x[i].num == f.n;
      assert y[i].num == f.n && Seg(y[i].num) in b.files && Seg(x[i].num) in a.files;
    }
    assert WriteStep(p, State(a, Phase.Writing, false, ActiveIn(a, p.active)),
                     State(b, Phase.Writing, false, ActiveIn(b, p.active)));
  }

  function NamesFrom(temps: seq<TempSeg>, i: nat): set<Name>
    requires i <= |temps|
  {
    set t | t in temps[i..] :: t.name
  }

  lemma NamesStep(p: Plan, i: nat)
    requires DistinctTemps(p.temps) && i < |p.temps|
    ensures p.temps[i].name in NamesFrom(p.temps, i)
    ensures NamesFrom(p.temps, i) - {p.temps[i].name} == NamesFrom(p.temps, i + 1)
    ensures p.temps[i].name in ManifestOf(p).renames && ManifestOf(p).renames[p.temps[i].name] == Seg(i + 1)
  {
  }

  lemma AllNames(p: Plan)
    requires DistinctTemps(p.temps)
    ensures ManifestOf(p).renames.Keys == NamesFrom(p.temps, 0)
  {
  }

  lemma PlanFits(p: Plan, act: seq<Entry>)
    requires Ascending(OldLayout(p, act)) && DistinctTemps(p.temps) && |p.temps| < p.active
    ensures PlanOk(p)
  {
    var segs := OldLayout(p, act);
    assert forall i | 0 <= i < |p.sealed| :: p.sealed[i] == segs[i];
    assert segs[|p.sealed|].num == p.active;
  }

  lemma PassEnds(p: Plan, run: seq<State>)
    requires PlanOk(p) && IsRun(p, run) && Init(p, run[0])
    requires run[|run| - 1].phase.Done? && run[|run| - 1].committed && run[|run| - 1].disk.manifest.None?
    ensures SegsAre(run[|run| - 1].disk.files, NewLayout(p, run[|run| - 1].act))
  {
    RunKeepsInv(p, run);
  }

  lemma NoRenames(f: Files, temps: seq<TempSeg>)
    ensures AfterRenames(f, temps[..0]) == f
  {
  }

  lemma RenameOne(f: Files, temps: seq<TempSeg>, i: nat)
    requires i < |temps|
    ensures AfterRenames(f, temps[..i + 1]) == RenameFile(AfterRenames(f, temps[..i]), temps[i].name, Seg(i + 1))
  {
    assert temps[..i + 1][..i] == temps[..i];
  }

  /** The renames take every temp file away. */
  lemma {:induction false} TempsGone(f: Files, temps: seq<TempSeg>, x: Name)
    requires x in AfterRenames(f, temps) && x.IsTemp() && DistinctTemps(temps)
    ensures x in f && !Named(temps, x)
  {
    if temps != [] {
      var k := |temps| - 1;
      TempsGone(f, temps[..k], x);
      assert temps == temps[..k] + [temps[k]];
    }
  }

  /** New segment k + 1 is under its final name. */
  predicate LandedAt(temps: seq<TempSeg>, f: Files, k: nat)
    requires k < |temps|
  {
    Seg(k + 1) in f && f[Seg(k + 1)] == temps[k].entries
  }

  /** The swap ends with every new segment under its final name and no temp file. */
  lemma SwapLands(p: Plan, f: Files, base: Files)
    requires DistinctTemps(p.temps) && Holds(f, base, p.temps)
    ensures var g := AfterRenames(f, p.temps) - ManifestOf(p).removals;
            && (forall k | 0 <= k < |p.temps| :: LandedAt(p.temps, g, k))
            && Temps(g) == {}
  {
    hide AfterRenames;
    var g := AfterRenames(f, p.temps) - ManifestOf(p).removals;
    forall k | 0 <= k < |p.temps| ensures LandedAt(p.temps, g, k) {
      RenamesLand(f, p.temps, k + 1);
      assert p.temps[k] in p.temps && Seg(k + 1) !in ManifestOf(p).removals;
    }
    forall x | x in g && x.IsTemp() ensures false {
      TempsGone(f, p.temps, x);
    }
  }

  lemma {:induction false} AtLeastOneEach(temps: seq<TempSeg>)
    requires forall t | t in temps :: t.entries != []
    ensures |temps| <= |Contents(temps)|
  {
    if temps != [] {
      var init, last := temps[..|temps| - 1], temps[|temps| - 1];
      assert temps == init + [last];
      ContentsSnoc(init, last);
      AtLeastOneEach(init);
    }
  }

  /** openActiveSegment on a temp path: the file is created, or kept and appended to. */
  function Opened(f: Files, x: Name): Files {
    if x in f then f else f[x := []]
  }

  // ---- Temp files beside the segments ----------------------------------------------------

  function TempFiles(temps: seq<TempSeg>): Files
    requires DistinctTemps(temps)
  {
    map i | 0 <= i < |temps| :: temps[i].name := temps[i].entries
  }

  lemma HoldsIs(f: Files, base: Files, temps: seq<TempSeg>)
    requires DistinctTemps(temps) && forall x | x in base :: x.Seg?
    ensures Holds(f, base, temps) <==> f == base + TempFiles(temps)
  {
    hide Named, DistinctTemps, TempFiles;
    var g := TempFiles(temps);
    TempFilesAre(temps);
    if Holds(f, base, temps) {
      forall x ensures x in f <==> x in base + g {
        if x in f && x.IsTemp() { assert Named(temps, x); }
        if x in g { NamedOne(temps, g, x); }
      }
      forall x | x in f ensures f[x] == (base + g)[x] {
        if x in g { NamedOne(temps, g, x); } else { assert x in base; }
      }
    }
    if f == base + g {
      assert forall t | t in temps :: t.name in f && f[t.name] == t.entries;
      assert forall x | x in f && x.IsTemp() :: x in g;
    }
  }

  lemma TempFilesAre(temps: seq<TempSeg>)
    requires DistinctTemps(temps)
    ensures forall t | t in temps :: t.name in TempFiles(temps) && TempFiles(temps)[t.name] == t.entries && t.name.IsTemp()
    ensures forall x :: x in TempFiles(temps) <==> Named(temps, x)
    ensures forall x | x in TempFiles(temps) :: x.IsTemp()
  {
    var g := TempFiles(temps);
    forall t | t in temps ensures t.name in g && g[t.name] == t.entries && t.name.IsTemp() {
      var i :| 0 <= i < |temps| && temps[i] == t;
      assert temps[i].name in g;
    }
    forall x | x in g ensures Named(temps, x) {
      var i :| 0 <= i < |temps| && temps[i].name == x;
      assert temps[i] in temps;
    }
  }

  lemma NamedOne(temps: seq<TempSeg>, g: Files, x: Name)
    requires Named(temps, x) && forall t | t in temps :: t.name in g && g[t.name] == t.entries
    ensures x in g && exists t | t in temps :: t.name == x && g[x] == t.entries
  {
  }

  /** Only temps have been written beside the files of `base`. */
  ghost predicate TempsBeside(d: Disk, base: Files) {
    && d.manifest.None?
    && (forall x | x in d.files && x.Seg? :: x in base && d.files[x] == base[x])
    && (forall x | x in base && x.Seg? :: x in d.files)
  }

  /** The directory after each of the lines appended to a file. */
  ghost function Growth(d: Disk, x: Name, es: seq<Entry>): (ds: seq<Disk>)
    requires x in d.files
    ensures |ds| == |es| && forall i | 0 <= i < |es| :: ds[i] == d.(files := d.files[x := d.files[x] + es[..i + 1]])
  {
    seq(|es|, i requires 0 <= i < |es| => d.(files := d.files[x := d.files[x] + es[..i + 1]]))
  }

  /** All states since position `from` have the files of `base` and temps. */
  ghost predicate BesideSince(trace: seq<Disk>, from: nat, base: Files) {
    forall k | from <= k < |trace| :: TempsBeside(trace[k], base)
  }

  /** Touching a temp file leaves the segments alone. */
  lemma BesideMore(trace: seq<Disk>, from: nat, base: Files, more: seq<Disk>, x: Name)
    requires BesideSince(trace, from, base) && from < |trace| && x.IsTemp()
    requires forall d | d in more :: d.manifest.None? && d.files - {x} == trace[|trace| - 1].files - {x}
    ensures BesideSince(trace + more, from, base)
  {
    var last := trace[|trace| - 1];
    forall k | from <= k < |trace + more| ensures TempsBeside((trace + more)[k], base) {
      if k >= |trace| {
        var d := (trace + more)[k];
        assert d == more[k - |trace|] && d in more;
        forall y: Name | y.Seg? ensures (y in d.files <==> y in last.files) && (y in d.files ==> d.files[y] == last.files[y]) {
          assert y in d.files - {x} <==> y in last.files - {x};
          if y in d.files { assert (d.files - {x})[y] == (last.files - {x})[y]; }
        }
      }
    }
  }

  /** A pass that has only written temps so far is in the writing phase. */
  lemma BesideIsWriting(trace: seq<Disk>, from: nat, sealed: seq<Segment>, active: Segment)
    requires from < |trace| && Ascending(sealed + [active]) && trace[from] == Disk(FilesOf(sealed + [active]), None)
    requires BesideSince(trace, from, trace[from].files)
    ensures WritingSince(trace, from, sealed, active.num)
  {
    var segs, base := sealed + [active], trace[from].files;
    FilesOfAre(segs);
    assert segs[|sealed|] == active && Seg(active.num) in base && base[Seg(active.num)] == active.entries;
    forall k | from <= k < |trace|
      ensures InWriting(sealed, active.num, trace[k]) && trace[k].files[Seg(active.num)] == active.entries
    {
      assert TempsBeside(trace[k], base);
      assert sealed + [Segment(active.num, active.entries)] == segs;
    }
  }

  /** Lines appended to the active segment keep the pass in its writing phase. */
  lemma WritingGrows(trace: seq<Disk>, from: nat, sealed: seq<Segment>, active: nat, es: seq<Entry>)
    requires WritingSince(trace, from, sealed, active) && forall s | s in sealed :: s.num < active
    ensures Seg(active) in trace[|trace| - 1].files
    ensures WritingSince(trace + Growth(trace[|trace| - 1], Seg(active), es), from, sealed, active)
  {
    hide InWriting, GrowsIn;
    var d := trace[|trace| - 1];
    assert InWriting(sealed, active, d);
    GrownInWriting(sealed, active, d, []);
    var more := Growth(d, Seg(active), es);
    var all := trace + more;
    forall k | from <= k < |all| ensures InWriting(sealed, active, all[k]) {
      if k >= |trace| { GrownInWriting(sealed, active, d, es[..k - |trace| + 1]); }
    }
    forall k | from < k < |all| ensures GrowsIn(active, all[k - 1], all[k]) {
      if k >= |trace| { GrowthGrows(d, active, es, k - |trace|); }
    }
  }

  lemma GrownInWriting(sealed: seq<Segment>, active: nat, d: Disk, es: seq<Entry>)
    requires InWriting(sealed, active, d) && forall s | s in sealed :: s.num < active
    ensures Seg(active) in d.files && InWriting(sealed, active, d.(files := d.files[Seg(active) := d.files[Seg(active)] + es]))
  {
    LastGrows(d.files, sealed, active, d.files[Seg(active)], d.files[Seg(active)] + es);
  }

  lemma GrowthGrows(d: Disk, active: nat, es: seq<Entry>, i: nat)
    requires Seg(active) in d.files && i < |es|
    ensures GrowsIn(active, if i == 0 then d else Growth(d, Seg(active), es)[i - 1], Growth(d, Seg(active), es)[i])
  {
    var base := d.files[Seg(active)];
    assert base + es[..i] <= base + es[..i + 1];
  }

  /** The active segment's file holds what the layout says. */
  lemma LayoutActive(p: Plan, f: Files, act: seq<Entry>)
    requires Ascending(OldLayout(p, act)) && DistinctTemps(p.temps) && f == FilesOf(OldLayout(p, act)) + TempFiles(p.temps)
    ensures Seg(p.active) in f && f[Seg(p.active)] == act && TempsWritten(p, f) && Holds(f, FilesOf(OldLayout(p, act)), p.temps)
    ensures p.sealed != [] ==> p.active >= 1
  {
    var segs := OldLayout(p, act);
    FilesOfAre(segs);
    assert segs[|p.sealed|] == Segment(p.active, act);
    HoldsIs(f, FilesOf(segs), p.temps);
    forall i | 0 <= i < |p.temps| ensures p.temps[i].name in f && f[p.temps[i].name] == p.temps[i].entries {
      assert p.temps[i] in p.temps;
    }
    if p.sealed != [] { assert segs[0].num < segs[|p.sealed|].num; }
  }

  lemma FirstIsInit(p: Plan, d: Disk, trace: seq<Disk>, from: nat)
    requires PlanOk(p) && WritingSince(trace, from, p.sealed, p.active) && d == trace[from]
    ensures Init(p, State(d, Phase.Writing, false, ActiveIn(d, p.active)))
  {
    var act := ActiveIn(d, p.active);
    LayoutsAscend(p, act);
    assert InWriting(p.sealed, p.active, d);
    ExactFiles(d.files, OldLayout(p, act));
  }

  /** A directory. Its files and manifest change only through the operations of the file
      system below, each of which adds the new state to the trace. */
  class Directory {
    var files: Files
    var manifest: Option<Manifest>
    ghost var trace: seq<Disk>

    function Now(): Disk reads `files, `manifest { Disk(files, manifest) }

    ghost predicate Valid() reads this {
      trace != [] && trace[|trace| - 1] == Now()
    }

    constructor (segs: seq<Segment>)
      requires Ascending(segs)
      ensures Valid() && files == FilesOf(segs) && manifest.None? && trace == [Now()]
    {
      files, manifest := FilesOf(segs), None;
      trace := [Disk(FilesOf(segs), None)];
    }

    // ---- What the file system does ------------------------------------------------------

    /** Open for appending: the file is created, or kept. */
    method Create(x: Name)
      modifies `files, `trace
      ensures files == Opened(old(files), x) && trace == old(trace) + [Now()]
    {
      files := Opened(files, x);
      trace := trace + [Now()];
    }

    method Append(x: Name, e: Entry)
      requires x in files
      modifies `files, `trace
      ensures files == old(files)[x := old(files)[x] + [e]] && trace == old(trace) + [Now()]
    {
      files := files[x := files[x] + [e]];
      trace := trace + [Now()];
    }

    method Rename(src: Name, dst: Name)
      modifies `files, `trace
      ensures files == RenameFile(old(files), src, dst) && trace == old(trace) + [Now()]
    {
      files := RenameFile(files, src, dst);
      trace := trace + [Now()];
    }

    method Remove(x: Name)
      modifies `files, `trace
      ensures files == old(files) - {x} && trace == old(trace) + [Now()]
    {
      files := files - {x};
      trace := trace + [Now()];
    }

    method SetManifest(m: Option<Manifest>)
      modifies `manifest, `trace
      ensures manifest == m && trace == old(trace) + [Now()]
    {
      manifest := m;
      trace := trace + [Now()];
    }

    /** Lines appended one after the other. */
    method AppendLines(x: Name, es: seq<Entry>)
      requires Valid() && x in files
      modifies `files, `trace
      ensures Valid() && files == old(files)[x := old(files)[x] + es]
      ensures trace == old(trace) + Growth(old(Now()), x, es)
    {
      ghost var d := Now();
      ghost var more := Growth(d, x, es);
      assert es[..0] == [] && d.files[x] + [] == d.files[x] && d.files == d.files[x := d.files[x] + es[..0]];
      for i := 0 to |es|
        invariant Valid() && x in files && files == d.files[x := d.files[x] + es[..i]] && trace == old(trace) + more[..i]
      {
        TakeSnoc(es, i);
        TakeSnoc(more, i);
        Append(x, es[i]);
        assert files[x] == d.files[x] + es[..i + 1];
        assert more[i] == Now();
      }
      TakeAll(es);
      TakeAll(more);
    }

    // ---- Writing the compacted segments ---------------------------------------------------

    /** writeCompacted: write the survivors into temp segments of about maxSize bytes each,
        then merge undersized neighbours. */
    method WriteCompacted(len: LineLen, entries: seq<Entry>, maxSize: int) returns (temps: seq<TempSeg>)
      requires Valid() && maxSize > 0 && manifest.None? && forall x | x in files :: x.Seg?
      modifies `files, `trace
      ensures Valid() && old(trace) <= trace && BesideSince(trace, |old(trace)| - 1, old(files))
      ensures DistinctTemps(temps) && Contents(temps) == entries && files == old(files) + TempFiles(temps)
      ensures forall t | t in temps :: t.entries != []
      ensures forall t | t in temps :: ClosedInTime(len, t.entries, maxSize) || Bytes(len, t.entries) <= maxSize
    {
      hide Holds, Contents, Bytes, Rebalanced;
      if entries == [] {
        NoTemps(files);
        return [];
      }
      var segs := FillTemps(len, entries, maxSize);
      temps := Rebalance(len, segs, maxSize, old(files), |old(trace)| - 1);
      HoldsIs(files, old(files), temps);
    }

    /** Fill one temp segment after the other; each is closed when it reaches maxSize. */
    method FillTemps(len: LineLen, entries: seq<Entry>, maxSize: int) returns (segs: seq<TempSeg>)
      requires Valid() && maxSize > 0 && entries != [] && manifest.None? && forall x | x in files :: x.Seg?
      modifies `files, `trace
      ensures Valid() && old(trace) <= trace && BesideSince(trace, |old(trace)| - 1, old(files))
      ensures Fresh(segs) && Contents(segs) == entries
      ensures Holds(files, old(files), segs)
      ensures forall t | t in segs :: t.entries != []
      ensures forall i | 0 <= i < |segs| - 1 :: Bytes(len, segs[i].entries) >= maxSize
      ensures forall t | t in segs :: ClosedInTime(len, t.entries, maxSize)
    {
      hide Bytes, Filling, Holds, Fresh, Contents, BesideSince, ClosedInTime, Filled;
      FirstSegment(files);
      segs := [];
      OpenedInTime(len, maxSize);
      NoBytesIn(len);
      var cur := TempSeg(Temp(1), []);
      ghost var n := |trace| - 1;
      BesideFirst(trace, n);
      StepBeside(cur.name, n, old(files));
      for i := 0 to |entries|
        invariant Valid() && old(trace) <= trace && BesideSince(trace, n, old(files))
        invariant cur.name.IsTemp() && Filling(files, old(files), segs, cur, entries[..i])
        invariant i > 0 ==> cur.entries != []
        invariant ClosedInTime(len, cur.entries, maxSize) && Filled(len, segs, maxSize)
      {
        if Bytes(len, cur.entries) >= maxSize {
          NextSegment(files, old(files), segs, cur, entries[..i]);
          FilledMore(len, segs, cur, maxSize);
          segs := segs + [cur];
          cur := TempSeg(Temp(|segs| + 1), []);
          StepBeside(cur.name, n, old(files));
        }
        AppendOne(files, old(files), segs, cur, entries[..i], entries[i]);
        TakeSnoc(entries, i);
        AppendBeside(cur.name, [entries[i]], n, old(files));
        StillInTime(len, cur.entries, entries[i], maxSize);
        cur := TempSeg(cur.name, cur.entries + [entries[i]]);
      }
      TakeAll(entries);
      LastSegment(files, old(files), segs, cur, entries);
      FilledEnds(len, segs, cur, maxSize);
      segs := segs + [cur];
    }

    /** Open a temp file. */
    method StepBeside(x: Name, ghost from: nat, ghost base: Files)
      requires Valid() && manifest.None? && x.IsTemp() && from < |trace| && BesideSince(trace, from, base)
      modifies `files, `trace
      ensures Valid() && old(trace) <= trace && BesideSince(trace, from, base) && files == Opened(old(files), x)
    {
      hide BesideSince;
      Create(x);
      BesideMore(old(trace), from, base, [Now()], x);
    }

    method AppendBeside(x: Name, es: seq<Entry>, ghost from: nat, ghost base: Files)
      requires Valid() && manifest.None? && x.IsTemp() && x in files && from < |trace| && BesideSince(trace, from, base)
      modifies `files, `trace
      ensures Valid() && old(trace) <= trace && BesideSince(trace, from, base) && files == old(files)[x := old(files)[x] + es]
    {
      hide BesideSince;
      ghost var more := Growth(Now(), x, es);
      AppendLines(x, es);
      BesideMore(old(trace), from, base, more, x);
    }

    method RemoveBeside(x: Name, ghost from: nat, ghost base: Files)
      requires Valid() && manifest.None? && x.IsTemp() && from < |trace| && BesideSince(trace, from, base)
      modifies `files, `trace
      ensures Valid() && old(trace) <= trace && BesideSince(trace, from, base) && files == old(files) - {x}
    {
      hide BesideSince;
      Remove(x);
      BesideMore(old(trace), from, base, [Now()], x);
    }

    /** rebalance: merge a segment below a tenth of maxSize with its successor when the two
        fit in one. */
    method Rebalance(len: LineLen, segs: seq<TempSeg>, maxSize: int, ghost base: Files, ghost from: nat)
      returns (result: seq<TempSeg>)
      requires Valid() && manifest.None? && from < |trace| && BesideSince(trace, from, base)
      requires Fresh(segs) && Holds(files, base, segs)
      modifies `files, `trace
      ensures Valid() && old(trace) <= trace && BesideSince(trace, from, base)
      ensures DistinctTemps(result) && Contents(result) == Contents(segs)
      ensures Holds(files, base, result)
      ensures (forall t | t in segs :: t.entries != []) ==> forall t | t in result :: t.entries != []
      ensures forall t | t in result :: t in segs || Bytes(len, t.entries) <= maxSize
      ensures forall t | t in result :: Rebalanced(len, segs, maxSize, t)
    {
      if |segs| <= 1 {
        forall t | t in segs ensures Rebalanced(len, segs, maxSize, t) { RebalancedAt(len, segs, maxSize, 0); }
        return segs;
      }
      result := MergeSmall(len, segs, maxSize, base, from);
      forall t | t in result ensures t in segs || Bytes(len, t.entries) <= maxSize { RebalancedFits(len, segs, maxSize, t); }
    }

    method MergeSmall(len: LineLen, segs: seq<TempSeg>, maxSize: int, ghost base: Files, ghost from: nat)
      returns (result: seq<TempSeg>)
      requires Valid() && manifest.None? && from < |trace| && BesideSince(trace, from, base)
      requires Fresh(segs) && Holds(files, base, segs)
      modifies `files, `trace
      ensures Valid() && old(trace) <= trace && BesideSince(trace, from, base)
      ensures DistinctTemps(result) && Contents(result) == Contents(segs)
      ensures Holds(files, base, result)
      ensures (forall t | t in segs :: t.entries != []) ==> forall t | t in result :: t.entries != []
      ensures forall t | t in result :: Rebalanced(len, segs, maxSize, t)
    {
      hide Rebalanced, Rebalancing, Holds, Fresh, Contents, DistinctTemps, Bytes, BesideSince;
      RebalanceStart(files, base, segs);
      result := [];
      var i := 0;
      while i < |segs|
        invariant Valid() && old(trace) <= trace && BesideSince(trace, from, base)
        invariant i <= |segs| && Rebalancing(files, base, segs, result, i)
        invariant forall t | t in result :: Rebalanced(len, segs, maxSize, t)
      {
        RebalancedAt(len, segs, maxSize, i);
        var s := segs[i];
        if Bytes(len, s.entries) >= maxSize / 10 || i == |segs| - 1
           || Bytes(len, s.entries) + Bytes(len, segs[i + 1].entries) > maxSize {
          KeepOne(files, base, segs, result, i);
          result := result + [s];
          i := i + 1;
        } else {
          var next := segs[i + 1];
          MergeTwo(files, base, segs, result, i);
          MergeName(files, base, segs, result, i);
          var merged := TempSeg(Merge(s.name.i), s.entries + next.entries);
          MergeFiles(s, next, merged, base, from);
          result := result + [merged];
          i := i + 2;
        }
      }
      RebalanceEnd(files, base, segs, result);
    }

    /** Copy two temp segments into a third file and remove them. */
    method MergeFiles(s: TempSeg, next: TempSeg, merged: TempSeg, ghost base: Files, ghost from: nat)
      requires Valid() && manifest.None? && from < |trace| && BesideSince(trace, from, base)
      requires s.name.IsTemp() && next.name.IsTemp() && merged.name.IsTemp() && merged.name !in files
      requires merged.entries == s.entries + next.entries
      modifies `files, `trace
      ensures Valid() && old(trace) <= trace && BesideSince(trace, from, base)
      ensures files == old(files)[merged.name := merged.entries] - {s.name} - {next.name}
    {
      hide BesideSince;
      StepBeside(merged.name, from, base);
      AppendBeside(merged.name, s.entries, from, base);
      AppendBeside(merged.name, next.entries, from, base);
      assert [] + s.entries + next.entries == merged.entries;
      assert files == old(files)[merged.name := merged.entries];
      RemoveBeside(s.name, from, base);
      RemoveBeside(next.name, from, base);
    }

    // ---- The swap ---------------------------------------------------------------------------

    /** The swap of a compaction pass: record the intent, rename the temps over their
        final names in order, remove the old segments whose names were not reused, and
        retire the intent. */
    method SwapIn(p: Plan, ghost act: seq<Entry>, ghost from: nat, ghost first: State, ghost run0: seq<State>)
      returns (ghost run: seq<State>)
      requires Valid() && DistinctTemps(p.temps) && TempsWritten(p, files) && manifest.None?
      requires Track(p, run0, trace, from, first, State(Now(), Phase.Writing, false, act))
      modifies this
      ensures Valid() && old(trace) <= trace && manifest.None?
      ensures Track(p, run, trace, from, first, State(Now(), Done(false), true, act))
      ensures files == AfterRenames(old(files), p.temps) - ManifestOf(p).removals
    {
      hide Track, AfterRenames;
      ghost var s0 := State(Now(), Phase.Writing, true, act);
      var m := ManifestOf(p);
      SetManifest(Some(m));
      ghost var s1 := s0.(disk := Now(), phase := Renaming(m.renames.Keys, false));
      TrackMove(p, run0, old(trace), from, first, State(old(Now()), Phase.Writing, false, act), s1);
      run := RenameTemps(p, s0, from, first, run0 + [s1]);
      ghost var s2 := s0.(disk := Now(), phase := Removing(m.removals, false));
      TrackStay(p, run, trace, from, first, s0.(disk := Now(), phase := Renaming({}, false)), s2);
      run := RemoveListed(p, m.removals, s0, false, from, first, run + [s2]);
      ghost var s3 := s0.(disk := Now(), phase := Clearing(false));
      TrackStay(p, run, trace, from, first, s0.(disk := Now(), phase := Removing({}, false)), s3);
      ghost var was := trace;
      SetManifest(None);
      TrackMove(p, run + [s3], was, from, first, s3, State(Now(), Done(false), true, act));
      run := run + [s3] + [State(Now(), Done(false), true, act)];
    }

    method RenameTemps(p: Plan, ghost s0: State, ghost from: nat, ghost first: State, ghost run0: seq<State>)
      returns (ghost run: seq<State>)
      requires Valid() && DistinctTemps(p.temps) && manifest == Some(ManifestOf(p))
      requires Track(p, run0, trace, from, first, s0.(disk := Now(), phase := Renaming(ManifestOf(p).renames.Keys, false)))
      modifies `files, `trace
      ensures Valid() && old(trace) <= trace && files == AfterRenames(old(files), p.temps)
      ensures Track(p, run, trace, from, first, s0.(disk := Now(), phase := Renaming({}, false)))
    {
      hide DistinctTemps, Track, Next, ManifestOf, AfterRenames;
      NoRenames(files, p.temps);
      run := run0;
      ghost var todo := ManifestOf(p).renames.Keys;
      AllNames(p);
      for i := 0 to |p.temps|
        invariant Valid() && old(trace) <= trace
        invariant Track(p, run, trace, from, first, s0.(disk := Now(), phase := Renaming(todo, false)))
        invariant todo == NamesFrom(p.temps, i) && files == AfterRenames(old(files), p.temps[..i])
      {
        var x := p.temps[i].name;
        NamesStep(p, i);
        RenameOne(old(files), p.temps, i);
        ghost var s, was := s0.(disk := Now(), phase := Renaming(todo, false)), trace;
        StepRename(p, s, x);
        Rename(x, Seg(i + 1));
        TrackMove(p, run, was, from, first, s, Renamed(s, x));
        run := run + [Renamed(s, x)];
        todo := todo - {x};
      }
      assert todo == {};
      TakeAll(p.temps);
    }

    method RemoveListed(ghost p: Plan, removals: set<Name>, ghost s0: State, ghost rec: bool, ghost from: nat,
                        ghost first: State,
                        ghost run0: seq<State>)
      returns (ghost run: seq<State>)
      requires Valid() && DistinctTemps(p.temps)
      requires Track(p, run0, trace, from, first, s0.(disk := Now(), phase := Removing(removals, rec)))
      modifies `files, `trace
      ensures Valid() && old(trace) <= trace && files == old(files) - removals
      ensures Track(p, run, trace, from, first, s0.(disk := Now(), phase := Removing({}, rec)))
    {
      hide Track, DistinctTemps, Next;
      run := run0;
      var left := removals;
      while left != {}
        invariant Valid() && old(trace) <= trace
        invariant Track(p, run, trace, from, first, s0.(disk := Now(), phase := Removing(left, rec)))
        invariant left <= removals && files == old(files) - (removals - left)
        decreases left
      {
        var x :| x in left;
        ghost var s, was := s0.(disk := Now(), phase := Removing(left, rec)), trace;
        StepRemove(p, s, x);
        Remove(x);
        TrackMove(p, run, was, from, first, s, Removed(s, x));
        run := run + [Removed(s, x)];
        left := left - {x};
      }
    }

    // ---- Recovery ----------------------------------------------------------------------------

    /** recoverCompaction: without a manifest discard stray temps; with one apply the
        outstanding renames in any order, delete the listed segments, discard what temps
        remain and retire the intent. Tells whether there was a manifest. */
    method RecoverCompaction(ghost p: Plan, ghost committed: bool, ghost act: seq<Entry>)
      returns (found: bool, ghost run: seq<State>)
      requires Valid() && DistinctTemps(p.temps)
      modifies this
      ensures Valid() && old(trace) <= trace && (found <==> old(manifest).Some?)
      ensures Track(p, run, trace, |old(trace)| - 1, State(old(Now()), Down, committed, act),
                    State(Now(), Done(true), committed, act))
    {
      hide Track, DistinctTemps;
      ghost var s0, from := State(Now(), Down, committed, act), |trace| - 1;
      TrackStart(p, s0, trace);
      found := manifest.Some?;
      TrackStay(p, [s0], trace, from, s0, s0, Restarted(s0));
      run := [s0] + [Restarted(s0)];
      if found {
        run := RollForward(p, s0, from, run);
      }
      run := DiscardTemps(p, s0, from, run);
      if found {
        ghost var s, was := s0.(disk := Now(), phase := Clearing(true)), trace;
        SetManifest(None);
        TrackMove(p, run, was, from, s0, s, State(Now(), Done(true), committed, act));
        run := run + [State(Now(), Done(true), committed, act)];
      }
    }

    method RollForward(ghost p: Plan, ghost s0: State, ghost from: nat, ghost run0: seq<State>) returns (ghost run: seq<State>)
      requires Valid() && manifest.Some? && DistinctTemps(p.temps)
      requires Track(p, run0, trace, from, s0, s0.(disk := Now(), phase := Renaming(manifest.value.renames.Keys, true)))
      modifies `files, `trace
      ensures Valid() && old(trace) <= trace
      ensures Track(p, run, trace, from, s0, s0.(disk := Now(), phase := Discarding(Temps(files))))
    {
      hide Track, DistinctTemps;
      run := run0;
      var m := manifest.value;
      var todo := m.renames.Keys;
      while todo != {}
        invariant Valid() && old(trace) <= trace && todo <= m.renames.Keys
        invariant Track(p, run, trace, from, s0, s0.(disk := Now(), phase := Renaming(todo, true)))
        decreases todo
      {
        var src :| src in todo;
        ghost var s, was := s0.(disk := Now(), phase := Renaming(todo, true)), trace;
        StepRename(p, s, src);
        Rename(src, m.renames[src]);
        TrackMove(p, run, was, from, s0, s, Renamed(s, src));
        run := run + [Renamed(s, src)];
        todo := todo - {src};
      }
      ghost var s1 := s0.(disk := Now(), phase := Removing(m.removals, true));
      TrackStay(p, run, trace, from, s0, s0.(disk := Now(), phase := Renaming({}, true)), s1);
      run := RemoveListed(p, m.removals, s0, true, from, s0, run + [s1]);
      ghost var s2 := s0.(disk := Now(), phase := Discarding(Temps(files)));
      TrackStay(p, run, trace, from, s0, s0.(disk := Now(), phase := Removing({}, true)), s2);
      run := run + [s2];
    }

    /** discardCompactTemps: delete whatever the glob over .compact_* finds. */
    method DiscardTemps(ghost p: Plan, ghost s0: State, ghost from: nat, ghost run0: seq<State>) returns (ghost run: seq<State>)
      requires Valid() && DistinctTemps(p.temps)
      requires Track(p, run0, trace, from, s0, s0.(disk := Now(), phase := Discarding(Temps(files))))
      modifies `files, `trace
      ensures Valid() && old(trace) <= trace && Temps(files) == {}
      ensures Track(p, run, trace, from, s0, s0.(disk := Now(), phase := if manifest.Some? then Clearing(true) else Done(true)))
    {
      hide Track, DistinctTemps;
      run := run0;
      var stray := Temps(files);
      while stray != {}
        invariant Valid() && old(trace) <= trace && Temps(files) == stray
        invariant Track(p, run, trace, from, s0, s0.(disk := Now(), phase := Discarding(stray)))
        decreases stray
      {
        var x :| x in stray;
        ghost var s, was := s0.(disk := Now(), phase := Discarding(stray)), trace;
        StepRemove(p, s, x);
        Remove(x);
        TrackMove(p, run, was, from, s0, s, Removed(s, x));
        run := run + [Removed(s, x)];
        stray := stray - {x};
      }
      ghost var t := s0.(disk := Now(), phase := if manifest.Some? then Clearing(true) else Done(true));
      TrackStay(p, run, trace, from, s0, s0.(disk := Now(), phase := Discarding({})), t);
      run := run + [t];
    }
  }

  lemma NoTemps(f: Files)
    ensures Contents([]) == [] && f + TempFiles([]) == f
  {
  }

  lemma BesideFirst(trace: seq<Disk>, n: nat)
    requires n == |trace| - 1 && trace[n].manifest.None?
    ensures BesideSince(trace, n, trace[n].files)
  {
  }
}
