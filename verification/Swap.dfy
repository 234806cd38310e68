/** The crash-safe segment swap of a compaction pass: temp files, the intent manifest,
    renames, removals, and the recovery that rolls an interrupted swap forward. The
    directory is a map from file names to contents; every rename, remove and atomic
    file write is one step, and a crash may fall between any two. */
module Swap {
  import opened Common
  import opened Log
  import opened Compaction
  import opened SegmentNames

  /** seg_<n>.ndjson, .compact_<i>.ndjson and .compact_<i>.ndjson.merge */
  datatype Name = Seg(n: nat) | Temp(i: nat) | Merge(i: nat) {
    predicate IsTemp() { !Seg? }
  }

  type Files = map<Name, seq<Entry>>

  datatype Manifest = Manifest(renames: map<Name, Name>, removals: set<Name>)

  datatype Disk = Disk(files: Files, manifest: Option<Manifest>)

  datatype TempSeg = TempSeg(name: Name, entries: seq<Entry>)

  // ---- Segment layouts ---------------------------------------------------------

  /** The segment files of `f` are exactly those of the layout. */
  predicate SegsAre(f: Files, segs: seq<Segment>) {
    && (forall i | 0 <= i < |segs| :: Seg(segs[i].num) in f && f[Seg(segs[i].num)] == segs[i].entries)
    && (forall x | x in f && x.Seg? :: Numbered(segs, x.n))
  }

  predicate Numbered(segs: seq<Segment>, n: nat) {
    exists i | 0 <= i < |segs| :: segs[i].num == n
  }

  function FilesOf(segs: seq<Segment>): (f: Files)
    requires Ascending(segs)
  {
    map i | 0 <= i < |segs| :: Seg(segs[i].num) := segs[i].entries
  }

  lemma FilesOfAre(segs: seq<Segment>)
    requires Ascending(segs)
    ensures SegsAre(FilesOf(segs), segs) && forall x | x in FilesOf(segs) :: x.Seg?
  {
  }

  function SegNums(f: Files): set<nat> {
    set x | x in f && x.Seg? :: x.n
  }

  /** The segment whose file name sorts last. */
  predicate SortsLast(nums: set<nat>, m: nat) {
    m in nums && forall x | x in nums && x != m :: NameBefore(x, m)
  }

  lemma {:induction false} LastExists(nums: set<nat>)
    requires nums != {}
    ensures exists m :: SortsLast(nums, m)
  {
    hide NameBefore;
    var n :| n in nums;
    var rest := nums - {n};
    if rest == {} {
      assert nums == {n};
      assert SortsLast(nums, n);
    } else {
      LastExists(rest);
      var k :| SortsLast(rest, k);
      BeforeTotal(n, k);
      if NameBefore(n, k) {
        assert SortsLast(nums, k);
      } else {
        forall x | x in rest && x != k ensures NameBefore(x, n) { BeforeTrans(x, k, n); }
        assert SortsLast(nums, n);
      }
    }
  }

  ghost function LastOf(nums: set<nat>): (m: nat)
    requires nums != {}
    ensures SortsLast(nums, m)
  {
    LastExists(nums);
    var m :| SortsLast(nums, m);
    m
  }

  lemma OneLast(nums: set<nat>, a: nat, b: nat)
    requires SortsLast(nums, a) && SortsLast(nums, b)
    ensures a == b
  {
    hide NameBefore;
    BeforeTotal(a, b);
  }

  /** The segments an open finds, in file-name order; the last one becomes the active. */
  ghost function Load(f: Files, nums: set<nat>): seq<Segment>
    requires forall n | n in nums :: Seg(n) in f
    decreases |nums|
  {
    if nums == {} then [] else
    var hi := LastOf(nums);
    Load(f, nums - {hi}) + [Segment(hi, f[Seg(hi)])]
  }

  /** The file names of the segments sort as the list does. */
  ghost predicate NameOrdered(segs: seq<Segment>) {
    forall i, j | 0 <= i < j < |segs| :: NameBefore(segs[i].num, segs[j].num)
  }

  ghost predicate Listed(segs: seq<Segment>, f: Files, nums: set<nat>) {
    && NameOrdered(segs)
    && (forall s | s in segs :: s.num in nums && Seg(s.num) in f && f[Seg(s.num)] == s.entries)
    && (forall n | n in nums :: Seg(n) in f && Numbered(segs, n))
  }

  lemma ListedInit(segs: seq<Segment>, f: Files, nums: set<nat>)
    requires Listed(segs, f, nums) && segs != []
    ensures var k := |segs| - 1;
            Listed(segs[..k], f, nums - {segs[k].num}) && SortsLast(nums, segs[k].num)
  {
    hide NameBefore;
    var k := |segs| - 1;
    assert segs[k] in segs;
    forall n | n in nums && n != segs[k].num ensures NameBefore(n, segs[k].num) && Numbered(segs[..k], n) {
      var i :| 0 <= i < |segs| && segs[i].num == n;
      assert segs[..k][i].num == n;
    }
    forall s | s in segs[..k] ensures s in segs && s.num != segs[k].num {
      var i :| 0 <= i < k && segs[i] == s;
      BeforeTotal(segs[i].num, segs[k].num);
    }
  }

  lemma {:induction false} LoadFinds(segs: seq<Segment>, f: Files, nums: set<nat>)
    requires Listed(segs, f, nums)
    ensures Load(f, nums) == segs
    decreases |segs|
  {
    if segs == [] {
      assert nums == {};
    } else {
      var k := |segs| - 1;
      ListedInit(segs, f, nums);
      OneLast(nums, segs[k].num, LastOf(nums));
      LoadFinds(segs[..k], f, nums - {segs[k].num});
      TakeSnoc(segs, k);
      TakeAll(segs);
      assert segs[k] in segs;
    }
  }

  lemma {:induction false} LoadOrdered(f: Files, nums: set<nat>)
    requires forall n | n in nums :: Seg(n) in f
    ensures NameOrdered(Load(f, nums)) && forall s | s in Load(f, nums) :: s.num in nums
    decreases |nums|
  {
    hide NameBefore;
    if nums != {} {
      var hi := LastOf(nums);
      var init := Load(f, nums - {hi});
      LoadOrdered(f, nums - {hi});
      forall s | s in init ensures NameBefore(s.num, hi) && s.num in nums {
        assert s.num in nums - {hi};
      }
    }
  }

  lemma SegNumsIn(f: Files)
    ensures forall n | n in SegNums(f) :: Seg(n) in f
  {
  }

  /** Opening a directory whose segment files are those of a layout finds that layout exactly
      when the file names sort as the segments were numbered. */
  lemma OpenFindsIff(f: Files, segs: seq<Segment>)
    requires SegsAre(f, segs)
    ensures (forall n | n in SegNums(f) :: Seg(n) in f) && (Load(f, SegNums(f)) == segs <==> NameOrdered(segs))
  {
    hide NameBefore;
    SegNumsIn(f);
    LoadOrdered(f, SegNums(f));
    if NameOrdered(segs) {
      forall n | n in SegNums(f) ensures Numbered(segs, n) {
        assert Seg(n).Seg?;
      }
      forall s | s in segs ensures s.num in SegNums(f) && f[Seg(s.num)] == s.entries {
        var i :| 0 <= i < |segs| && segs[i] == s;
        assert Seg(s.num) in f && Seg(s.num).Seg?;
      }
      LoadFinds(segs, f, SegNums(f));
    }
  }

  /** While segment numbers stay below a million, name order is numeric order. */
  lemma SmallNumbers(segs: seq<Segment>)
    requires Ascending(segs) && (segs != [] ==> segs[|segs| - 1].num < 1000000)
    ensures NameOrdered(segs)
  {
    hide NameBefore;
    forall i, j | 0 <= i < j < |segs| ensures NameBefore(segs[i].num, segs[j].num) {
      SmallNames(segs[i].num, segs[j].num);
    }
  }

  /** Past it an open can take the wrong segment for the active one. */
  lemma WrongActive(a: seq<Entry>, b: seq<Entry>)
    ensures var segs := [Segment(999999, a), Segment(1000000, b)];
            Ascending(segs) && var f := FilesOf(segs);
            (forall n | n in SegNums(f) :: Seg(n) in f) && Load(f, SegNums(f)) == [Segment(1000000, b), Segment(999999, a)]
  {
    hide NameBefore;
    var segs := [Segment(999999, a), Segment(1000000, b)];
    var back := [Segment(1000000, b), Segment(999999, a)];
    var f := FilesOf(segs);
    FilesOfAre(segs);
    assert segs[0].num == back[1].num == 999999 && segs[1].num == back[0].num == 1000000;
    assert Seg(segs[0].num) in f && Seg(segs[1].num) in f;
    assert SegsAre(f, back);
    MillionFirst();
    assert NameOrdered(back);
    OpenFindsIff(f, back);
  }

  // ---- The swap as a state machine ------------------------------------------------

  /** One pass: the sealed segments it snapshotted, the active segment's number, and the
      temp segments it wrote, in order. */
  datatype Plan = Plan(sealed: seq<Segment>, active: nat, temps: seq<TempSeg>)

  predicate DistinctTemps(temps: seq<TempSeg>) {
    && (forall i | 0 <= i < |temps| :: temps[i].name.IsTemp())
    && (forall i, j | 0 <= i < j < |temps| :: temps[i].name != temps[j].name)
  }

  /** The code names the new segments 1..m without looking at the active one, so the
      swap needs m to stay below the active segment's number. */
  predicate PlanOk(p: Plan) {
    && Ascending(p.sealed)
    && (forall s | s in p.sealed :: s.num < p.active)
    && DistinctTemps(p.temps)
    && |p.temps| < p.active
  }

  function Compacted(temps: seq<TempSeg>): seq<Segment> {
    seq(|temps|, i requires 0 <= i < |temps| => Segment(i + 1, temps[i].entries))
  }

  function OldLayout(p: Plan, act: seq<Entry>): seq<Segment> {
    p.sealed + [Segment(p.active, act)]
  }

  function NewLayout(p: Plan, act: seq<Entry>): seq<Segment> {
    Compacted(p.temps) + [Segment(p.active, act)]
  }

  lemma LayoutsAscend(p: Plan, act: seq<Entry>)
    requires PlanOk(p)
    ensures Ascending(OldLayout(p, act)) && Ascending(NewLayout(p, act))
  {
  }

  function ManifestOf(p: Plan): Manifest
    requires DistinctTemps(p.temps)
  {
    Manifest(map i | 0 <= i < |p.temps| :: p.temps[i].name := Seg(i + 1),
             set s | s in p.sealed && !(1 <= s.num <= |p.temps|) :: Seg(s.num))
  }

  /** Where the process is. `rec` tells a recovery at open from the pass itself. */
  datatype Phase =
    | Writing
    | Renaming(todo: set<Name>, rec: bool)
    | Removing(todo: set<Name>, rec: bool)
    | Discarding(todo: set<Name>)
    | Clearing(rec: bool)
    | Done(rec: bool)
    | Down

  /** `act` is the content of the active segment file and `committed` records that the
      manifest was written at some point. */
  datatype State = State(disk: Disk, phase: Phase, committed: bool, act: seq<Entry>)

  function RenameFile(f: Files, src: Name, dst: Name): Files {
    if src in f then (f - {src})[dst := f[src]] else f
  }

  function Temps(f: Files): set<Name> {
    set x | x in f && x.IsTemp()
  }

  function Renamed(s: State, src: Name): State
    requires s.phase.Renaming?
  {
    var m := s.disk.manifest;
    var f := if m.Some? && src in m.value.renames then RenameFile(s.disk.files, src, m.value.renames[src])
             else s.disk.files;
    s.(disk := s.disk.(files := f), phase := Renaming(s.phase.todo - {src}, s.phase.rec))
  }

  function Removed(s: State, x: Name): State
    requires s.phase.Removing? || s.phase.Discarding?
  {
    var f := s.disk.files - {x};
    var ph := if s.phase.Removing? then Removing(s.phase.todo - {x}, s.phase.rec) else Discarding(s.phase.todo - {x});
    s.(disk := s.disk.(files := f), phase := ph)
  }

  /** The temp segments of the plan are complete on disk. */
  predicate TempsWritten(p: Plan, f: Files) {
    forall i | 0 <= i < |p.temps| :: p.temps[i].name in f && f[p.temps[i].name] == p.temps[i].entries
  }

  /** Before the manifest only temp files and the active segment change. */
  ghost predicate WriteStep(p: Plan, s: State, t: State) {
    && t.phase == Writing && t.committed == s.committed && t.disk.manifest == s.disk.manifest
    && s.act <= t.act
    && (forall x | x in t.disk.files && x.Seg? :: x in s.disk.files)
    && (forall x | x in s.disk.files && x.Seg? :: x in t.disk.files &&
          t.disk.files[x] == if x.n == p.active then t.act else s.disk.files[x])
  }

  /** While the lock is free writers may append to the active segment. */
  predicate LockFree(p: Plan, ph: Phase)
    requires DistinctTemps(p.temps)
  {
    match ph
    case Writing => true
    case Renaming(todo, rec) => !rec && todo == ManifestOf(p).renames.Keys
    case Clearing(rec) => !rec
    case Done(rec) => !rec
    case _ => false
  }

  predicate AppendStep(p: Plan, s: State, t: State) {
    && s.act <= t.act
    && t == s.(act := t.act, disk := s.disk.(files := s.disk.files[Seg(p.active) := t.act]))
  }

  ghost predicate CommitStep(p: Plan, s: State, t: State)
    requires DistinctTemps(p.temps)
  {
    && TempsWritten(p, s.disk.files)
    && t == s.(disk := s.disk.(manifest := Some(ManifestOf(p))), committed := true,
               phase := Renaming(ManifestOf(p).renames.Keys, false))
  }

  /** Reopening the collection after a stop: roll forward, or discard stray temps. */
  function Restarted(s: State): State {
    match s.disk.manifest
    case Some(m) => s.(phase := Renaming(m.renames.Keys, true))
    case None => s.(phase := Discarding(Temps(s.disk.files)))
  }

  ghost predicate Next(p: Plan, s: State, t: State)
    requires DistinctTemps(p.temps)
  {
    || t == s.(phase := Down)
    || (LockFree(p, s.phase) && AppendStep(p, s, t))
    || match s.phase
       case Writing => WriteStep(p, s, t) || CommitStep(p, s, t)
       case Renaming(todo, rec) =>
         if todo == {} then
           t == s.(phase := Removing(if s.disk.manifest.Some? then s.disk.manifest.value.removals else {}, rec))
         else exists x | x in todo :: t == Renamed(s, x)
       case Removing(todo, rec) =>
         if todo == {} then t == s.(phase := if rec then Discarding(Temps(s.disk.files)) else Clearing(false))
         else exists x | x in todo :: t == Removed(s, x)
       case Discarding(todo) =>
         if todo == {} then t == s.(phase := if s.disk.manifest.Some? then Clearing(true) else Done(true))
         else exists x | x in todo :: t == Removed(s, x)
       case Clearing(rec) => t == s.(disk := s.disk.(manifest := None), phase := Done(rec))
       case Done(_) => false
       case Down => t == Restarted(s)
  }

  ghost predicate IsRun(p: Plan, run: seq<State>)
    requires DistinctTemps(p.temps)
  {
    run != [] && forall i | 0 <= i < |run| - 1 :: Next(p, run[i], run[i + 1])
  }

  /** The pass has taken its snapshot and written nothing yet. */
  ghost predicate Init(p: Plan, s: State)
    requires PlanOk(p)
  {
    LayoutsAscend(p, s.act);
    s == State(Disk(FilesOf(OldLayout(p, s.act)), None), Writing, false, s.act)
  }

  // ---- The invariant --------------------------------------------------------------

  /** Each new segment is either still in its temp file or already under its final name;
      nothing but new, old and active segments lies beside them. */
  predicate Rolling(p: Plan, f: Files, act: seq<Entry>) {
    && (forall i | 0 <= i < |p.temps| ::
          if p.temps[i].name in f then f[p.temps[i].name] == p.temps[i].entries
          else Seg(i + 1) in f && f[Seg(i + 1)] == p.temps[i].entries)
    && Seg(p.active) in f && f[Seg(p.active)] == act
    && (forall x | x in f && x.Seg? && x.n != p.active && !(1 <= x.n <= |p.temps|) ::
          exists s | s in p.sealed :: s.num == x.n)
  }

  predicate AllRenamed(p: Plan, f: Files) {
    forall i | 0 <= i < |p.temps| :: p.temps[i].name !in f
  }

  predicate AllRemoved(p: Plan, f: Files)
    requires DistinctTemps(p.temps)
  {
    ManifestOf(p).removals !! f.Keys
  }

  /** What each phase has already achieved. */
  predicate Progress(p: Plan, f: Files, act: seq<Entry>, ph: Phase)
    requires DistinctTemps(p.temps)
  {
    match ph
    case Writing => false
    case Renaming(todo, _) =>
      && (forall i | 0 <= i < |p.temps| :: p.temps[i].name !in todo ==> p.temps[i].name !in f)
      && todo <= ManifestOf(p).renames.Keys
      && (LockFree(p, ph) ==> SegsAre(f, OldLayout(p, act)))
    case Removing(todo, _) => AllRenamed(p, f) && (forall x | x in ManifestOf(p).removals && x in f :: x in todo)
                              && todo <= ManifestOf(p).removals
    case Discarding(todo) => AllRenamed(p, f) && AllRemoved(p, f) && Temps(f) <= todo && forall x | x in todo :: x.IsTemp()
    case Clearing(rec) => AllRenamed(p, f) && AllRemoved(p, f) && (rec ==> Temps(f) == {})
    case Done(_) => false
    case Down => true
  }

  /** With no manifest on disk the segments are one of the two layouts. */
  predicate Quiet(f: Files, ph: Phase, committed: bool) {
    match ph
    case Writing => !committed
    case Discarding(todo) => Temps(f) <= todo && forall x | x in todo :: x.IsTemp()
    case Done(rec) => rec ==> Temps(f) == {}
    case Down => true
    case _ => false
  }

  predicate Inv(p: Plan, s: State)
    requires PlanOk(p)
  {
    var f := s.disk.files;
    if s.disk.manifest.None? then
      Quiet(f, s.phase, s.committed) && SegsAre(f, if s.committed then NewLayout(p, s.act) else OldLayout(p, s.act))
    else
      s.committed && s.disk.manifest.value == ManifestOf(p) && Rolling(p, f, s.act) && Progress(p, f, s.act, s.phase)
  }

  lemma CommitKeepsInv(p: Plan, s: State, t: State)
    requires PlanOk(p) && Inv(p, s) && s.phase.Writing? && CommitStep(p, s, t)
    ensures Inv(p, t)
  {
    var segs := OldLayout(p, s.act);
    var f := s.disk.files;
    assert segs[|p.sealed|] == Segment(p.active, s.act);
    forall x | x in f && x.Seg? && x.n != p.active ensures exists s | s in p.sealed :: s.num == x.n {
      var i :| 0 <= i < |segs| && segs[i].num == x.n;
      assert p.sealed[i] in p.sealed;
    }
  }

  lemma RenameRolls(p: Plan, f: Files, act: seq<Entry>, k: nat)
    requires PlanOk(p) && Rolling(p, f, act) && k < |p.temps| && p.temps[k].name in f
    ensures Rolling(p, RenameFile(f, p.temps[k].name, Seg(k + 1)), act)
  {
    var g := RenameFile(f, p.temps[k].name, Seg(k + 1));
    forall i | 0 <= i < |p.temps|
      ensures if p.temps[i].name in g then g[p.temps[i].name] == p.temps[i].entries
              else Seg(i + 1) in g && g[Seg(i + 1)] == p.temps[i].entries
    {
      assert i != k ==> p.temps[i].name != p.temps[k].name;
    }
  }

  lemma RenameKeepsInv(p: Plan, s: State, x: Name)
    requires PlanOk(p) && Inv(p, s) && s.phase.Renaming? && x in s.phase.todo
    ensures Inv(p, Renamed(s, x))
  {
    hide Rolling, SegsAre, OldLayout, NewLayout;
    var m := ManifestOf(p);
    var k :| 0 <= k < |p.temps| && p.temps[k].name == x;
    assert m.renames[x] == Seg(k + 1);
    if x in s.disk.files { RenameRolls(p, s.disk.files, s.act, k); }
  }

  lemma RemoveKeepsInv(p: Plan, s: State, x: Name)
    requires PlanOk(p) && Inv(p, s) && (s.phase.Removing? || s.phase.Discarding?) && x in s.phase.todo
    ensures Inv(p, Removed(s, x))
  {
  }

  lemma FinishedIsNew(p: Plan, f: Files, act: seq<Entry>)
    requires PlanOk(p) && Rolling(p, f, act) && AllRenamed(p, f) && AllRemoved(p, f)
    ensures SegsAre(f, NewLayout(p, act))
  {
    var segs := NewLayout(p, act);
    assert segs[|p.temps|] == Segment(p.active, act);
    forall i | 0 <= i < |segs| ensures Seg(segs[i].num) in f && f[Seg(segs[i].num)] == segs[i].entries {
      if i < |p.temps| { assert p.temps[i].name !in f; }
    }
    forall x | x in f && x.Seg? ensures Numbered(segs, x.n) {
      if x.n == p.active {
        assert segs[|p.temps|].num == x.n;
      } else if 1 <= x.n <= |p.temps| {
        assert segs[x.n - 1].num == x.n;
      }
    }
  }

  lemma WriteKeepsInv(p: Plan, s: State, t: State)
    requires PlanOk(p) && Inv(p, s) && s.phase.Writing? && WriteStep(p, s, t)
    ensures Inv(p, t)
  {
    var a, b := OldLayout(p, s.act), OldLayout(p, t.act);
    forall i | 0 <= i < |b| ensures Seg(b[i].num) in t.disk.files && t.disk.files[Seg(b[i].num)] == b[i].entries {
      assert a[i].num == b[i].num && Seg(a[i].num) in s.disk.files;
      if i < |p.sealed| { assert p.sealed[i] in p.sealed; }
    }
    forall x | x in t.disk.files && x.Seg? ensures Numbered(b, x.n) {
      var i :| 0 <= i < |a| && a[i].num == x.n;
      assert b[i].num == x.n;
    }
  }

  /** The active segment's file follows its appends in either layout and between them. */
  lemma AppendInLayout(p: Plan, f: Files, act: seq<Entry>, more: seq<Entry>)
    requires PlanOk(p)
    ensures SegsAre(f, OldLayout(p, act)) ==> SegsAre(f[Seg(p.active) := more], OldLayout(p, more))
    ensures SegsAre(f, NewLayout(p, act)) ==> SegsAre(f[Seg(p.active) := more], NewLayout(p, more))
    ensures Rolling(p, f, act) ==> Rolling(p, f[Seg(p.active) := more], more)
  {
    LastGrows(f, p.sealed, p.active, act, more);
    LastGrows(f, Compacted(p.temps), p.active, act, more);
  }

  lemma LastGrows(f: Files, init: seq<Segment>, n: nat, act: seq<Entry>, more: seq<Entry>)
    requires forall s | s in init :: s.num < n
    ensures SegsAre(f, init + [Segment(n, act)]) ==> SegsAre(f[Seg(n) := more], init + [Segment(n, more)])
  {
    var a, b := init + [Segment(n, act)], init + [Segment(n, more)];
    var g := f[Seg(n) := more];
    if SegsAre(f, a) {
      forall i | 0 <= i < |b| ensures Seg(b[i].num) in g && g[Seg(b[i].num)] == b[i].entries {
        if i < |init| { assert init[i] in init && a[i] == b[i]; }
      }
      forall x | x in g && x.Seg? ensures Numbered(b, x.n) {
        if x.n == n {
          assert b[|init|].num == n;
        } else {
          var i :| 0 <= i < |a| && a[i].num == x.n;
          assert b[i].num == x.n;
        }
      }
    }
  }

  lemma AppendKeepsInv(p: Plan, s: State, t: State)
    requires PlanOk(p) && Inv(p, s) && LockFree(p, s.phase) && AppendStep(p, s, t)
    ensures Inv(p, t)
  {
    hide SegsAre, Rolling, OldLayout, NewLayout;
    AppendInLayout(p, s.disk.files, s.act, t.act);
    assert Temps(t.disk.files) == Temps(s.disk.files);
    assert forall x: Name | x.IsTemp() || x in ManifestOf(p).removals :: x in t.disk.files <==> x in s.disk.files;
  }

  lemma NextKeepsInv(p: Plan, s: State, t: State)
    requires PlanOk(p) && Inv(p, s) && Next(p, s, t)
    ensures Inv(p, t)
  {
    if t == s.(phase := Down) {
    } else if LockFree(p, s.phase) && AppendStep(p, s, t) {
      AppendKeepsInv(p, s, t);
    } else {
      match s.phase
      case Writing =>
        if WriteStep(p, s, t) { WriteKeepsInv(p, s, t); } else { CommitKeepsInv(p, s, t); }
      case Renaming(todo, rec) =>
        if todo != {} {
          var x :| x in todo && t == Renamed(s, x);
          RenameKeepsInv(p, s, x);
        }
      case Removing(todo, rec) =>
        if todo != {} {
          var x :| x in todo && t == Removed(s, x);
          RemoveKeepsInv(p, s, x);
        }
      case Discarding(todo) =>
        if todo != {} {
          var x :| x in todo && t == Removed(s, x);
          RemoveKeepsInv(p, s, x);
        }
      case Clearing(rec) => FinishedIsNew(p, s.disk.files, s.act);
      case Done(_) =>
      case Down =>
    }
  }

  lemma InitIsInv(p: Plan, s: State)
    requires PlanOk(p) && Init(p, s)
    ensures Inv(p, s)
  {
    hide FilesOf, SegsAre, OldLayout;
    LayoutsAscend(p, s.act);
    FilesOfAre(OldLayout(p, s.act));
  }

  lemma {:induction false} RunKeepsInv(p: Plan, run: seq<State>)
    requires PlanOk(p) && IsRun(p, run) && Init(p, run[0])
    ensures Inv(p, run[|run| - 1])
    decreases |run|
  {
    hide Next, Inv, Init;
    if |run| > 1 {
      var init := run[..|run| - 1];
      RunKeepsInv(p, init);
      NextKeepsInv(p, run[|run| - 2], run[|run| - 1]);
    } else {
      InitIsInv(p, run[0]);
    }
  }

  lemma ExactFiles(f: Files, segs: seq<Segment>)
    requires Ascending(segs) && SegsAre(f, segs) && Temps(f) == {}
    ensures f == FilesOf(segs)
  {
    var g := FilesOf(segs);
    forall x | x in f ensures x.Seg? {
      assert x !in Temps(f);
    }
    SameSegs(f, g, segs);
    SameSegs(g, f, segs);
  }

  lemma SameSegs(f: Files, g: Files, segs: seq<Segment>)
    requires SegsAre(f, segs) && SegsAre(g, segs) && forall x | x in f :: x.Seg?
    ensures forall x | x in f :: x in g && f[x] == g[x]
  {
  }

  /** Crash safety. Over every run of a pass and of any number of recoveries, each cut
      short by a crash at any point or not, a recovery that completes leaves no manifest
      and exactly the files of one layout: the old one if the manifest was never written,
      the new one otherwise. */
  lemma CrashSafety(p: Plan, run: seq<State>)
    requires PlanOk(p) && IsRun(p, run) && Init(p, run[0])
    requires run[|run| - 1].phase == Done(true)
    ensures var s := run[|run| - 1];
            Ascending(OldLayout(p, s.act)) && Ascending(NewLayout(p, s.act)) &&
            s.disk == Disk(FilesOf(if s.committed then NewLayout(p, s.act) else OldLayout(p, s.act)), None)
  {
    RunKeepsInv(p, run);
    var s := run[|run| - 1];
    LayoutsAscend(p, s.act);
    var segs := if s.committed then NewLayout(p, s.act) else OldLayout(p, s.act);
    ExactFiles(s.disk.files, segs);
  }

  /** The process is down or recovering at open. */
  predicate Recovering(ph: Phase) {
    match ph
    case Writing => false
    case Renaming(_, rec) => rec
    case Removing(_, rec) => rec
    case Discarding(_) => true
    case Clearing(rec) => rec
    case Done(rec) => rec
    case Down => true
  }

  /** Recovery, however often it is cut short, never changes the active segment's content or
      the decision. */
  lemma {:induction false} Settled(p: Plan, run: seq<State>, i: nat, j: nat)
    requires DistinctTemps(p.temps) && IsRun(p, run) && i <= j < |run| && Recovering(run[i].phase)
    ensures Recovering(run[j].phase) && run[j].act == run[i].act && run[j].committed == run[i].committed
  {
    if i < j {
      Settled(p, run, i, j - 1);
      assert Next(p, run[j - 1], run[j]);
    }
  }

  /** Once a recovery has completed, running recovery again changes nothing, however often
      it is cut short. */
  lemma RecoveryIsIdempotent(p: Plan, run: seq<State>, i: nat)
    requires PlanOk(p) && IsRun(p, run) && Init(p, run[0]) && i < |run|
    requires run[i].phase == Done(true) && run[|run| - 1].phase == Done(true)
    ensures run[|run| - 1].disk == run[i].disk
  {
    hide Next, Init, FilesOf, OldLayout, NewLayout;
    Settled(p, run, i, |run| - 1);
    CrashSafety(p, run[..i + 1]);
    CrashSafety(p, run);
  }

  // ---- Copying the directory while a pass runs --------------------------------------

  /** The segments the collection has in memory: the old ones until the swap, which holds the
      lock, is over. */
  function InMemory(p: Plan, s: State): seq<Segment> {
    if s.committed && !s.phase.Renaming? then NewLayout(p, s.act) else OldLayout(p, s.act)
  }

  /** What a snapshot copies: no temps, and no manifest. */
  function Copied(f: Files): Files {
    map x | x in f && x.Seg? :: f[x]
  }

  lemma CopiedLayout(f: Files, segs: seq<Segment>)
    requires Ascending(segs) && SegsAre(f, segs)
    ensures Copied(f) == FilesOf(segs)
  {
    assert SegsAre(Copied(f), segs);
    ExactFiles(Copied(f), segs);
  }

  /** A snapshot copied under the lock is never torn by a pass: whenever the lock is free, the
      segment files alone are those of the segments in memory, whatever temps and manifest
      lie beside them. */
  lemma CopyIsWhole(p: Plan, run: seq<State>)
    requires PlanOk(p) && IsRun(p, run) && Init(p, run[0]) && LockFree(p, run[|run| - 1].phase)
    ensures var s := run[|run| - 1];
            && Ascending(InMemory(p, s)) && SegsAre(s.disk.files, InMemory(p, s))
            && Copied(s.disk.files) == FilesOf(InMemory(p, s))
  {
    hide SegsAre, Rolling, FilesOf;
    RunKeepsInv(p, run);
    var s := run[|run| - 1];
    LayoutsAscend(p, s.act);
    if s.phase.Clearing? { FinishedIsNew(p, s.disk.files, s.act); }
    CopiedLayout(s.disk.files, InMemory(p, s));
  }

  /** The entries of the temp segments, in order. */
  function Contents(temps: seq<TempSeg>): seq<Entry> {
    Entries(Compacted(temps))
  }

  /** The live view an open of the directory rebuilds from its segments. */
  ghost function Found(f: Files): View {
    SegNumsIn(f);
    Replay(Entries(Load(f, SegNums(f))))
  }

  lemma FoundInLayout(f: Files, segs: seq<Segment>)
    requires SegsAre(f, segs) && NameOrdered(segs)
    ensures Found(f) == Replay(Entries(segs))
  {
    hide FilesOf, SegsAre, Replay, Entries, NameOrdered;
    OpenFindsIff(f, segs);
  }

  lemma LayoutEntries(p: Plan, act: seq<Entry>)
    ensures Entries(OldLayout(p, act)) == Entries(p.sealed) + act
    ensures Entries(NewLayout(p, act)) == Contents(p.temps) + act
  {
  }

  /** `found` is the view `was`, less the records a committed pass reclaims; data differs at
      most in how a re-encrypting pass sealed it. */
  ghost predicate SameRecords(p: Plan, s: State, now: int, resealed: bool, found: View, was: View) {
    && (forall id :: id in found <==> id in was && !(s.committed && Reclaimed(Entries(p.sealed), s.act, now, id)))
    && (forall id | id in found && id in was :: SameButSealed(was[id], found[id]))
    && (!s.committed || !resealed ==> forall id | id in found && id in was :: found[id] == was[id])
  }

  /** The layout a run has decided for. */
  function LayoutOf(p: Plan, s: State): seq<Segment> {
    if s.committed then NewLayout(p, s.act) else OldLayout(p, s.act)
  }

  lemma FoundInDecided(p: Plan, s: State)
    requires PlanOk(p) && NameOrdered(LayoutOf(p, s))
    ensures Ascending(LayoutOf(p, s))
    ensures Found(FilesOf(LayoutOf(p, s))) == Replay((if s.committed then Contents(p.temps) else Entries(p.sealed)) + s.act)
  {
    hide NameOrdered, SegsAre, FilesOf, Replay, Entries, Found, OldLayout, NewLayout;
    LayoutsAscend(p, s.act);
    FilesOfAre(LayoutOf(p, s));
    FoundInLayout(FilesOf(LayoutOf(p, s)), LayoutOf(p, s));
    LayoutEntries(p, s.act);
  }

  lemma CompactedView(p: Plan, s: State, now: int, out: seq<Entry>)
    requires Survivors(out, Entries(p.sealed), now) && Resealed(out, Contents(p.temps)) && s.committed
    ensures SameRecords(p, s, now, out != Contents(p.temps), Replay(Contents(p.temps) + s.act), Replay(Entries(p.sealed) + s.act))
  {
    CompactionPreserves(Entries(p.sealed), out, Contents(p.temps), s.act, now);
  }

  lemma UntouchedView(p: Plan, s: State, now: int, resealed: bool, v: View)
    requires !s.committed
    ensures SameRecords(p, s, now, resealed, v, v)
  {
  }

  /** A crash loses nothing: a completed recovery leaves the files of a layout; an open finds
      it whenever the file names sort as the segments are numbered, and then its replay is
      the live view from before the pass, save for the records compaction reclaims. `out` is
      what the pass resolved, before any re-encryption. */
  lemma CrashKeepsView(p: Plan, run: seq<State>, now: int, out: seq<Entry>)
    requires PlanOk(p) && IsRun(p, run) && Init(p, run[0])
    requires run[|run| - 1].phase == Done(true)
    requires Survivors(out, Entries(p.sealed), now) && Resealed(out, Contents(p.temps))
    ensures var s := run[|run| - 1];
            var f := s.disk.files;
            && SegsAre(f, LayoutOf(p, s))
            && (forall n | n in SegNums(f) :: Seg(n) in f)
            && (Load(f, SegNums(f)) == LayoutOf(p, s) <==> NameOrdered(LayoutOf(p, s)))
            && (NameOrdered(LayoutOf(p, s)) ==>
                  SameRecords(p, s, now, out != Contents(p.temps), Found(f), Replay(Entries(p.sealed) + s.act)))
  {
    hide SameRecords, Survivors, Resealed, Next, Init, Found, Replay, Entries, Contents, OldLayout, NewLayout, PlanOk,
         NameOrdered, SegsAre, FilesOf, Load, SegNums;
    CrashSafety(p, run);
    var s := run[|run| - 1];
    FilesOfAre(LayoutOf(p, s));
    OpenFindsIff(s.disk.files, LayoutOf(p, s));
    if NameOrdered(LayoutOf(p, s)) {
      FoundInDecided(p, s);
      if s.committed {
        CompactedView(p, s, now, out);
      } else {
        UntouchedView(p, s, now, out != Contents(p.temps), Found(s.disk.files));
      }
    }
  }

  /** The files after the pass's renames, applied in order, and its removals. */
  function AfterRenames(f: Files, temps: seq<TempSeg>): Files {
    if temps == [] then f else
    var k := |temps| - 1;
    RenameFile(AfterRenames(f, temps[..k]), temps[k].name, Seg(k + 1))
  }

  lemma {:induction false} RenamesLand(f: Files, temps: seq<TempSeg>, n: nat)
    requires DistinctTemps(temps)
    requires forall i | 0 <= i < |temps| :: temps[i].name in f && f[temps[i].name] == temps[i].entries
    ensures forall x | x in f && x.IsTemp() && (forall i | 0 <= i < |temps| :: temps[i].name != x) ::
              x in AfterRenames(f, temps) && AfterRenames(f, temps)[x] == f[x]
    ensures 1 <= n <= |temps| ==> Seg(n) in AfterRenames(f, temps) && AfterRenames(f, temps)[Seg(n)] == temps[n - 1].entries
    ensures !(1 <= n <= |temps|) ==>
              (Seg(n) in AfterRenames(f, temps) <==> Seg(n) in f) && (Seg(n) in f ==> AfterRenames(f, temps)[Seg(n)] == f[Seg(n)])
  {
    if temps != [] {
      var k := |temps| - 1;
      RenamesLand(f, temps[..k], n);
      var g := AfterRenames(f, temps[..k]);
      assert temps[k].name in g && g[temps[k].name] == temps[k].entries;
    }
  }

  /** The swap keeps the active segment exactly when it stays clear of its name: with as
      many new segments as the active's number or more, one of them is renamed over it. */
  lemma ActiveSurvivesIff(f: Files, temps: seq<TempSeg>, active: nat)
    requires DistinctTemps(temps) && active >= 1 && Seg(active) in f
    requires forall i | 0 <= i < |temps| :: temps[i].name in f && f[temps[i].name] == temps[i].entries
    ensures Seg(active) in AfterRenames(f, temps)
    ensures AfterRenames(f, temps)[Seg(active)] == f[Seg(active)] <==>
            |temps| < active || temps[active - 1].entries == f[Seg(active)]
  {
    RenamesLand(f, temps, active);
  }

  /** One oversized sealed segment that splits in two is enough to lose the active one. */
  lemma ActiveLost(a: Entry, b: Entry, c: Entry)
    requires a.id != b.id && c.id != a.id && c.id != b.id
    ensures var temps := [TempSeg(Temp(1), [a]), TempSeg(Temp(2), [b])];
            var f := map[Seg(1) := [a, b], Seg(2) := [c], Temp(1) := [a], Temp(2) := [b]];
            Seg(2) in AfterRenames(f, temps) && AfterRenames(f, temps)[Seg(2)] != [c]
  {
    var temps := [TempSeg(Temp(1), [a]), TempSeg(Temp(2), [b])];
    var f := map[Seg(1) := [a, b], Seg(2) := [c], Temp(1) := [a], Temp(2) := [b]];
    RenamesLand(f, temps, 2);
    assert [b][0] != [c][0];
  }
}
