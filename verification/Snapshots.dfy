/** A snapshot of all collections of a leader taken while they go on committing, and a follower
    bootstrapped from it. */
module Snapshots {
  import opened Common
  import opened Log
  import opened Compaction
  import opened Store
  import opened Swap
  import opened Writes
  import opened Passes
  import opened Steps
  import opened Recovery
  import opened Replication
  import opened Follower

  // ---- The log of one collection within the log of the node ----------------------------

  lemma OfSnoc(log: seq<ReplicationEntry>, re: ReplicationEntry, c: string)
    ensures Of(log + [re], c) == Of(log, c) + (if re.collection == c then [re.entry] else [])
  {
    assert (log + [re])[..|log|] == log;
  }

  lemma {:induction false} OfPrefix(log: seq<ReplicationEntry>, n: nat, c: string)
    requires n <= |log|
    ensures Of(log[..n], c) <= Of(log, c)
    ensures n < |log| && log[n].collection == c ==> Of(log[..n], c) + [log[n].entry] <= Of(log, c)
    decreases |log| - n
  {
    if n == |log| {
      TakeAll(log);
    } else {
      TakeSnoc(log, n);
      OfSnoc(log[..n], log[n], c);
      OfPrefix(log, n + 1, c);
    }
  }

  lemma {:induction false} OfOthers(log: seq<ReplicationEntry>, c: string)
    requires forall re | re in log :: re.collection != c
    ensures Of(log, c) == []
  {
    if log != [] {
      var k := |log| - 1;
      assert log[k] in log;
      OfOthers(log[..k], c);
    }
  }

  /** A leader whose collections each log well-formed entries has committed a sound log. */
  lemma LogIsCommitted(log: seq<ReplicationEntry>)
    requires Consecutive(log, 0) && forall c: string :: WellFormed(Of(log, c))
    ensures Committed(log)
  {
    forall n | 0 <= n < |log| ensures Sound(Leader(log, n, log[n].collection), log[n].entry) {
      var c, e := log[n].collection, log[n].entry;
      var some := Of(log[..n], c) + [e];
      OfPrefix(log, n, c);
      assert WellFormed(Of(log, c));
      var all := Of(log, c);
      assert some + all[|some|..] == all;
      WellFormedPrefix(some, all[|some|..]);
    }
  }

  // ---- The wire ---------------------------------------------------------------------------

  /** An entry as a replication record carries it: without the policy epoch. */
  function Wire(e: Entry): Entry {
    e.(epoch := 0)
  }

  function WireView(v: View): View {
    map id | id in v :: Wire(v[id])
  }

  function WireLog(log: seq<ReplicationEntry>): seq<ReplicationEntry> {
    seq(|log|, i requires 0 <= i < |log| => log[i].(entry := Wire(log[i].entry)))
  }

  function WireDb(db: Db): Db {
    map c | c in db :: WireView(db[c])
  }

  /** `w` has the records of `v`, each with its id, operation, time, revision, data and deadline;
      only the policy epoch may differ. */
  ghost predicate SameButEpochs(v: View, w: View) {
    && (forall id :: id in w <==> id in v)
    && forall id | id in v && id in w ::
         && w[id].id == v[id].id && w[id].op == v[id].op && w[id].ts == v[id].ts
         && w[id].rev == v[id].rev && w[id].data == v[id].data && w[id].expiresAt == v[id].expiresAt
  }

  lemma WireCarries(v: View)
    ensures SameButEpochs(v, WireView(v))
  {
  }

  /** Applying a record decides by id, operation and revision, so a follower's records are
      what they would be had the snapshot come over the wire too. */
  lemma WireCommutes(v: View, e: Entry)
    ensures WireView(Replicate(v, e)) == Replicate(WireView(v), Wire(e))
    ensures WireView(Apply(v, e)) == Apply(WireView(v), Wire(e))
    ensures Sound(v, e) <==> Sound(WireView(v), Wire(e))
  {
  }

  lemma {:induction false} WireLeader(log: seq<ReplicationEntry>, n: nat, c: string)
    requires n <= |log|
    ensures Leader(WireLog(log), n, c) == WireView(Leader(log, n, c))
  {
    if n == 0 {
      assert log[..0] == [] && WireLog(log)[..0] == [];
    } else {
      WireLeader(log, n - 1, c);
      LeaderStep(log, n - 1, c);
      LeaderStep(WireLog(log), n - 1, c);
      WireCommutes(Leader(log, n - 1, c), log[n - 1].entry);
    }
  }

  lemma WireCommitted(log: seq<ReplicationEntry>)
    requires Committed(log)
    ensures Committed(WireLog(log))
  {
    hide Leader;
    var ws := WireLog(log);
    forall n | 0 <= n < |ws| ensures Sound(Leader(ws, n, ws[n].collection), ws[n].entry) {
      WireLeader(log, n, log[n].collection);
      WireCommutes(Leader(log, n, log[n].collection), log[n].entry);
    }
  }

  lemma WireSnapshot(db: Db, log: seq<ReplicationEntry>, w: nat, hi: nat, at: string -> nat)
    requires Snapshot(db, log, w, hi, at)
    ensures Snapshot(WireDb(db), WireLog(log), w, hi, at)
  {
    hide Leader;
    forall c: string ensures ViewOf(WireDb(db), c) == Leader(WireLog(log), at(c), c) {
      assert w <= at(c) <= hi && ViewOf(db, c) == Leader(log, at(c), c);
      WireLeader(log, at(c), c);
      assert WireView(map[]) == map[];
    }
  }

  // ---- All collections: a snapshot taken while they go on committing ---------------------

  /** A collection of the node: its configuration and its state. */
  datatype Cell = Cell(cfg: Config, now: Snap)

  function Segs(x: Cell): seq<Segment> {
    x.now.sealed + [x.now.active]
  }

  /** A pass under way never shows in a copy: whenever its lock is free, the segment files alone are
      those of the segments in memory, and these replay to what the collection has published,
      before the new segments are in place as after. */
  lemma PassIsCell(s: Snap, run: seq<Swap.State>)
    requires Leading(s) && s.pass.Some? && !Breaks(s) && DistinctTemps(s.pass.value.temps)
    requires var p := Plan(s.sealed, s.active.num, s.pass.value.temps);
             && PlanOk(p) && IsRun(p, run) && Init(p, run[0])
             && LockFree(p, run[|run| - 1].phase) && run[|run| - 1].act == s.active.entries
    ensures var p, t := Plan(s.sealed, s.active.num, s.pass.value.temps), run[|run| - 1];
            && Ascending(InMemory(p, t)) && Copied(t.disk.files) == FilesOf(InMemory(p, t))
            && Replay(Entries(InMemory(p, t))) == Replay(s.published)
  {
    hide Next, Init, PlanOk, FilesOf, SegsAre, Reservations, WellFormed, IdsWithin, OldLayout, NewLayout, Contents, Survivors,
         LockFree, Entries, Replay, ReclaimedIds, Ascending, NoDeadlines, OpsShip;
    var p, t := Plan(s.sealed, s.active.num, s.pass.value.temps), run[|run| - 1];
    CopyIsWhole(p, run);
    LayoutEntries(p, t.act);
    CompactKeepsTie(s);
    PassSaysSame(Entries(s.sealed), s.out, s.active.entries, s.pass.value.now);
  }

  /** Where nothing is reclaimed, the survivors say what the sealed segments did. */
  lemma PassSaysSame(past: seq<Entry>, out: seq<Entry>, act: seq<Entry>, now: int)
    requires Survivors(out, past, now) && ReclaimedIds(past, act, now) == {}
    ensures Replay(out + act) == Replay(past + act)
  {
    CompactionPreserves(past, out, out, act, now);
    var v, w := Replay(past + act), Replay(out + act);
    forall id ensures !Reclaimed(past, act, now, id) {
      assert id !in ReclaimedIds(past, act, now);
    }
    assert v.Keys == w.Keys;
  }

  /** A leader: its replication log and its collections. */
  datatype Node = Node(log: seq<ReplicationEntry>, cells: map<string, Cell>)

  ghost predicate NodeOk(x: Node) {
    && Consecutive(x.log, 0) && (forall re | re in x.log :: re.collection in x.cells)
    && forall n | n in x.cells :: Leading(x.cells[n].now) && Of(x.log, n) == x.cells[n].now.published
  }

  /** The log once collection n has published these entries. */
  function Shipped(log: seq<ReplicationEntry>, n: string, es: seq<Entry>): (r: seq<ReplicationEntry>)
    ensures |r| == |log| + |es| && log <= r
  {
    log + seq(|es|, i requires 0 <= i < |es| => ReplicationEntry(|log| + 1 + i, n, es[i]))
  }

  lemma ShippedSnoc(log: seq<ReplicationEntry>, n: string, es: seq<Entry>, e: Entry)
    ensures Shipped(log, n, es + [e]) == Shipped(log, n, es) + [ReplicationEntry(|log| + |es| + 1, n, e)]
    ensures Shipped(log, n, []) == log
  {
  }

  lemma {:induction false} ShippedOf(log: seq<ReplicationEntry>, n: string, es: seq<Entry>, m: string)
    ensures Of(Shipped(log, n, es), m) == Of(log, m) + (if m == n then es else [])
    decreases |es|
  {
    hide Of, Shipped;
    if es == [] {
      ShippedSnoc(log, n, [], Tombstone(0, 0));
    } else {
      var init, e := es[..|es| - 1], es[|es| - 1];
      ShippedOf(log, n, init, m);
      ShippedSnoc(log, n, init, e);
      OfSnoc(Shipped(log, n, init), ReplicationEntry(|log| + |es|, n, e), m);
      assert es == init + [e];
    }
  }

  /** What a step published. */
  function Ship(s: Snap, t: Snap): seq<Entry> {
    if s.published <= t.published then t.published[|s.published|..] else []
  }

  /** Which collection took which step, and what the call answered. */
  datatype Label = Label(collection: string, a: Steps.Action, answer: bool)

  /** One collection takes a step and publishes what it committed; the others are as they were. */
  ghost predicate Moves(x: Node, y: Node, l: Label) {
    var n := l.collection;
    && n in x.cells && n in y.cells && y.cells[n].cfg == x.cells[n].cfg && Ships(l.a)
    && Ran(x.cells[n].cfg, l.a, x.cells[n].now, y.cells[n].now, l.answer)
    && y == Node(Shipped(x.log, n, Ship(x.cells[n].now, y.cells[n].now)), x.cells[n := y.cells[n]])
  }

  lemma MoveKeepsNode(x: Node, y: Node, l: Label)
    requires NodeOk(x) && Moves(x, y, l)
    ensures NodeOk(y) && x.log <= y.log && x.cells.Keys == y.cells.Keys
  {
    hide Leading, Of, Ran, Ships;
    var n := l.collection;
    var s, t := x.cells[n].now, y.cells[n].now;
    RanLeads(x.cells[n].cfg, l.a, s, t, l.answer);
    RanGrows(x.cells[n].cfg, l.a, s, t, l.answer);
    forall m | m in y.cells ensures Leading(y.cells[m].now) && Of(y.log, m) == y.cells[m].now.published {
      ShippedOf(x.log, n, Ship(s, t), m);
    }
  }

  ghost predicate NodeRun(run: seq<Node>, labels: seq<Label>) {
    |run| == |labels| + 1 && NodeOk(run[0]) && forall i | 0 <= i < |labels| :: Moves(run[i], run[i + 1], labels[i])
  }

  lemma {:induction false} RunGrows(run: seq<Node>, labels: seq<Label>, i: nat, j: nat)
    requires NodeRun(run, labels) && i <= j < |run|
    ensures run[i].log <= run[j].log && run[i].cells.Keys == run[j].cells.Keys && NodeOk(run[i]) && NodeOk(run[j])
    decreases j, j - i
  {
    hide NodeOk, Moves;
    if i < j {
      RunGrows(run, labels, i, j - 1);
      assert Moves(run[j - 1], run[j - 1 + 1], labels[j - 1]);
      MoveKeepsNode(run[j - 1], run[j], labels[j - 1]);
    } else if i > 0 {
      RunGrows(run, labels, i - 1, i - 1);
      assert Moves(run[i - 1], run[i - 1 + 1], labels[i - 1]);
      MoveKeepsNode(run[i - 1], run[i], labels[i - 1]);
    }
  }

  lemma RunSnoc(run: seq<Node>, labels: seq<Label>, y: Node, l: Label)
    requires NodeRun(run, labels) && Moves(run[|labels|], y, l)
    ensures NodeRun(run + [y], labels + [l])
  {
    hide NodeOk, Moves;
    var r, ls := run + [y], labels + [l];
    forall i | 0 <= i < |ls| ensures Moves(r[i], r[i + 1], ls[i]) {
      if i < |labels| { assert Moves(run[i], run[i + 1], labels[i]); }
    }
  }

  /** The archive holds for each collection the segment files of the point of the run where its
      turn came. */
  ghost predicate CopiedAt(archive: map<string, Files>, run: seq<Node>, pos: string -> nat) {
    && run != [] && archive.Keys == run[0].cells.Keys
    && forall c | c in archive :: pos(c) < |run| && c in run[pos(c)].cells && SegsAre(archive[c], Segs(run[pos(c)].cells[c]))
  }

  /** What these files replay to is the collection's state in the log at that point. */
  lemma CopyOfCell(x: Node, c: string)
    requires NodeOk(x) && c in x.cells
    ensures Replay(Entries(Segs(x.cells[c]))) == Leader(x.log, |x.log|, c)
  {
    hide WellFormed, Reservations, Entries, Replay, Of;
    var k := x.cells[c];
    EntriesSnoc(k.now.sealed, k.now.active);
    TakeAll(x.log);
  }

  lemma NoSuchCollection(x: Node, c: string)
    requires NodeOk(x) && c !in x.cells
    ensures Leader(x.log, |x.log|, c) == map[]
  {
    OfOthers(x.log, c);
    TakeAll(x.log);
  }

  /** Each collection of `db` is what its segments said at that point. */
  ghost predicate RestoredAt(db: Db, run: seq<Node>, pos: string -> nat) {
    && run != [] && db.Keys == run[0].cells.Keys
    && forall c | c in db :: pos(c) < |run| && c in run[pos(c)].cells && db[c] == Replay(Entries(Segs(run[pos(c)].cells[c])))
  }

  /** SnapshotTo: whatever commits between the copies, the archive holds each collection as the
      log had it at some point between the watermark and the end. */
  lemma SnapshotOfRun(run: seq<Node>, labels: seq<Label>, start: nat, pos: string -> nat, db: Db)
    requires NodeRun(run, labels) && start < |run| && (forall c :: start <= pos(c) < |run|) && RestoredAt(db, run, pos)
    ensures Snapshot(db, run[|run| - 1].log, |run[start].log|, |run[|run| - 1].log|, c => |run[pos(c)].log|)
  {
    hide NodeOk, Leader, NodeRun, Segs;
    var last := run[|run| - 1];
    RunGrows(run, labels, start, |run| - 1);
    forall c: string
      ensures |run[start].log| <= |run[pos(c)].log| <= |last.log|
      ensures ViewOf(db, c) == Leader(last.log, |run[pos(c)].log|, c)
    {
      var x := run[pos(c)];
      RunGrows(run, labels, 0, pos(c));
      RunGrows(run, labels, start, pos(c));
      RunGrows(run, labels, pos(c), |run| - 1);
      LeaderOfPrefix(x.log, last.log, c);
      if c in x.cells { CopyOfCell(x, c); } else { NoSuchCollection(x, c); }
    }
  }

  lemma LeaderOfPrefix(some: seq<ReplicationEntry>, all: seq<ReplicationEntry>, c: string)
    requires some <= all
    ensures Leader(all, |some|, c) == Leader(some, |some|, c)
  {
    assert all[..|some|] == some == some[..|some|];
  }

  lemma RunIsCommitted(x: Node)
    requires NodeOk(x)
    ensures Committed(x.log)
  {
    hide WellFormed, Reservations;
    forall c: string ensures WellFormed(Of(x.log, c)) {
      if c !in x.cells {
        OfOthers(x.log, c);
        NothingWellFormed();
      }
    }
    LogIsCommitted(x.log);
  }

  lemma NothingWellFormed()
    ensures WellFormed([])
  {
  }

  /** A snapshot of a leader's run, in the form records have on the wire, starts a follower. */
  lemma BootstrapIsSnapshot(run: seq<Node>, labels: seq<Label>, start: nat, pos: string -> nat, db: Db)
    requires NodeRun(run, labels) && start < |run| && (forall m :: start <= pos(m) < |run|) && RestoredAt(db, run, pos)
    ensures var log, w := run[|run| - 1].log, |run[start].log|;
            w <= |log| && Committed(WireLog(log)) && Snapshot(WireDb(db), WireLog(log), w, |log|, c => |run[pos(c)].log|)
  {
    hide NodeOk, Leader, NodeRun, Committed, RestoredAt;
    var log := run[|run| - 1].log;
    RunGrows(run, labels, start, |run| - 1);
    RunIsCommitted(run[|run| - 1]);
    SnapshotOfRun(run, labels, start, pos, db);
    WireCommitted(log);
    WireSnapshot(db, log, |run[start].log|, |log|, c => |run[pos(c)].log|);
  }

  /** Every record above the watermark up to the end of the run, applied in order to such a
      snapshot, brings it to what the leader holds there. */
  lemma BootstrapConverges(run: seq<Node>, labels: seq<Label>, start: nat, pos: string -> nat, db: Db, c: string)
    requires NodeRun(run, labels) && start < |run| && (forall m :: start <= pos(m) < |run|) && RestoredAt(db, run, pos)
    ensures var log, w := run[|run| - 1].log, |run[start].log|;
            && w <= |log| && ViewOf(ApplyRange(WireDb(db), WireLog(log), w, |log|), c) == WireView(Leader(log, |log|, c))
            && var mine, theirs := ViewOf(ApplyRange(WireDb(db), WireLog(log), w, |log|), c), Leader(log, |log|, c);
            forall id: nat ::
              && (id in mine <==> id in theirs)
              && (id in mine && id in theirs ==>
                    && mine[id].id == theirs[id].id && mine[id].op == theirs[id].op && mine[id].ts == theirs[id].ts
                    && mine[id].rev == theirs[id].rev && mine[id].data == theirs[id].data
                    && mine[id].expiresAt == theirs[id].expiresAt)
  {
    hide NodeRun, Leader, Committed, RestoredAt;
    var log, w := run[|run| - 1].log, |run[start].log|;
    BootstrapIsSnapshot(run, labels, start, pos, db);
    TailConverges(WireDb(db), WireLog(log), w, |log|, |log|, c => |run[pos(c)].log|, c);
    WireLeader(log, |log|, c);
    WireCarries(Leader(log, |log|, c));
  }

  /** Restoring the archive gives each collection as the run had it when its files were copied. */
  method RestoreArchive(archive: map<string, Files>, ghost run: seq<Node>, ghost pos: string -> nat) returns (db: Db)
    requires run != [] && (forall c :: pos(c) < |run|) && CopiedAt(archive, run, pos)
    requires forall c | c in archive :: NameOrdered(Segs(run[pos(c)].cells[c]))
    ensures RestoredAt(db, run, pos)
  {
    hide SegsAre, NameOrdered, Replay, Entries, Segs;
    ghost var layouts := map c | c in archive :: Segs(run[pos(c)].cells[c]);
    db := Restore(archive, layouts);
  }

  /** A follower started from the snapshot and given the rest of the log holds the leader's state. */
  method StreamRest(db: Db, watermark: nat, tail: seq<ReplicationEntry>, ghost log: seq<ReplicationEntry>,
                    ghost at: string -> nat)
    returns (f: Follower)
    requires Committed(WireLog(log)) && Snapshot(WireDb(db), WireLog(log), watermark, |log|, at)
    requires watermark + |tail| == |log| && forall i | 0 <= i < |tail| :: tail[i] == WireLog(log)[watermark + i]
    ensures fresh(f) && f.Valid(WireLog(log)) && f.applied == |log|
    ensures forall c: string :: ViewOf(f.db, c) == WireView(Leader(log, |log|, c))
    ensures forall c: string :: SameButEpochs(Leader(log, |log|, c), ViewOf(f.db, c))
  {
    hide Leader, Committed, Between, SameButEpochs, Snapshot, WireDb;
    f := new Follower(WireDb(db), watermark, WireLog(log), |log|, at);
    f.Stream(tail, watermark, WireLog(log));
    forall c: string ensures ViewOf(f.db, c) == WireView(Leader(log, |log|, c)) {
      WireLeader(log, |log|, c);
    }
    forall c: string ensures SameButEpochs(Leader(log, |log|, c), ViewOf(f.db, c)) {
      WireCarries(Leader(log, |log|, c));
    }
  }

  /** The same as the code does it: restore the archive of a leader's run, then stream. */
  method Bootstrap(archive: map<string, Files>, watermark: nat, tail: seq<ReplicationEntry>,
                   ghost run: seq<Node>, ghost labels: seq<Label>, ghost start: nat, ghost pos: string -> nat)
    returns (f: Follower)
    requires NodeRun(run, labels) && start < |run| && (forall c :: start <= pos(c) < |run|) && CopiedAt(archive, run, pos)
    requires forall c | c in archive :: NameOrdered(Segs(run[pos(c)].cells[c]))
    requires watermark == |run[start].log| && watermark + |tail| == |run[|run| - 1].log|
    requires forall i | 0 <= i < |tail| :: tail[i] == WireLog(run[|run| - 1].log)[watermark + i]
    ensures fresh(f) && f.Valid(WireLog(run[|run| - 1].log)) && f.applied == |run[|run| - 1].log|
    ensures forall c: string :: ViewOf(f.db, c) == WireView(Leader(run[|run| - 1].log, |run[|run| - 1].log|, c))
    ensures forall c: string :: SameButEpochs(Leader(run[|run| - 1].log, |run[|run| - 1].log|, c), ViewOf(f.db, c))
  {
    hide NodeRun, NameOrdered, Leader, Committed, Segs, SameButEpochs, CopiedAt, RestoredAt, Snapshot, WireDb;
    var db := RestoreArchive(archive, run, pos);
    BootstrapIsSnapshot(run, labels, start, pos, db);
    f := StreamRest(db, watermark, tail, run[|run| - 1].log, c => |run[pos(c)].log|);
  }
}
