/** Transactions over a whole run: what is staged under a handle, however the run interleaves it
    with other operations, is what its commit does, at once or not at all. */
module Transactions {
  import opened Log
  import opened Writes
  import opened Batches
  import opened Collections
  import opened Steps

  /** What a stretch of a run stages under a handle, in order. */
  function StagesOf(acts: seq<Action>, tx: nat): seq<Stage> {
    if acts == [] then [] else
    var last := acts[|acts| - 1];
    StagesOf(acts[..|acts| - 1], tx) + if last.DoStage? && last.tx == tx then [last.stage] else []
  }

  /** The operation is the one staged; an insert has been given its id. */
  predicate IsStage(op: TxOp, stage: Stage) {
    match stage
    case StageInsert(doc, ts, exp) => op.TxInsert? && op.doc == doc && op.ts == ts && op.exp == exp
    case StageUpdate(id, doc, ts) => op == TxUpdate(id, doc, ts)
    case StageDelete(id, ts) => op == TxDelete(id, ts)
  }

  predicate AreStages(ops: seq<TxOp>, stages: seq<Stage>) {
    |ops| == |stages| && forall i | 0 <= i < |ops| :: IsStage(ops[i], stages[i])
  }

  /** The action commits or rolls back the transaction. */
  predicate EndsIt(a: Action, tx: nat) {
    (a.DoCommit? || a.DoRollback?) && a.tx == tx
  }

  /** One step adds what it stages to the open transaction and nothing else. */
  lemma StepStages(cfg: Config, a: Action, s: Snap, t: Snap, answer: bool, tx: nat)
    requires Ran(cfg, a, s, t, answer) && tx in s.open && !EndsIt(a, tx)
    ensures tx in t.open
    ensures if a.DoStage? && a.tx == tx then exists op :: IsStage(op, a.stage) && t.open[tx] == s.open[tx] + [op]
            else t.open[tx] == s.open[tx]
  {
    hide Ran, TxVerdict, BatchCommits;
    if a.InTransaction() {
      RanTransaction(cfg, a, s, t, answer);
      if a.DoCommit? && answer { CommitKeepsOpen(cfg, s, a.tx); }
      if a.DoStage? && a.tx == tx { StagedLast(s, tx, a.stage); }
    } else {
      OpenStays(cfg, a, s, t, answer);
    }
  }

  lemma StagedLast(s: Snap, tx: nat, stage: Stage)
    requires tx in s.open
    ensures exists op :: IsStage(op, stage) && Staged(s, tx, stage).open[tx] == s.open[tx] + [op]
    ensures Staged(s, tx, stage).view == s.view && Staged(s, tx, stage).log == s.log
  {
    var op := match stage
      case StageInsert(doc, ts, exp) => TxInsert(s.idSeq + 1, doc, ts, exp)
      case StageUpdate(id, doc, ts) => TxUpdate(id, doc, ts)
      case StageDelete(id, ts) => TxDelete(id, ts);
    assert IsStage(op, stage) && Staged(s, tx, stage).open[tx] == s.open[tx] + [op];
  }

  lemma StagesMore(acts: seq<Action>, i: nat, n: nat, tx: nat)
    requires i <= n < |acts|
    ensures StagesOf(acts[i..n + 1], tx) ==
            StagesOf(acts[i..n], tx) + if acts[n].DoStage? && acts[n].tx == tx then [acts[n].stage] else []
  {
    assert acts[i..n + 1][..n - i] == acts[i..n];
  }

  /** While a transaction is open it holds exactly what the run staged under its handle, in order,
      whatever else the run did in between. */
  lemma {:induction false} StagedInOrder(cfg: Config, acts: seq<Action>, answers: seq<bool>, snaps: seq<Snap>, tx: nat, i: nat,
                                         n: nat)
    requires IsRunOf(cfg, acts, answers, snaps) && i <= n <= |answers|
    requires tx in snaps[i].open && snaps[i].open[tx] == [] && forall k | i <= k < n :: !EndsIt(acts[k], tx)
    ensures tx in snaps[n].open && AreStages(snaps[n].open[tx], StagesOf(acts[i..n], tx))
    decreases n
  {
    hide Ran, IsStage;
    if n > i {
      StagedInOrder(cfg, acts, answers, snaps, tx, i, n - 1);
      assert Ran(cfg, acts[n - 1], snaps[n - 1], snaps[n], answers[n - 1]);
      StepStages(cfg, acts[n - 1], snaps[n - 1], snaps[n], answers[n - 1], tx);
      StagesMore(acts, i, n - 1, tx);
    }
  }

  /** What a commit that is accepted does to the records, in plain terms; one that is refused does
      nothing to them. Either way the handle is closed. */
  lemma CommitSays(cfg: Config, s: Snap, t: Snap, answer: bool, tx: nat)
    requires Ran(cfg, DoCommit(tx), s, t, answer) && tx in s.open
    ensures tx !in t.open && if answer then TxLeaves(s.view, t.view, s.open[tx]) else t.view == s.view && t.log == s.log
  {
    hide Ran, TxVerdict, TxLeaves, TxView, TxEntries, TxHeld, Landed, Bytes;
    RanTransaction(cfg, DoCommit(tx), s, t, answer);
    BatchLeaves(s.view, s.open[tx]);
  }

  /** A transaction from begin to commit, at any place in any run: the commit leaves every record
      as the last operation staged on it says and the others as they were just before it, or
      changes nothing. */
  lemma CommitLands(cfg: Config, acts: seq<Action>, answers: seq<bool>, snaps: seq<Snap>, tx: nat, b: nat, n: nat)
    requires IsRunOf(cfg, acts, answers, snaps) && b < n < |answers|
    requires acts[b] == DoBegin(tx) && answers[b] && acts[n] == DoCommit(tx) && forall k | b < k < n :: !EndsIt(acts[k], tx)
    ensures tx in snaps[n].open && AreStages(snaps[n].open[tx], StagesOf(acts[b + 1..n], tx)) && tx !in snaps[n + 1].open
    ensures if answers[n] then TxLeaves(snaps[n].view, snaps[n + 1].view, snaps[n].open[tx])
            else snaps[n + 1].view == snaps[n].view && snaps[n + 1].log == snaps[n].log
  {
    hide Ran, AreStages, TxLeaves;
    assert Ran(cfg, acts[b], snaps[b], snaps[b + 1], answers[b]);
    RanTransaction(cfg, acts[b], snaps[b], snaps[b + 1], answers[b]);
    StagedInOrder(cfg, acts, answers, snaps, tx, b + 1, n);
    assert Ran(cfg, acts[n], snaps[n], snaps[n + 1], answers[n]);
    CommitSays(cfg, snaps[n], snaps[n + 1], answers[n], tx);
  }

  /** Beginning, staging and rolling back touch no record. */
  lemma NotBeforeCommit(cfg: Config, a: Action, s: Snap, t: Snap, answer: bool)
    requires Ran(cfg, a, s, t, answer) && (a.DoBegin? || a.DoStage? || a.DoRollback?)
    ensures t.view == s.view && t.log == s.log && t.hist == s.hist && t.published == s.published && t.held == s.held
    ensures a.DoRollback? ==> a.tx !in t.open
    ensures a.DoBegin? && answer ==> a.tx in t.open && t.open[a.tx] == []
  {
    hide Ran, TxVerdict, BatchCommits;
    RanTransaction(cfg, a, s, t, answer);
  }
}
