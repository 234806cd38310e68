/** What a run keeps: a write that was answered is in force, and a record stays as it is until an
    operation that is about it. */
module Durability {
  import opened Values
  import opened Log
  import opened Compaction
  import opened Store
  import opened Writes
  import opened Batches
  import opened Collections
  import opened Keys
  import opened Steps
  import Passes

  /** What holds of the state of every valid collection: the view is that of the segments, and
      every live id came from the counter. */
  ghost predicate Sturdy(s: Snap) {
    SnapOk(s) && IdsWithin(s.view, s.idSeq)
  }

  // ---- What an answer means ------------------------------------------------------------------

  /** A write that was refused left the records, the history and what was published alone. */
  lemma RefusedWrite(cfg: Config, a: Action, s: Snap, t: Snap)
    requires a.IsWrite() && Ran(cfg, a, s, t, false)
    ensures t.view == s.view && t.log == s.log && t.hist == s.hist && t.published == s.published
  {
    hide InsertVerdict, Clash, ManyVerdict, PutHeld, DropHeld, TxView, TxHeld, TxEntries, UpsertAllowed, SwapAllowed, Landed,
         Bytes, WithIndex, Stamped, TakenIds, AnyKeyed, UpdateVerdict;
    match a
    case DoUpsert(key, doc, ts, exp) =>
      if KEY !in doc.plain {
        var r :| Upserts(cfg, key, Stamped(doc, key), ts, exp, OnField(s, KEY, true), t, r) && !r.Done?;
      }
    case UpdateIfRev(key, expected, readable, doc, ts) =>
      var r :| Swaps(cfg, key, expected, readable, doc, ts, s, t, r) && !r.Done?;
    case _ =>
  }

  /** An insert that was answered yes: a fresh id, the data and deadline given, revision 1. */
  lemma InsertHolds(cfg: Config, doc: Doc, ts: int, exp: int, s: Snap, t: Snap)
    requires Ran(cfg, DoInsert(doc, ts, exp), s, t, true) && IdsWithin(s.view, s.idSeq)
    ensures var n := s.idSeq + 1;
            n !in s.view && n in t.view && t.view[n] == Entry(n, Op.Insert, ts, 1, doc.stored, doc.epoch, exp)
  {
    hide InsertVerdict, PutHeld, Landed, Bytes;
  }

  /** An update that was: the record was live and has the new data at the next revision. */
  lemma UpdateHolds(cfg: Config, id: nat, doc: Doc, ts: int, exp: int, keepExpiry: bool, s: Snap, t: Snap)
    requires Ran(cfg, DoUpdate(id, doc, ts, exp, keepExpiry), s, t, true)
    ensures id in s.view && id in t.view
    ensures t.view[id] == Entry(id, Op.Update, ts, s.view[id].rev + 1, doc.stored, doc.epoch,
                                if keepExpiry then s.view[id].expiresAt else exp)
  {
    hide Clash, PutHeld, Landed, Bytes;
  }

  lemma DeleteHolds(cfg: Config, id: nat, ts: int, s: Snap, t: Snap, answer: bool)
    requires Ran(cfg, DoDelete(id, ts), s, t, answer)
    ensures (answer <==> id in s.view) && id !in t.view
  {
    hide DropHeld, Bytes;
  }

  /** A swap that was: some record under the key was at the expected revision, and has the new
      data at the next one, still under the key. */
  lemma SwapHolds(cfg: Config, key: string, expected: nat, readable: Entry -> bool, doc: Doc, ts: int, s: Snap, t: Snap)
    returns (id: nat)
    requires Ran(cfg, UpdateIfRev(key, expected, readable, doc, ts), s, t, true)
    ensures Keyed(cfg.fmt, s.held, id, key) && id in s.view && s.view[id].rev == expected
    ensures Keyed(cfg.fmt, t.held, id, key) && id in t.view && t.view[id].rev == expected + 1 && t.view[id].data == doc.stored
  {
    hide SwapAllowed, Keyed, Stamped, Landed, Bytes, PutHeld;
    var r :| Swaps(cfg, key, expected, readable, doc, ts, s, t, r) && r.Done?;
    id := r.id;
    SwapDone(cfg.fmt, s.uniq, s.held, s.view, key, readable, AtRev(expected), doc, r);
    KeyedMeans(cfg.fmt, s.held, id, key);
    StampedFiles(cfg.fmt, s.held, id, doc, key);
    RevisedIs(id, s.view[id], ts, doc, key, s.view[id].expiresAt);
  }

  /** An upsert that was: the record under the key has the data. */
  lemma UpsertHolds(cfg: Config, key: string, doc: Doc, ts: int, exp: int, s: Snap, t: Snap) returns (id: nat)
    requires Ran(cfg, DoUpsert(key, doc, ts, exp), s, t, true)
    ensures Keyed(cfg.fmt, t.held, id, key) && id in t.view && t.view[id].data == doc.stored
  {
    hide UpsertAllowed, Keyed, AnyKeyed, Stamped, Landed, Bytes, PutHeld, WithIndex, UpsertLine;
    var s' := OnField(s, KEY, true);
    var r :| Upserts(cfg, key, Stamped(doc, key), ts, exp, s', t, r) && r.Done?;
    id := r.id;
    HasIndex(s.held, KEY, s.view);
    StampedFiles(cfg.fmt, s'.held, id, doc, key);
    UpsertLineIs(s.view, id, doc, key, ts, exp);
  }

  // ---- What a step leaves alone --------------------------------------------------------------

  /** The record's deadline has come. */
  predicate Due(v: View, id: nat, now: int) {
    id in v && v[id].expiresAt != 0 && v[id].expiresAt <= now
  }

  /** The action is about the record: it names it, finds it under its key, or comes when its
      deadline has passed. */
  ghost predicate Concerns(fmt: RawFormat, a: Action, s: Snap, id: nat) {
    match a
    case DoUpdate(target, _, _, _, _) => target == id
    case DoDelete(target, _) => target == id
    case DoUpsert(key, _, _, _) => Keyed(fmt, WithIndex(s.held, KEY, s.view), id, key)
    case UpdateIfRev(key, _, _, _, _) => Keyed(fmt, s.held, id, key)
    case DoCommit(tx) => tx in s.open && Names(s.open[tx], id)
    case DoApply(e) => e.id == id
    case DoReap(now) => Due(s.view, id, now)
    case FinishCompact => s.pass.Some? && Due(s.view, id, s.pass.value.now)
    case _ => false
  }

  predicate Names(ops: seq<TxOp>, id: nat) {
    exists k | 0 <= k < |ops| :: ops[k].id == id
  }

  lemma SimpleSpares(cfg: Config, a: Action, s: Snap, t: Snap, answer: bool, id: nat)
    requires (a.DoInsert? || a.DoUpdate? || a.DoDelete?) && Ran(cfg, a, s, t, answer) && Sturdy(s)
    requires id in s.view && !Concerns(cfg.fmt, a, s, id)
    ensures id in t.view && t.view[id] == s.view[id]
  {
    hide SnapOk, InsertVerdict, Clash, PutHeld, DropHeld, Landed, Bytes, NewRecord, Revised;
    assert id <= s.idSeq;
    if a.DoInsert? { NewIdIs(s.idSeq + 1, a.ts, a.doc, a.exp); }
  }

  lemma NewIdIs(id: nat, ts: int, doc: Doc, exp: int)
    ensures NewRecord(id, ts, doc, exp).id == id
  {
  }

  lemma ManySpares(cfg: Config, docs: seq<Doc>, ts: int, exp: int, s: Snap, t: Snap, answer: bool, id: nat)
    requires ManyRan(cfg, docs, ts, exp, s, t, answer) && IdsWithin(s.view, s.idSeq) && id in s.view
    ensures id in t.view && t.view[id] == s.view[id]
  {
    hide ManyVerdict, TxView, TxEntries, TxHeld, Landed, Bytes, TakenIds;
    assert id <= s.idSeq;
    var ops := InsertOps(docs, ts, exp, s.idSeq);
    Unmentioned(s.view, ops, |ops|, id);
  }

  lemma UpsertSpares(cfg: Config, key: string, doc: Doc, ts: int, exp: int, s: Snap, t: Snap, answer: bool, id: nat)
    requires UpsertRan(cfg, key, doc, ts, exp, s, t, answer) && IdsWithin(s.view, s.idSeq) && id in s.view
    requires !Keyed(cfg.fmt, WithIndex(s.held, KEY, s.view), id, key)
    ensures id in t.view && t.view[id] == s.view[id]
  {
    hide UpsertAllowed, Keyed, AnyKeyed, Stamped, Landed, Bytes, PutHeld, WithIndex, UpsertLine;
    assert id <= s.idSeq;
    if KEY !in doc.plain {
      var s', keyed := OnField(s, KEY, true), Stamped(doc, key);
      var r :| Upserts(cfg, key, keyed, ts, exp, s', t, r) && answer == r.Done?;
      if r.Done? { DoneUnder(cfg, s'.uniq, s'.held, |s.view|, s.size, s.idSeq, key, keyed, ts, exp, r); }
    }
  }

  lemma SwapSpares(cfg: Config, key: string, expected: nat, readable: Entry -> bool, doc: Doc, ts: int, s: Snap, t: Snap,
                   answer: bool, id: nat)
    requires SwapRan(cfg, key, expected, readable, doc, ts, s, t, answer) && id in s.view && !Keyed(cfg.fmt, s.held, id, key)
    ensures id in t.view && t.view[id] == s.view[id]
  {
    hide SwapAllowed, Keyed, Stamped, Landed, Bytes, PutHeld, Revised;
    var r :| Swaps(cfg, key, expected, readable, doc, ts, s, t, r) && answer == r.Done?;
    if r.Done? { SwapDone(cfg.fmt, s.uniq, s.held, s.view, key, readable, AtRev(expected), doc, r); }
  }

  lemma TransactionSpares(cfg: Config, a: Action, s: Snap, t: Snap, answer: bool, id: nat)
    requires a.InTransaction() && TransactionRan(cfg, a, s, t, answer) && id in s.view && !Concerns(cfg.fmt, a, s, id)
    ensures id in t.view && t.view[id] == s.view[id]
  {
    hide TxVerdict, TxView, TxEntries, TxHeld, Landed, Bytes;
    if a.DoCommit? && answer { Unmentioned(s.view, s.open[a.tx], |s.open[a.tx]|, id); }
  }

  lemma UpkeepSpares(cfg: Config, a: Action, s: Snap, t: Snap, answer: bool, id: nat)
    requires a.IsUpkeep() && UpkeepRan(cfg, a, s, t, answer) && id in s.view && !Concerns(cfg.fmt, a, s, id)
    ensures id in t.view && t.view[id] == s.view[id]
  {
    hide Present, WithIndex, DropHeld, PutHeld, Landed, Bytes, TombstonesOf, ExpiredIds, DropAll;
    if a.DoReap? {
      DueIds(s.view, a.now);
      var drops :| Reaps(cfg, a.now, s, t, drops);
    }
  }

  /** A pass keeps every record whose deadline has not come, up to sealing. */
  lemma FinishSpares(cfg: Config, s: Snap, t: Snap, answer: bool, id: nat)
    requires FinishRan(cfg, s, t, answer) && SnapOk(s) && id in s.view && !(s.pass.Some? && Due(s.view, id, s.pass.value.now))
    ensures id in t.view && SameButSealed(s.view[id], t.view[id])
  {
    hide WellFormed, Replay, Entries, HeldOf, TotalBytes, ReclaimedIds, Passes.Holding;
    if s.pass.Some? {
      var drops :| Finishes(cfg, s, t, drops);
      var q := s.pass.value;
      DueGone(Entries(q.sealed), s.active.entries, q.now, s.view, t.view);
    }
  }

  /** No operation changes a record it is not about: the record stays as it is, or, through the
      end of a pass, as it is up to sealing. */
  lemma StepSpares(cfg: Config, a: Action, s: Snap, t: Snap, answer: bool, id: nat)
    requires Ran(cfg, a, s, t, answer) && Sturdy(s) && id in s.view && !Concerns(cfg.fmt, a, s, id)
    ensures id in t.view && SameButSealed(s.view[id], t.view[id])
    ensures !a.FinishCompact? ==> t.view[id] == s.view[id]
  {
    hide SnapOk, InsertRan, ManyRan, UpdateRan, DeleteRan, UpsertRan, SwapRan, TransactionRan, UpkeepRan, FinishRan, Keyed,
         WithIndex, Names, Due, Passes.Holding, Survivors;
    match a
    case DoInsertMany(docs, ts, exp) => ManySpares(cfg, docs, ts, exp, s, t, answer, id);
    case DoUpsert(key, doc, ts, exp) => UpsertSpares(cfg, key, doc, ts, exp, s, t, answer, id);
    case UpdateIfRev(key, expected, readable, doc, ts) =>
      SwapSpares(cfg, key, expected, readable, doc, ts, s, t, answer, id);
    case BeginCompact(_, _, _) =>
    case FinishCompact => FinishSpares(cfg, s, t, answer, id);
    case _ =>
      if a.InTransaction() {
        TransactionSpares(cfg, a, s, t, answer, id);
      } else if a.IsUpkeep() {
        UpkeepSpares(cfg, a, s, t, answer, id);
      } else {
        SimpleSpares(cfg, a, s, t, answer, id);
      }
  }

  // ---- Over a run -----------------------------------------------------------------------------

  /** No action from the i-th to before the j-th is about the record. */
  ghost predicate LeftAlone(fmt: RawFormat, acts: seq<Action>, snaps: seq<Snap>, i: nat, j: nat, id: nat)
    requires i <= j <= |acts| && j < |snaps|
  {
    forall k | i <= k < j :: !Concerns(fmt, acts[k], snaps[k], id)
  }

  /** Over every run a record stays until an operation that is about it: nothing else loses it, and
      nothing but a re-sealing pass touches it. */
  lemma {:induction false} RecordStays(cfg: Config, acts: seq<Action>, answers: seq<bool>, snaps: seq<Snap>, i: nat, j: nat,
                                       id: nat)
    requires IsRunOf(cfg, acts, answers, snaps) && AllSturdy(snaps, |snaps|)
    requires i <= j <= |answers| && id in snaps[i].view && LeftAlone(cfg.fmt, acts, snaps, i, j, id)
    ensures id in snaps[j].view && SameButSealed(snaps[i].view[id], snaps[j].view[id])
    ensures (forall k | i <= k < j :: !acts[k].FinishCompact?) ==> snaps[j].view[id] == snaps[i].view[id]
    decreases j
  {
    hide Ran, Sturdy, Concerns;
    if i < j {
      RecordStays(cfg, acts, answers, snaps, i, j - 1, id);
      assert Ran(cfg, acts[j - 1], snaps[j - 1], snaps[j], answers[j - 1]);
      StepSpares(cfg, acts[j - 1], snaps[j - 1], snaps[j], answers[j - 1], id);
    }
  }

  ghost predicate AllSturdy(snaps: seq<Snap>, n: nat)
    requires n <= |snaps|
  {
    forall k | 0 <= k < n :: Sturdy(snaps[k])
  }

  lemma AllSturdySnoc(snaps: seq<Snap>, t: Snap)
    requires AllSturdy(snaps, |snaps|)
    ensures AllSturdy(snaps + [t], |snaps|)
  {
    hide Sturdy;
  }

  /** Every record of every state of the run stays that way. */
  ghost predicate Lasting(fmt: RawFormat, acts: seq<Action>, answers: seq<bool>, snaps: seq<Snap>)
    requires |answers| <= |acts| && |snaps| == |answers| + 1
  {
    forall i, j, id | 0 <= i <= j <= |answers| && id in snaps[i].view && LeftAlone(fmt, acts, snaps, i, j, id) ::
      id in snaps[j].view && SameButSealed(snaps[i].view[id], snaps[j].view[id])
  }

  lemma RunLasts(cfg: Config, acts: seq<Action>, answers: seq<bool>, snaps: seq<Snap>)
    requires IsRunOf(cfg, acts, answers, snaps) && AllSturdy(snaps, |snaps|)
    ensures Lasting(cfg.fmt, acts, answers, snaps)
  {
    hide Ran, Sturdy, LeftAlone;
    forall i, j, id | 0 <= i <= j <= |answers| && id in snaps[i].view && LeftAlone(cfg.fmt, acts, snaps, i, j, id)
      ensures id in snaps[j].view && SameButSealed(snaps[i].view[id], snaps[j].view[id])
    {
      RecordStays(cfg, acts, answers, snaps, i, j, id);
    }
  }

  /** An acknowledged insert lasts: its record is there, at revision 1 and under its deadline, at
      every later point of the run up to an operation that is about it. */
  lemma AcknowledgedLasts(cfg: Config, acts: seq<Action>, answers: seq<bool>, snaps: seq<Snap>, i: nat, j: nat)
    requires IsRunOf(cfg, acts, answers, snaps) && AllSturdy(snaps, |snaps|)
    requires i < j <= |answers| && acts[i].DoInsert? && answers[i]
    requires LeftAlone(cfg.fmt, acts, snaps, i + 1, j, snaps[i].idSeq + 1)
    ensures var n, a := snaps[i].idSeq + 1, acts[i];
            && n in snaps[j].view && snaps[j].view[n].op.Insert? && snaps[j].view[n].ts == a.ts
            && snaps[j].view[n].rev == 1 && snaps[j].view[n].expiresAt == a.exp
            && ((forall k | i < k < j :: !acts[k].FinishCompact?) ==>
                  snaps[j].view[n].data == a.doc.stored && snaps[j].view[n].epoch == a.doc.epoch)
  {
    hide Ran, SnapOk, LeftAlone;
    var a := acts[i];
    assert Ran(cfg, a, snaps[i], snaps[i + 1], answers[i]) && Sturdy(snaps[i]);
    InsertHolds(cfg, a.doc, a.ts, a.exp, snaps[i], snaps[i + 1]);
    RecordStays(cfg, acts, answers, snaps, i + 1, j, snaps[i].idSeq + 1);
  }
}
