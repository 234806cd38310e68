/** Batches of staged operations: what committing one in order does to the live view, and
    why a batch accepted by the up-front checks keeps uniqueness and the record limit. */
module Batches {
  import opened Common
  import opened Values
  import opened Log
  import opened SecondaryIndexes
  import opened Writes

  datatype TxOp =
    | TxInsert(id: nat, doc: Doc, ts: int, exp: int)
    | TxUpdate(id: nat, doc: Doc, ts: int)
    | TxDelete(id: nat, ts: int)

  predicate IsWrite(op: TxOp) { !op.TxDelete? }

  /** The line an operation appends to a log whose live view is `v`. An update of a record
      deleted earlier in the batch starts it again at revision 1. */
  function TxEntry(v: View, op: TxOp): Entry {
    match op
    case TxInsert(id, doc, ts, exp) => NewRecord(id, ts, doc, exp)
    case TxUpdate(id, doc, ts) =>
      if id in v then Revised(id, v[id], ts, doc, v[id].expiresAt)
      else Entry(id, Op.Update, ts, 1, doc.stored, doc.epoch, 0)
    case TxDelete(id, ts) => Tombstone(id, ts)
  }

  /** The live view after the first n operations, and the lines they appended. */
  function TxView(v: View, ops: seq<TxOp>, n: nat): View
    requires n <= |ops|
  {
    if n == 0 then v else
    var w := TxView(v, ops, n - 1);
    Apply(w, TxEntry(w, ops[n - 1]))
  }

  function TxEntries(v: View, ops: seq<TxOp>, n: nat): seq<Entry>
    requires n <= |ops|
  {
    if n == 0 then [] else TxEntries(v, ops, n - 1) + [TxEntry(TxView(v, ops, n - 1), ops[n - 1])]
  }

  /** A field's indexed values after the first n operations. */
  function TxVals(vals: map<nat, Value>, f: string, ops: seq<TxOp>, n: nat): map<nat, Value>
    requires n <= |ops|
  {
    if n == 0 then vals else
    var op, was := ops[n - 1], TxVals(vals, f, ops, n - 1);
    if op.TxDelete? then was - {op.id} else SetField(was, f, op.id, op.doc.plain)
  }

  function TxHeld(h: Held, ops: seq<TxOp>, n: nat): Held
    requires n <= |ops|
  {
    map f | f in h :: TxVals(h[f], f, ops, n)
  }

  lemma TxHeldStep(h: Held, ops: seq<TxOp>, n: nat)
    requires n < |ops|
    ensures TxHeld(h, ops, n + 1) ==
            if ops[n].TxDelete? then DropHeld(TxHeld(h, ops, n), ops[n].id)
            else PutHeld(TxHeld(h, ops, n), ops[n].id, ops[n].doc.plain)
  {
  }

  /** The appended lines replay to the operations applied in order. */
  lemma {:induction false} TxReplay(v: View, ops: seq<TxOp>, n: nat)
    requires n <= |ops|
    ensures ReplayOn(v, TxEntries(v, ops, n)) == TxView(v, ops, n)
  {
    if n > 0 {
      TxReplay(v, ops, n - 1);
      ReplaySnoc(v, TxEntries(v, ops, n - 1), TxEntry(TxView(v, ops, n - 1), ops[n - 1]));
    }
  }

  /** No operation of the batch before, or after, the k-th is on the same record. */
  predicate FirstOn(ops: seq<TxOp>, k: nat)
    requires k < |ops|
  {
    forall j | 0 <= j < k :: ops[j].id != ops[k].id
  }

  predicate LastOn(ops: seq<TxOp>, n: nat, k: nat)
    requires k < n <= |ops|
  {
    forall j | k < j < n :: ops[j].id != ops[k].id
  }

  /** What the last operation on a record left of it: gone if it deletes, else its data, under the
      deadline given to an insert, and the one a record had before an only update. */
  predicate LeftBy(v: View, w: View, ops: seq<TxOp>, k: nat)
    requires k < |ops|
  {
    match ops[k]
    case TxInsert(id, doc, ts, exp) => id in w && w[id] == Entry(id, Op.Insert, ts, 1, doc.stored, doc.epoch, exp)
    case TxUpdate(id, doc, ts) =>
      && id in w && w[id].op.Update? && w[id].ts == ts && w[id].data == doc.stored && w[id].epoch == doc.epoch
      && (FirstOn(ops, k) && id in v ==> w[id].rev == v[id].rev + 1 && w[id].expiresAt == v[id].expiresAt)
    case TxDelete(id, _) => id !in w
  }

  /** The batch in plain terms: every record is as the last operation on it left it, and a record
      no operation is on is as it was. */
  ghost predicate TxLeaves(v: View, w: View, ops: seq<TxOp>) {
    && (forall k | 0 <= k < |ops| && LastOn(ops, |ops|, k) :: LeftBy(v, w, ops, k))
    && (forall id | forall k | 0 <= k < |ops| :: ops[k].id != id :: SameAt(v, w, id))
  }

  lemma {:induction false} Unmentioned(v: View, ops: seq<TxOp>, n: nat, id: nat)
    requires n <= |ops| && forall k | 0 <= k < n :: ops[k].id != id
    ensures SameAt(v, TxView(v, ops, n), id)
  {
    if n > 0 { Unmentioned(v, ops, n - 1, id); }
  }

  lemma {:induction false} LastSays(v: View, ops: seq<TxOp>, n: nat, k: nat)
    requires k < n <= |ops| && LastOn(ops, n, k)
    ensures LeftBy(v, TxView(v, ops, n), ops, k)
  {
    if k == n - 1 {
      if FirstOn(ops, k) { Unmentioned(v, ops, k, ops[k].id); }
    } else {
      LastSays(v, ops, n - 1, k);
    }
  }

  lemma BatchLeaves(v: View, ops: seq<TxOp>)
    ensures TxLeaves(v, TxView(v, ops, |ops|), ops)
  {
    hide TxView, LeftBy;
    forall k | 0 <= k < |ops| && LastOn(ops, |ops|, k) ensures LeftBy(v, TxView(v, ops, |ops|), ops, k) {
      LastSays(v, ops, |ops|, k);
    }
    forall id | forall k | 0 <= k < |ops| :: ops[k].id != id ensures SameAt(v, TxView(v, ops, |ops|), id) {
      Unmentioned(v, ops, |ops|, id);
    }
  }

  // ---- The up-front checks ------------------------------------------------------------

  /** Insert ids were reserved: none is live and none is used twice. */
  predicate FreshInserts(v: View, ops: seq<TxOp>) {
    && (forall i | 0 <= i < |ops| && ops[i].TxInsert? :: ops[i].id !in v)
    && (forall i, j | 0 <= i < j < |ops| && ops[i].TxInsert? && ops[j].TxInsert? :: ops[i].id != ops[j].id)
  }

  /** Some update or delete names a record that is not live. */
  predicate TargetMissing(v: View, ops: seq<TxOp>) {
    exists i | 0 <= i < |ops| :: !ops[i].TxInsert? && ops[i].id !in v
  }

  /** Operation k puts `key` on field f of its record. */
  predicate Claims(fmt: RawFormat, ops: seq<TxOp>, k: nat, f: string, key: string)
    requires k < |ops|
  {
    IsWrite(ops[k]) && f in ops[k].doc.plain && Render(fmt, ops[k].doc.plain[f]) == key
  }

  /** Operation k repeats a value of another live record, or of another record written
      earlier in the batch. */
  predicate OpClash(fmt: RawFormat, uniq: set<string>, h: Held, ops: seq<TxOp>, k: nat)
    requires k < |ops|
  {
    IsWrite(ops[k]) && exists f | f in uniq && f in h && f in ops[k].doc.plain ::
      || Taken(fmt, h[f], Render(fmt, ops[k].doc.plain[f]), ops[k].id)
      || Contested(fmt, ops, k, f, Render(fmt, ops[k].doc.plain[f]))
  }

  predicate Contested(fmt: RawFormat, ops: seq<TxOp>, k: nat, f: string, key: string)
    requires k < |ops|
  {
    exists j | 0 <= j < k :: Claims(fmt, ops, j, f, key) && ops[j].id != ops[k].id
  }

  predicate BatchClash(fmt: RawFormat, uniq: set<string>, h: Held, ops: seq<TxOp>) {
    exists k | 0 <= k < |ops| :: OpClash(fmt, uniq, h, ops, k)
  }

  function InsertCount(ops: seq<TxOp>, n: nat): nat
    requires n <= |ops|
  {
    if n == 0 then 0 else InsertCount(ops, n - 1) + if ops[n - 1].TxInsert? then 1 else 0
  }

  /** The bytes the quota is asked for. InsertMany measures the lines as they will be
      appended, CommitTx their plaintext form at epoch 0. */
  function InsertBytes(cfg: Config, ops: seq<TxOp>, n: nat, asStored: bool): nat
    requires n <= |ops|
  {
    if n == 0 then 0 else
    InsertBytes(cfg, ops, n - 1, asStored) + if ops[n - 1].TxInsert? then OpBytes(cfg, ops[n - 1], asStored) else 0
  }

  /** The line an insert is measured as by CommitTx and Upsert: not sealed, at epoch 0. */
  function Unsealed(doc: Doc): Doc {
    Doc(doc.plain, doc.plain, 0)
  }

  function OpBytes(cfg: Config, op: TxOp, asStored: bool): nat
    requires op.TxInsert?
  {
    QuotaBytes(cfg, NewRecord(op.id, op.ts, if asStored then op.doc else Unsealed(op.doc), op.exp))
  }

  /** Some insert or update of the batch cannot be sealed. */
  predicate AnyUnsealable(ops: seq<TxOp>) {
    exists i | 0 <= i < |ops| :: IsWrite(ops[i]) && !ops[i].doc.sealable
  }

  /** CommitTx: existence, then uniqueness, then the quota of the inserts, then sealing. */
  function TxVerdict(cfg: Config, uniq: set<string>, h: Held, v: View, size: nat, ops: seq<TxOp>): Option<Refusal> {
    if TargetMissing(v, ops) then Some(NotFound)
    else if BatchClash(cfg.fmt, uniq, h, ops) then Some(Duplicate)
    else if InsertCount(ops, |ops|) > 0
            && !WithinQuota(cfg, |v|, size, InsertCount(ops, |ops|), InsertBytes(cfg, ops, |ops|, false)) then Some(QuotaExceeded)
    else if AnyUnsealable(ops) then Some(Unsealable)
    else None
  }

  /** InsertMany: sealing, then the quota of the whole batch, then uniqueness. */
  function ManyVerdict(cfg: Config, uniq: set<string>, h: Held, v: View, size: nat, ops: seq<TxOp>): Option<Refusal> {
    if ops == [] then None
    else if AnyUnsealable(ops) then Some(Unsealable)
    else if !WithinQuota(cfg, |v|, size, |ops|, InsertBytes(cfg, ops, |ops|, true)) then Some(QuotaExceeded)
    else if BatchClash(cfg.fmt, uniq, h, ops) then Some(Duplicate)
    else None
  }

  /** An empty batch is accepted whatever the quota, and does nothing. */
  lemma EmptyBatch(cfg: Config, uniq: set<string>, h: Held, v: View, size: nat)
    ensures TxVerdict(cfg, uniq, h, v, size, []) == None && ManyVerdict(cfg, uniq, h, v, size, []) == None
    ensures TxEntries(v, [], 0) == [] && TxView(v, [], 0) == v && TxHeld(h, [], 0) == h
  {
  }

  /** A batch clashes exactly when one of its writes carries the text of a unique value another
      live record is filed under, or that an earlier write of the batch gave another record. */
  lemma BatchClashIff(fmt: RawFormat, uniq: set<string>, h: Held, ops: seq<TxOp>)
    ensures BatchClash(fmt, uniq, h, ops) <==>
            || (exists k, f, other | 0 <= k < |ops| && !ops[k].TxDelete? && f in uniq && f in h && f in ops[k].doc.plain
                                     && other in h[f] ::
                  other != ops[k].id && Render(fmt, h[f][other]) == Render(fmt, ops[k].doc.plain[f]))
            || (exists j, k, f | 0 <= j < k < |ops| && !ops[j].TxDelete? && !ops[k].TxDelete? && f in uniq && f in h
                                 && f in ops[j].doc.plain && f in ops[k].doc.plain ::
                  ops[j].id != ops[k].id && Render(fmt, ops[j].doc.plain[f]) == Render(fmt, ops[k].doc.plain[f]))
  {
    hide Render;
    forall k, f | 0 <= k < |ops| && IsWrite(ops[k]) && f in uniq && f in h && f in ops[k].doc.plain
      ensures var key := Render(fmt, ops[k].doc.plain[f]);
              Taken(fmt, h[f], key, ops[k].id) || Contested(fmt, ops, k, f, key) ==> OpClash(fmt, uniq, h, ops, k)
    {
    }
  }

  // ---- The claims of a batch ------------------------------------------------------------

  /** The record that last claimed a key of field f among the first n operations. */
  function ClaimOf(fmt: RawFormat, ops: seq<TxOp>, n: nat, f: string, key: string): Option<nat>
    requires n <= |ops|
  {
    if n == 0 then None
    else if Claims(fmt, ops, n - 1, f, key) then Some(ops[n - 1].id)
    else ClaimOf(fmt, ops, n - 1, f, key)
  }

  /** While no operation clashes, all claims of a key come from one record. */
  lemma {:induction false} ClaimMeans(fmt: RawFormat, uniq: set<string>, h: Held, ops: seq<TxOp>, n: nat, f: string,
                                      key: string)
    requires n <= |ops| && f in uniq && f in h && forall j | 0 <= j < n :: !OpClash(fmt, uniq, h, ops, j)
    ensures forall j | 0 <= j < n && Claims(fmt, ops, j, f, key) :: ClaimOf(fmt, ops, n, f, key) == Some(ops[j].id)
    ensures ClaimOf(fmt, ops, n, f, key).Some? ==> exists j | 0 <= j < n :: Claims(fmt, ops, j, f, key)
  {
    if n > 0 {
      ClaimMeans(fmt, uniq, h, ops, n - 1, f, key);
      assert Claims(fmt, ops, n - 1, f, key) ==> !Contested(fmt, ops, n - 1, f, key) by {
        assert !OpClash(fmt, uniq, h, ops, n - 1);
      }
    }
  }

  type ClaimMap = map<(string, string), nat>

  function Look(claimed: ClaimMap, f: string, key: string): Option<nat> {
    if (f, key) in claimed then Some(claimed[(f, key)]) else None
  }

  ghost predicate ClaimsUpTo(fmt: RawFormat, claimed: ClaimMap, ops: seq<TxOp>, n: nat, f: string)
    requires n <= |ops|
  {
    forall key :: Look(claimed, f, key) == ClaimOf(fmt, ops, n, f, key)
  }

  lemma ClaimSkip(fmt: RawFormat, claimed: ClaimMap, ops: seq<TxOp>, n: nat, f: string)
    requires n < |ops| && ClaimsUpTo(fmt, claimed, ops, n, f)
    requires !IsWrite(ops[n]) || f !in ops[n].doc.plain
    ensures ClaimsUpTo(fmt, claimed, ops, n + 1, f)
  {
  }

  lemma ClaimAdd(fmt: RawFormat, claimed: ClaimMap, ops: seq<TxOp>, n: nat, f: string)
    requires n < |ops| && ClaimsUpTo(fmt, claimed, ops, n, f)
    requires IsWrite(ops[n]) && f in ops[n].doc.plain
    ensures ClaimsUpTo(fmt, claimed[(f, Render(fmt, ops[n].doc.plain[f])) := ops[n].id], ops, n + 1, f)
  {
    var mine := Render(fmt, ops[n].doc.plain[f]);
    var c := claimed[(f, mine) := ops[n].id];
    forall key ensures Look(c, f, key) == ClaimOf(fmt, ops, n + 1, f, key) {
      assert Look(claimed, f, key) == ClaimOf(fmt, ops, n, f, key);
      assert (f, key) == (f, mine) <==> key == mine;
    }
  }

  lemma ClaimOther(fmt: RawFormat, claimed: ClaimMap, ops: seq<TxOp>, n: nat, f: string, key: string, id: nat, g: string)
    requires n <= |ops| && ClaimsUpTo(fmt, claimed, ops, n, g) && g != f
    ensures ClaimsUpTo(fmt, claimed[(f, key) := id], ops, n, g)
  {
  }

  // ---- Consequences of acceptance -----------------------------------------------------

  predicate Inserted(ops: seq<TxOp>, n: nat, id: nat)
    requires n <= |ops|
  {
    exists k | 0 <= k < n :: ops[k].TxInsert? && ops[k].id == id
  }

  /** A batch brings no record to life but the ones it inserts. */
  lemma {:induction false} BatchIds(v: View, ops: seq<TxOp>, n: nat)
    requires n <= |ops| && !TargetMissing(v, ops)
    ensures forall id | id in TxView(v, ops, n) :: id in v || Inserted(ops, n, id)
  {
    if n > 0 {
      BatchIds(v, ops, n - 1);
      forall id | id in TxView(v, ops, n) ensures id in v || Inserted(ops, n, id) {
        if id in TxView(v, ops, n - 1) {
          assert Inserted(ops, n - 1, id) ==> Inserted(ops, n, id);
        } else if ops[n - 1].TxInsert? {
          assert ops[n - 1].id == id;
        }
      }
    }
  }

  /** Every line of an accepted batch is sound where it lands. */
  lemma OpIsSound(v: View, ops: seq<TxOp>, n: nat)
    requires n < |ops| && FreshInserts(v, ops) && !TargetMissing(v, ops)
    ensures Sound(TxView(v, ops, n), TxEntry(TxView(v, ops, n), ops[n]))
    ensures ops[n].TxInsert? ==> ops[n].id !in TxView(v, ops, n)
  {
    BatchIds(v, ops, n);
  }

  ghost function InsertIds(ops: seq<TxOp>, n: nat): (s: set<nat>)
    requires n <= |ops|
    ensures forall id :: id in s <==> Inserted(ops, n, id)
    ensures |s| <= InsertCount(ops, n)
  {
    if n == 0 then {} else
    var s := InsertIds(ops, n - 1);
    var r := if ops[n - 1].TxInsert? then s + {ops[n - 1].id} else s;
    assert forall id :: Inserted(ops, n, id) <==> Inserted(ops, n - 1, id) || (ops[n - 1].TxInsert? && ops[n - 1].id == id);
    r
  }

  /** An accepted batch widens the collection by at most its inserts. */
  lemma BatchCount(v: View, ops: seq<TxOp>)
    requires !TargetMissing(v, ops)
    ensures |TxView(v, ops, |ops|)| <= |v| + InsertCount(ops, |ops|)
  {
    var w := TxView(v, ops, |ops|);
    var ins := InsertIds(ops, |ops|);
    BatchIds(v, ops, |ops|);
    assert w.Keys <= v.Keys + ins;
    SubsetSize(w.Keys, v.Keys + ins);
    assert |v.Keys + ins| <= |v.Keys| + |ins|;
    assert |w| == |w.Keys| && |v| == |v.Keys|;
  }

  predicate AllAgree(ops: seq<TxOp>, fields: set<string>) {
    forall i | 0 <= i < |ops| && IsWrite(ops[i]) :: Agrees(ops[i].doc, fields)
  }

  lemma AgreesWhen(a: Doc, b: Doc, fields: set<string>)
    requires a.plain == b.plain && a.stored == b.stored
    ensures Agrees(a, fields) <==> Agrees(b, fields)
  {
    assert forall f | f in fields :: SameField(a, f) <==> SameField(b, f);
  }

  /** A batch whose sealing leaves the indexed fields alone keeps the live indexes equal to
      their rebuild. */
  lemma {:induction false} BatchSynced(h: Held, v: View, ops: seq<TxOp>, n: nat)
    requires n <= |ops| && Synced(h, v) && AllAgree(ops, h.Keys)
    ensures Synced(TxHeld(h, ops, n), TxView(v, ops, n))
  {
    hide Synced, Agrees, PutHeld, DropHeld;
    if n == 0 {
      assert TxHeld(h, ops, 0) == h;
    } else {
      BatchSynced(h, v, ops, n - 1);
      TxHeldStep(h, ops, n - 1);
      var g, w, op := TxHeld(h, ops, n - 1), TxView(v, ops, n - 1), ops[n - 1];
      if op.TxDelete? {
        SyncedDrop(g, w, TxEntry(w, op));
      } else {
        assert g.Keys == h.Keys && TxEntry(w, op).data == op.doc.stored;
        AgreesWhen(op.doc, Doc(op.doc.plain, op.doc.stored, TxEntry(w, op).epoch), h.Keys);
        SyncedIff(g, w, TxEntry(w, op), op.doc.plain);
      }
    }
  }

  /** Operation k put this value on field f of record `id`. */
  predicate FiledIt(ops: seq<TxOp>, n: nat, f: string, id: nat, val: Value)
    requires n <= |ops|
  {
    exists k | 0 <= k < n :: IsWrite(ops[k]) && ops[k].id == id && f in ops[k].doc.plain && ops[k].doc.plain[f] == val
  }

  /** Every record is filed under what it was before the batch or what one of its operations
      put there. */
  lemma {:induction false} Provenance(vals: map<nat, Value>, f: string, ops: seq<TxOp>, n: nat, id: nat)
    requires n <= |ops| && id in TxVals(vals, f, ops, n)
    ensures (id in vals && TxVals(vals, f, ops, n)[id] == vals[id]) || FiledIt(ops, n, f, id, TxVals(vals, f, ops, n)[id])
  {
    if n > 0 {
      if ops[n - 1].id == id {
        assert IsWrite(ops[n - 1]) && ops[n - 1].doc.plain[f] == TxVals(vals, f, ops, n)[id];
      } else {
        Provenance(vals, f, ops, n - 1, id);
      }
    }
  }

  lemma NotTaken(fmt: RawFormat, uniq: set<string>, h: Held, ops: seq<TxOp>, f: string, k: nat)
    requires !BatchClash(fmt, uniq, h, ops) && f in uniq && f in h && k < |ops| && IsWrite(ops[k]) && f in ops[k].doc.plain
    ensures var key := Render(fmt, ops[k].doc.plain[f]);
            && !Taken(fmt, h[f], key, ops[k].id)
            && forall j | 0 <= j < k && Claims(fmt, ops, j, f, key) :: ops[j].id == ops[k].id
  {
    assert !OpClash(fmt, uniq, h, ops, k);
    assert !Contested(fmt, ops, k, f, Render(fmt, ops[k].doc.plain[f]));
  }

  /** Two records of an accepted batch never end under the same value of a unique field. */
  lemma NoSharedValue(fmt: RawFormat, uniq: set<string>, h: Held, ops: seq<TxOp>, f: string, a: nat, b: nat)
    requires f in uniq && f in h && !BatchClash(fmt, uniq, h, ops) && OneEach(fmt, h[f])
    requires a != b && a in TxVals(h[f], f, ops, |ops|) && b in TxVals(h[f], f, ops, |ops|)
    ensures var vals := TxVals(h[f], f, ops, |ops|);
            Render(fmt, vals[a]) != Render(fmt, vals[b])
  {
    hide TxVals, BatchClash, OpClash, Render, Contested;
    var vals, n := TxVals(h[f], f, ops, |ops|), |ops|;
    Provenance(h[f], f, ops, n, a);
    Provenance(h[f], f, ops, n, b);
    if FiledIt(ops, n, f, a, vals[a]) {
      var i :| 0 <= i < n && IsWrite(ops[i]) && ops[i].id == a && f in ops[i].doc.plain && ops[i].doc.plain[f] == vals[a];
      NotTaken(fmt, uniq, h, ops, f, i);
    }
    if FiledIt(ops, n, f, b, vals[b]) {
      var j :| 0 <= j < n && IsWrite(ops[j]) && ops[j].id == b && f in ops[j].doc.plain && ops[j].doc.plain[f] == vals[b];
      NotTaken(fmt, uniq, h, ops, f, j);
    }
  }

  /** A batch without a clash leaves every unique field at one live record per value. */
  lemma BatchKeepsUnique(fmt: RawFormat, uniq: set<string>, h: Held, ops: seq<TxOp>)
    requires UniqueHeld(fmt, uniq, h) && !BatchClash(fmt, uniq, h, ops)
    ensures UniqueHeld(fmt, uniq, TxHeld(h, ops, |ops|))
  {
    hide TxVals;
    forall f | f in uniq && f in h ensures OneEach(fmt, TxVals(h[f], f, ops, |ops|)) {
      assert OneEach(fmt, h[f]);
      var vals := TxVals(h[f], f, ops, |ops|);
      forall a, b | a in vals && b in vals && a != b ensures Render(fmt, vals[a]) != Render(fmt, vals[b]) {
        NoSharedValue(fmt, uniq, h, ops, f, a, b);
      }
    }
  }

  /** A batch refused by nothing keeps uniqueness and the record limit. */
  lemma AcceptedKeeps(cfg: Config, uniq: set<string>, h: Held, v: View, size: nat, ops: seq<TxOp>, bytes: nat)
    requires !TargetMissing(v, ops) && !BatchClash(cfg.fmt, uniq, h, ops)
    requires InsertCount(ops, |ops|) == 0 || WithinQuota(cfg, |v|, size, InsertCount(ops, |ops|), bytes)
    ensures Keeps(cfg, uniq, h, TxHeld(h, ops, |ops|), v, TxView(v, ops, |ops|))
  {
    hide TxHeld, TxView, TargetMissing, BatchClash, UniqueHeld, InsertCount;
    if UniqueHeld(cfg.fmt, uniq, h) { BatchKeepsUnique(cfg.fmt, uniq, h, ops); }
    BatchCount(v, ops);
  }

  // ---- The byte limit -----------------------------------------------------------------

  /** InsertMany asks the quota for exactly the bytes it appends. */
  lemma {:induction false} ManyBytes(cfg: Config, v: View, ops: seq<TxOp>, n: nat)
    requires n <= |ops| && cfg.maxBytes > 0 && forall i | 0 <= i < |ops| :: ops[i].TxInsert?
    ensures Bytes(cfg.len, TxEntries(v, ops, n)) == InsertBytes(cfg, ops, n, true)
  {
    if n > 0 {
      ManyBytes(cfg, v, ops, n - 1);
      var es := TxEntries(v, ops, n);
      assert es[..|es| - 1] == TxEntries(v, ops, n - 1);
    }
  }

  lemma {:induction false} EveryInsert(ops: seq<TxOp>, n: nat)
    requires n <= |ops| && forall i | 0 <= i < |ops| :: ops[i].TxInsert?
    ensures InsertCount(ops, n) == n
  {
    if n > 0 { EveryInsert(ops, n - 1); }
  }

  /** The collection has room for these lines: both limits, in plain terms. */
  predicate RoomFor(cfg: Config, v: View, size: nat, es: seq<Entry>) {
    && (cfg.maxRecords == 0 || |v| + |es| <= cfg.maxRecords)
    && (cfg.maxBytes == 0 || size + Bytes(cfg.len, es) <= cfg.maxBytes)
  }

  lemma {:induction false} LineEach(v: View, ops: seq<TxOp>, n: nat)
    requires n <= |ops|
    ensures |TxEntries(v, ops, n)| == n
  {
    if n > 0 { LineEach(v, ops, n - 1); }
  }

  /** InsertMany accepts exactly the batches whose lines there is room for, that can all be sealed
      and that repeat no unique value. */
  lemma ManyAccepted(cfg: Config, uniq: set<string>, h: Held, v: View, size: nat, ops: seq<TxOp>)
    requires ops != [] && forall i | 0 <= i < |ops| :: ops[i].TxInsert?
    ensures ManyVerdict(cfg, uniq, h, v, size, ops).None? <==>
            && (forall i | 0 <= i < |ops| :: ops[i].doc.sealable) && !BatchClash(cfg.fmt, uniq, h, ops)
            && RoomFor(cfg, v, size, TxEntries(v, ops, |ops|))
  {
    hide BatchClash, TxEntries, Bytes, InsertBytes;
    LineEach(v, ops, |ops|);
    if cfg.maxBytes > 0 { ManyBytes(cfg, v, ops, |ops|); }
  }

  /** An insert whose record is stored as it is. */
  predicate PlainInsert(op: TxOp) {
    op.TxInsert? && op.doc.stored == op.doc.plain && op.doc.epoch == 0 && op.doc.sealable
  }

  /** The same batch, measured as it will be stored when nothing is sealed. */
  lemma {:induction false} SameBytes(cfg: Config, ops: seq<TxOp>, n: nat)
    requires n <= |ops| && forall i | 0 <= i < |ops| :: PlainInsert(ops[i])
    ensures InsertBytes(cfg, ops, n, false) == InsertBytes(cfg, ops, n, true)
  {
    if n > 0 { SameBytes(cfg, ops, n - 1); }
  }

  /** Where nothing is sealed a transaction of insertions is accepted exactly when there is room for
      its lines and it repeats no unique value. */
  lemma TxAcceptedPlain(cfg: Config, uniq: set<string>, h: Held, v: View, size: nat, ops: seq<TxOp>)
    requires ops != [] && forall i | 0 <= i < |ops| :: PlainInsert(ops[i])
    ensures TxVerdict(cfg, uniq, h, v, size, ops).None? <==>
            !BatchClash(cfg.fmt, uniq, h, ops) && RoomFor(cfg, v, size, TxEntries(v, ops, |ops|))
  {
    hide BatchClash, TxEntries, Bytes, InsertBytes, InsertCount;
    LineEach(v, ops, |ops|);
    EveryInsert(ops, |ops|);
    SameBytes(cfg, ops, |ops|);
    if cfg.maxBytes > 0 { ManyBytes(cfg, v, ops, |ops|); }
  }

  lemma {:induction false} NoInserts(ops: seq<TxOp>, n: nat)
    requires n <= |ops| && forall i | 0 <= i < |ops| :: !ops[i].TxInsert?
    ensures InsertCount(ops, n) == 0
  {
    if n > 0 { NoInserts(ops, n - 1); }
  }

  /** A transaction that inserts nothing never meets the quota: it is accepted exactly when every
      record it names is live, everything can be sealed and no unique value is repeated. */
  lemma TxAcceptedChanges(cfg: Config, uniq: set<string>, h: Held, v: View, size: nat, ops: seq<TxOp>)
    requires forall i | 0 <= i < |ops| :: !ops[i].TxInsert?
    ensures TxVerdict(cfg, uniq, h, v, size, ops).None? <==>
            && (forall i | 0 <= i < |ops| :: ops[i].id in v && (ops[i].TxUpdate? ==> ops[i].doc.sealable))
            && !BatchClash(cfg.fmt, uniq, h, ops)
  {
    hide BatchClash, InsertCount;
    NoInserts(ops, |ops|);
  }

  /** What a transaction is refused for, in the order it is asked. */
  lemma TxRefused(cfg: Config, uniq: set<string>, h: Held, v: View, size: nat, ops: seq<TxOp>)
    ensures TxVerdict(cfg, uniq, h, v, size, ops) == Some(NotFound) <==>
            exists i | 0 <= i < |ops| :: !ops[i].TxInsert? && ops[i].id !in v
    ensures TxVerdict(cfg, uniq, h, v, size, ops) == Some(Duplicate) <==>
            BatchClash(cfg.fmt, uniq, h, ops) && forall i | 0 <= i < |ops| && !ops[i].TxInsert? :: ops[i].id in v
    ensures (exists i | 0 <= i < |ops| :: !ops[i].TxDelete? && !ops[i].doc.sealable) ==>
              TxVerdict(cfg, uniq, h, v, size, ops).Some?
  {
    hide BatchClash, InsertCount, InsertBytes, WithinQuota;
  }

  /** An accepted InsertMany stays within the byte limit. */
  lemma ManyFits(cfg: Config, uniq: set<string>, h: Held, v: View, size: nat, ops: seq<TxOp>)
    requires ManyVerdict(cfg, uniq, h, v, size, ops).None? && ops != [] && forall i | 0 <= i < |ops| :: ops[i].TxInsert?
    ensures cfg.maxBytes > 0 ==> size + Bytes(cfg.len, TxEntries(v, ops, |ops|)) <= cfg.maxBytes
  {
    if cfg.maxBytes > 0 { ManyBytes(cfg, v, ops, |ops|); }
  }

  /** CommitTx measures the plaintext. For any encoding of lines, any collection and any
      record: where the plaintext line fits under the byte limit and the sealed one does not,
      a transaction that inserts the record is accepted and takes the collection past it. */
  lemma TxOverfills(cfg: Config, uniq: set<string>, h: Held, v: View, size: nat, op: TxOp)
    requires op.TxInsert? && op.doc.sealable && !Clash(cfg.fmt, uniq, h, op.id, op.doc.plain)
    requires cfg.maxRecords == 0 || |v| < cfg.maxRecords
    requires size + cfg.len(Entry(op.id, Op.Insert, op.ts, 1, op.doc.plain, 0, op.exp)) <= cfg.maxBytes
    requires size + cfg.len(Entry(op.id, Op.Insert, op.ts, 1, op.doc.stored, op.doc.epoch, op.exp)) > cfg.maxBytes
    ensures TxVerdict(cfg, uniq, h, v, size, [op]).None?
    ensures size + Bytes(cfg.len, TxEntries(v, [op], 1)) > cfg.maxBytes
  {
    hide Clash, BatchClash, TxEntries, Bytes, InsertCount, InsertBytes;
    OneInsert(cfg, v, op);
    OneClash(cfg.fmt, uniq, h, op);
  }

  lemma OneInsert(cfg: Config, v: View, op: TxOp)
    requires op.TxInsert?
    ensures InsertCount([op], 1) == 1 && InsertBytes(cfg, [op], 1, false) == OpBytes(cfg, op, false)
    ensures Bytes(cfg.len, TxEntries(v, [op], 1)) == cfg.len(NewRecord(op.id, op.ts, op.doc, op.exp))
  {
    assert InsertCount([op], 0) == 0 && InsertBytes(cfg, [op], 0, false) == 0;
    var es := TxEntries(v, [op], 1);
    assert es == TxEntries(v, [op], 0) + [NewRecord(op.id, op.ts, op.doc, op.exp)];
    assert es[..0] == [] && Bytes(cfg.len, es) == Bytes(cfg.len, es[..0]) + cfg.len(es[0]);
  }

  lemma OneClash(fmt: RawFormat, uniq: set<string>, h: Held, op: TxOp)
    requires op.TxInsert?
    ensures BatchClash(fmt, uniq, h, [op]) <==> Clash(fmt, uniq, h, op.id, op.doc.plain)
  {
    hide Taken, Render;
    assert BatchClash(fmt, uniq, h, [op]) <==> OpClash(fmt, uniq, h, [op], 0);
  }
}
