/** What each operation of a collection does, as a relation between the states before and after
    it, and what every run of such steps keeps. */
module Steps {
  import opened Common
  import opened Values
  import opened Log
  import opened Compaction
  import opened Store
  import opened SecondaryIndexes
  import opened Writes
  import opened Batches
  import opened Collections
  import opened Passes
  import Swap

  /** An operation added to an open transaction; an insert takes its id from the counter. */
  datatype Stage =
      StageInsert(doc: Doc, ts: int, exp: int) | StageUpdate(id: nat, doc: Doc, ts: int) | StageDelete(id: nat, ts: int)

  datatype Action =
    | DoInsert(doc: Doc, ts: int, exp: int)
    | DoInsertMany(docs: seq<Doc>, ts: int, exp: int)
    | DoUpdate(id: nat, doc: Doc, ts: int, exp: int, keepExpiry: bool)
    | DoDelete(id: nat, ts: int)
    | DoUpsert(key: string, doc: Doc, ts: int, exp: int)
    | UpdateIfRev(key: string, expected: nat, readable: Entry -> bool, doc: Doc, ts: int)
    | DoBegin(tx: nat)
    | DoStage(tx: nat, stage: Stage)
    | DoCommit(tx: nat)
    | DoRollback(tx: nat)
    | DoApply(e: Entry)
    | DoReap(now: int)
    | DoRotate
    | DoEnsureIndex(field: string, unique: bool, encrypted: bool)
    | BeginCompact(now: int, maxSize: int, reseal: Entry -> Option<Entry>)
    | FinishCompact
  {
    predicate IsWrite() { DoInsert? || DoInsertMany? || DoUpdate? || DoDelete? || DoUpsert? || UpdateIfRev? }
    predicate InTransaction() { DoBegin? || DoStage? || DoCommit? || DoRollback? }
    predicate IsUpkeep() { DoApply? || DoReap? || DoRotate? || DoEnsureIndex? }
  }

  /** Open transactions by handle. */
  type Open = map<nat, seq<TxOp>>

  /** The state of a collection, of its open transactions, and of the pass under way with the
      entries it resolved. */
  datatype Snap = Snap(sealed: seq<Segment>, active: Segment, log: seq<Entry>, view: View, held: Held, uniq: set<string>,
                       hist: seq<Entry>, published: seq<Entry>, size: nat, idSeq: nat,
                       open: Open, pass: Option<Pass>, out: seq<Entry>)

  // ---- The steps ------------------------------------------------------------------------

  /** Lines appended together and not rotated after. */
  function Appends(cfg: Config, s: Snap, es: seq<Entry>, w: View, h: Held): Snap {
    s.(active := Extended(s.active, es), log := s.log + es, view := w, held := h, hist := s.hist + es,
       size := s.size + Bytes(cfg.len, es))
  }

  function Lands(cfg: Config, s: Snap, es: seq<Entry>, w: View, h: Held): Snap {
    var (sealed, active) := Landed(cfg, s.sealed, s.active, es);
    Appends(cfg, s, es, w, h).(sealed := sealed, active := active)
  }

  /** Lines committed together and published. */
  function Commits(cfg: Config, s: Snap, es: seq<Entry>, w: View, h: Held): Snap {
    Lands(cfg, s, es, w, h).(published := s.published + es)
  }

  predicate InsertRan(cfg: Config, doc: Doc, ts: int, exp: int, s: Snap, t: Snap, answer: bool) {
    var e, next := NewRecord(s.idSeq + 1, ts, doc, exp), s.(idSeq := s.idSeq + 1);
    && answer == InsertVerdict(cfg, s.uniq, s.held, |s.view|, s.size, e, doc).Done?
    && t == if answer then Commits(cfg, next, [e], s.view[e.id := e], PutHeld(s.held, e.id, doc.plain)) else next
  }

  predicate ManyRan(cfg: Config, docs: seq<Doc>, ts: int, exp: int, s: Snap, t: Snap, answer: bool) {
    var ops, next := InsertOps(docs, ts, exp, s.idSeq), s.(idSeq := s.idSeq + TakenIds(docs));
    if exists i | 0 <= i < |docs| :: KEY in docs[i].plain then !answer && t == s
    else
      && answer == ManyVerdict(cfg, s.uniq, s.held, s.view, s.size, ops).None?
      && t == if answer then BatchCommits(cfg, next, ops) else next
  }

  function BatchCommits(cfg: Config, s: Snap, ops: seq<TxOp>): Snap {
    Commits(cfg, s, TxEntries(s.view, ops, |ops|), TxView(s.view, ops, |ops|), TxHeld(s.held, ops, |ops|))
  }

  predicate UpdateRan(cfg: Config, id: nat, doc: Doc, ts: int, exp: int, keepExpiry: bool, s: Snap, t: Snap, answer: bool) {
    && answer == UpdateVerdict(cfg.fmt, s.uniq, s.held, s.view, id, doc).Done?
    && t == if answer then Revision(cfg, s, id, doc, ts, if keepExpiry then s.view[id].expiresAt else exp) else s
  }

  function Revision(cfg: Config, s: Snap, id: nat, doc: Doc, ts: int, exp: int): Snap
    requires id in s.view
  {
    var e := Revised(id, s.view[id], ts, doc, exp);
    Commits(cfg, s, [e], s.view[id := e], PutHeld(s.held, id, doc.plain))
  }

  /** A delete never rotates. */
  predicate DeleteRan(cfg: Config, id: nat, ts: int, s: Snap, t: Snap, answer: bool) {
    var e := Tombstone(id, ts);
    && answer == (id in s.view)
    && t == if answer then Appends(cfg, s, [e], s.view - {id}, DropHeld(s.held, id)).(published := s.published + [e]) else s
  }

  /** The state once there is an index on the key. */
  function OnField(s: Snap, f: string, unique: bool): Snap {
    s.(held := WithIndex(s.held, f, s.view), uniq := s.uniq + if unique && f !in s.held then {f} else {})
  }

  ghost predicate UpsertRan(cfg: Config, key: string, doc: Doc, ts: int, exp: int, s: Snap, t: Snap, answer: bool) {
    var s', keyed := OnField(s, KEY, true), Stamped(doc, key);
    if KEY in doc.plain then !answer && t == s
    else exists r :: Upserts(cfg, key, keyed, ts, exp, s', t, r) && answer == r.Done?
  }

  ghost predicate Upserts(cfg: Config, key: string, doc: Doc, ts: int, exp: int, s: Snap, t: Snap, r: Outcome) {
    var next := s.(idSeq := s.idSeq + if AnyKeyed(cfg.fmt, s.held, key) then 0 else 1);
    && UpsertAllowed(cfg, s.uniq, s.held, |s.view|, s.size, s.idSeq, key, doc, ts, exp, r)
    && (r.Done? ==> r.id in s.view || r.id == next.idSeq == s.idSeq + 1)
    && t == if r.Done? then
              var e := UpsertLine(s.view, r.id, doc, ts, exp);
              Commits(cfg, next, [e], s.view[r.id := e], PutHeld(s.held, r.id, doc.plain))
            else next
  }

  /** The condition of UpdateIfRev. */
  function AtRev(expected: nat): Entry -> bool {
    (cur: Entry) => cur.rev == expected
  }

  ghost predicate SwapRan(cfg: Config, key: string, expected: nat, readable: Entry -> bool, doc: Doc, ts: int, s: Snap,
                          t: Snap, answer: bool) {
    exists r :: Swaps(cfg, key, expected, readable, doc, ts, s, t, r) && answer == r.Done?
  }

  ghost predicate Swaps(cfg: Config, key: string, expected: nat, readable: Entry -> bool, doc: Doc, ts: int, s: Snap, t: Snap,
                        r: Outcome) {
    && SwapAllowed(cfg.fmt, s.uniq, s.held, s.view, key, readable, AtRev(expected), doc, r)
    && (r.Done? ==> r.id in s.view)
    && t == if r.Done? then Revision(cfg, s, r.id, Stamped(doc, key), ts, s.view[r.id].expiresAt) else s
  }

  /** Begin, stage, commit and roll back; actions on a handle that is not open are refused. */
  predicate TransactionRan(cfg: Config, a: Action, s: Snap, t: Snap, answer: bool)
    requires a.InTransaction()
  {
    match a
    case DoBegin(tx) => answer == (tx !in s.open) && t == if answer then s.(open := s.open[tx := []]) else s
    case DoStage(tx, stage) => answer == (tx in s.open) && t == if answer then Staged(s, tx, stage) else s
    case DoCommit(tx) =>
      && answer == (tx in s.open && TxVerdict(cfg, s.uniq, s.held, s.view, s.size, s.open[tx]).None?)
      && t == (if answer then BatchCommits(cfg, s, s.open[tx]) else s).(open := s.open - {tx})
    case DoRollback(tx) => answer == (tx in s.open) && t == s.(open := s.open - {tx})
  }

  function Staged(s: Snap, tx: nat, stage: Stage): Snap
    requires tx in s.open
  {
    var ops := s.open[tx];
    match stage
    case StageInsert(doc, ts, exp) => s.(idSeq := s.idSeq + 1, open := s.open[tx := ops + [TxInsert(s.idSeq + 1, doc, ts, exp)]])
    case StageUpdate(id, doc, ts) => s.(open := s.open[tx := ops + [TxUpdate(id, doc, ts)]])
    case StageDelete(id, ts) => s.(open := s.open[tx := ops + [TxDelete(id, ts)]])
  }

  predicate ApplyRan(cfg: Config, e: Entry, s: Snap, t: Snap, answer: bool) {
    var s' := if KEY in e.data then OnField(s, KEY, true) else s;
    && answer == !Present(s.view, e)
    && t == if answer then
              Lands(cfg, s', [e], Apply(s.view, e),
                    if e.op.Delete? then DropHeld(s'.held, e.id) else PutHeld(s'.held, e.id, e.data))
                .(idSeq := if e.id > s.idSeq then e.id else s.idSeq)
            else s'
  }

  ghost predicate ReapRan(cfg: Config, now: int, s: Snap, t: Snap) {
    exists drops :: Reaps(cfg, now, s, t, drops)
  }

  ghost predicate Reaps(cfg: Config, now: int, s: Snap, t: Snap, drops: seq<Entry>) {
    var ids := ExpiredIds(s.view, now);
    TombstonesOf(drops, ids, now) && t == Lands(cfg, s, drops, s.view - ids, DropAll(s.held, ids))
  }

  ghost predicate UpkeepRan(cfg: Config, a: Action, s: Snap, t: Snap, answer: bool)
    requires a.IsUpkeep()
  {
    match a
    case DoApply(e) => ApplyRan(cfg, e, s, t, answer)
    case DoReap(now) => answer && ReapRan(cfg, now, s, t)
    case DoRotate => answer && t == s.(sealed := s.sealed + [s.active], active := Segment(s.active.num + 1, []))
    case DoEnsureIndex(field, unique, encrypted) => answer == !encrypted && t == if answer then OnField(s, field, unique) else s
  }

  /** A pass begins unless one is under way, nothing is sealed, or re-sealing fails. */
  ghost predicate BeginRan(now: int, reseal: Entry -> Option<Entry>, s: Snap, t: Snap, answer: bool) {
    if s.pass.Some? || s.sealed == [] then !answer && t == s
    else exists out, temps :: Begins(now, reseal, s, t, answer, out, temps)
  }

  ghost predicate Begins(now: int, reseal: Entry -> Option<Entry>, s: Snap, t: Snap, answer: bool, out: seq<Entry>,
                         temps: seq<Swap.TempSeg>)
  {
    && Survivors(out, Entries(s.sealed), now)
    && answer == (forall i | 0 <= i < |out| :: reseal(out[i]).Some?)
    && if answer then
         var q := Pass(s.sealed, temps, now);
         && Holding(q, out) && (forall i | 0 <= i < |out| :: reseal(out[i]) == Some(Swap.Contents(temps)[i]))
         && t == s.(pass := Some(q), out := out)
       else t == s
  }

  /** It ends with the compacted segments in place, if they stay clear of the active one and no
      other segment was sealed in the meantime. */
  ghost predicate FinishRan(cfg: Config, s: Snap, t: Snap, answer: bool) {
    if s.pass.None? then !answer && t == s
    else answer && exists drops :: Finishes(cfg, s, t, drops)
  }

  ghost predicate Finishes(cfg: Config, s: Snap, t: Snap, drops: seq<Entry>)
    requires s.pass.Some?
  {
    var q := s.pass.value;
    var cut, gone := Swap.Compacted(q.temps), ReclaimedIds(Entries(q.sealed), s.active.entries, q.now);
    && !Breaks(s)
    && t == s.(sealed := cut, log := Entries(cut) + s.active.entries, view := t.view, held := HeldOf(s.held.Keys, t.view),
               hist := s.hist + drops, size := TotalBytes(cfg.len, cut, s.active), pass := None, out := [])
    && t.view == Replay(t.log) && Compacted(s.view, t.view, gone) && (s.out == Entries(cut) ==> t.view == s.view - gone)
    && AllDeletes(drops) && (gone == {} ==> drops == [])
  }

  /** The pass under way would overwrite the active segment or drop one it does not know. */
  predicate Breaks(s: Snap) {
    s.pass.Some? && (|s.pass.value.temps| >= s.active.num || s.sealed != s.pass.value.sealed)
  }

  /** The step an action takes, and what the call answers. */
  ghost predicate Ran(cfg: Config, a: Action, s: Snap, t: Snap, answer: bool) {
    if a.InTransaction() then TransactionRan(cfg, a, s, t, answer)
    else if a.IsUpkeep() then UpkeepRan(cfg, a, s, t, answer)
    else match a
    case DoInsert(doc, ts, exp) => InsertRan(cfg, doc, ts, exp, s, t, answer)
    case DoInsertMany(docs, ts, exp) => ManyRan(cfg, docs, ts, exp, s, t, answer)
    case DoUpdate(id, doc, ts, exp, keepExpiry) => UpdateRan(cfg, id, doc, ts, exp, keepExpiry, s, t, answer)
    case DoDelete(id, ts) => DeleteRan(cfg, id, ts, s, t, answer)
    case DoUpsert(key, doc, ts, exp) => UpsertRan(cfg, key, doc, ts, exp, s, t, answer)
    case UpdateIfRev(key, expected, readable, doc, ts) => SwapRan(cfg, key, expected, readable, doc, ts, s, t, answer)
    case BeginCompact(now, _, reseal) => BeginRan(now, reseal, s, t, answer)
    case FinishCompact => FinishRan(cfg, s, t, answer)
    case _ => false
  }

  /** A run: the answers of its calls and the states between them. */
  ghost predicate IsRunOf(cfg: Config, acts: seq<Action>, answers: seq<bool>, snaps: seq<Snap>) {
    && |answers| <= |acts| && |snaps| == |answers| + 1
    && forall i | 0 <= i < |answers| :: Ran(cfg, acts[i], snaps[i], snaps[i + 1], answers[i])
  }

  /** The action is one a collection may be given: replicated writes carry a revision, segments
      have a positive size limit, and re-sealing changes data and epoch only. */
  ghost predicate Sane(a: Action) {
    match a
    case DoApply(e) => e.op.Delete? || e.rev >= 1
    case BeginCompact(_, maxSize, reseal) => maxSize > 0 && Reseals(reseal)
    case _ => true
  }

  /** What holds of the state of every valid collection. */
  ghost predicate SnapOk(s: Snap) {
    && Filed(s) && s.view == Replay(s.log) && WellFormed(s.hist)
    && (s.pass.Some? ==> Holding(s.pass.value, s.out) && s.pass.value.sealed <= s.sealed)
  }

  // ---- Growth --------------------------------------------------------------------------------

  /** The segments after an operation that is no pass: lines were appended to the active one, and
      it may have been sealed. */
  predicate GrewTo(sealed: seq<Segment>, active: Segment, sealed': seq<Segment>, active': Segment) {
    if |sealed'| == |sealed| then sealed' == sealed && active'.num == active.num && active.entries <= active'.entries
    else
      && |sealed'| == |sealed| + 1 && sealed'[..|sealed|] == sealed && active' == Segment(active.num + 1, [])
      && sealed'[|sealed|].num == active.num && active.entries <= sealed'[|sealed|].entries
  }

  lemma LandedGrew(cfg: Config, sealed: seq<Segment>, active: Segment, es: seq<Entry>)
    ensures GrewTo(sealed, active, sealed + [active], Segment(active.num + 1, []))
    ensures var (sealed', active') := Landed(cfg, sealed, active, es); GrewTo(sealed, active, sealed', active')
  {
  }

  /** Nothing committed is taken back, nothing published is, and the counter never falls. */
  predicate Onward(s: Snap, t: Snap) {
    s.hist <= t.hist && s.published <= t.published && s.idSeq <= t.idSeq
  }

  /** The log is that of the segments. */
  predicate Filed(s: Snap) {
    s.log == Entries(s.sealed) + s.active.entries
  }

  predicate Extends(s: Snap, t: Snap) {
    && Onward(s, t) && GrewTo(s.sealed, s.active, t.sealed, t.active) && t.pass == s.pass && t.out == s.out
    && (Filed(s) ==> Filed(t))
  }

  lemma StaysExtend(s: Snap, t: Snap)
    requires t == s.(idSeq := t.idSeq, held := t.held, uniq := t.uniq, open := t.open) && s.idSeq <= t.idSeq
    ensures Extends(s, t)
  {
  }

  lemma AppendsExtend(cfg: Config, s: Snap, es: seq<Entry>, w: View, h: Held)
    ensures Extends(s, Appends(cfg, s, es, w, h)) && Extends(s, Appends(cfg, s, es, w, h).(published := s.published + es))
  {
    Regroup(Entries(s.sealed), s.active.entries, es);
  }

  lemma LandsExtend(cfg: Config, s: Snap, es: seq<Entry>, w: View, h: Held)
    ensures Extends(s, Lands(cfg, s, es, w, h)) && Extends(s, Commits(cfg, s, es, w, h))
  {
    hide Entries;
    AppendsExtend(cfg, s, es, w, h);
    assert s.active.entries + [] == s.active.entries && s.log + [] == s.log;
    EntriesSnoc(s.sealed, Extended(s.active, es));
    Regroup(Entries(s.sealed), s.active.entries, es);
    var past := Entries(s.sealed + [Extended(s.active, es)]);
    assert past + [] == past;
  }

  lemma ExtendsMore(s: Snap, s': Snap, t: Snap, t': Snap)
    requires Extends(s', t') && s' == s.(idSeq := s'.idSeq, held := s'.held, uniq := s'.uniq, open := s'.open)
    requires s.idSeq <= s'.idSeq
    requires t' == t.(open := t'.open, idSeq := t'.idSeq) && t'.idSeq <= t.idSeq
    ensures Extends(s, t)
  {
  }

  lemma SimpleExtends(cfg: Config, a: Action, s: Snap, t: Snap, answer: bool)
    requires (a.DoInsert? || a.DoInsertMany? || a.DoUpdate? || a.DoDelete?) && Ran(cfg, a, s, t, answer)
    ensures Extends(s, t)
  {
    hide Extends, InsertVerdict, Clash, ManyVerdict, Appends, Commits, TxEntries, TxView, TxHeld, PutHeld, DropHeld, TakenIds;
    StaysExtend(s, s);
    match a
    case DoInsert(doc, ts, exp) =>
      var e, next := NewRecord(s.idSeq + 1, ts, doc, exp), s.(idSeq := s.idSeq + 1);
      StaysExtend(s, next);
      LandsExtend(cfg, next, [e], s.view[e.id := e], PutHeld(s.held, e.id, doc.plain));
      if answer { ExtendsMore(s, next, t, t); }
    case DoInsertMany(docs, ts, exp) =>
      var ops, next := InsertOps(docs, ts, exp, s.idSeq), s.(idSeq := s.idSeq + TakenIds(docs));
      StaysExtend(s, next);
      LandsExtend(cfg, next, TxEntries(s.view, ops, |ops|), TxView(s.view, ops, |ops|), TxHeld(s.held, ops, |ops|));
      if answer { ExtendsMore(s, next, t, t); }
    case DoUpdate(id, doc, ts, exp, keep) =>
      if answer {
        var e := Revised(id, s.view[id], ts, doc, if keep then s.view[id].expiresAt else exp);
        LandsExtend(cfg, s, [e], s.view[id := e], PutHeld(s.held, id, doc.plain));
      }
    case DoDelete(id, ts) => AppendsExtend(cfg, s, [Tombstone(id, ts)], s.view - {id}, DropHeld(s.held, id));
  }

  lemma UpsertExtends(cfg: Config, key: string, doc: Doc, ts: int, exp: int, s: Snap, t: Snap, answer: bool)
    requires UpsertRan(cfg, key, doc, ts, exp, s, t, answer)
    ensures Extends(s, t)
  {
    hide Extends, UpsertAllowed, AnyKeyed, PutHeld, WithIndex, Stamped, Commits;
    StaysExtend(s, s);
    if KEY !in doc.plain {
      var s', keyed := OnField(s, KEY, true), Stamped(doc, key);
      var r :| Upserts(cfg, key, keyed, ts, exp, s', t, r) && answer == r.Done?;
      var next := s'.(idSeq := s.idSeq + if AnyKeyed(cfg.fmt, s'.held, key) then 0 else 1);
      StaysExtend(s, next);
      if r.Done? {
        var e := UpsertLine(s.view, r.id, keyed, ts, exp);
        LandsExtend(cfg, next, [e], s.view[r.id := e], PutHeld(s'.held, r.id, keyed.plain));
        ExtendsMore(s, next, t, t);
      }
    }
  }

  lemma SwapExtends(cfg: Config, key: string, expected: nat, readable: Entry -> bool, doc: Doc, ts: int, s: Snap, t: Snap,
                    answer: bool)
    requires SwapRan(cfg, key, expected, readable, doc, ts, s, t, answer)
    ensures Extends(s, t)
  {
    hide Extends, SwapAllowed, PutHeld, Stamped, Commits;
    StaysExtend(s, s);
    var r :| Swaps(cfg, key, expected, readable, doc, ts, s, t, r) && answer == r.Done?;
    if r.Done? {
      var e := Revised(r.id, s.view[r.id], ts, Stamped(doc, key), s.view[r.id].expiresAt);
      LandsExtend(cfg, s, [e], s.view[r.id := e], PutHeld(s.held, r.id, Stamped(doc, key).plain));
    }
  }

  lemma TransactionExtends(cfg: Config, a: Action, s: Snap, t: Snap, answer: bool)
    requires a.InTransaction() && TransactionRan(cfg, a, s, t, answer)
    ensures Extends(s, t)
  {
    hide Extends, TxVerdict, TxEntries, TxView, TxHeld, Commits;
    if a.DoCommit? && answer {
      var ops := s.open[a.tx];
      LandsExtend(cfg, s, TxEntries(s.view, ops, |ops|), TxView(s.view, ops, |ops|), TxHeld(s.held, ops, |ops|));
      ExtendsMore(s, s, t, BatchCommits(cfg, s, ops));
    } else {
      StaysExtend(s, t);
    }
  }

  lemma UpkeepExtends(cfg: Config, a: Action, s: Snap, t: Snap, answer: bool)
    requires a.IsUpkeep() && UpkeepRan(cfg, a, s, t, answer)
    ensures Extends(s, t)
  {
    hide Extends, Present, WithIndex, ExpiredIds, DropAll, TombstonesOf, Lands, PutHeld, DropHeld, Apply;
    match a
    case DoApply(e) =>
      var s' := if KEY in e.data then OnField(s, KEY, true) else s;
      var h := if e.op.Delete? then DropHeld(s'.held, e.id) else PutHeld(s'.held, e.id, e.data);
      StaysExtend(s, s');
      LandsExtend(cfg, s', [e], Apply(s.view, e), h);
      if answer {
        LandsIds(cfg, s', [e], Apply(s.view, e), h);
        ExtendsMore(s, s', t, Lands(cfg, s', [e], Apply(s.view, e), h));
      }
    case DoReap(now) =>
      var drops :| Reaps(cfg, now, s, t, drops);
      LandsExtend(cfg, s, drops, s.view - ExpiredIds(s.view, now), DropAll(s.held, ExpiredIds(s.view, now)));
    case DoRotate => RotateExtends(s, t);
    case DoEnsureIndex(_, _, _) => StaysExtend(s, t);
  }

  lemma LandsIds(cfg: Config, s: Snap, es: seq<Entry>, w: View, h: Held)
    ensures Lands(cfg, s, es, w, h).idSeq == s.idSeq
  {
  }

  lemma RotateExtends(s: Snap, t: Snap)
    requires t == s.(sealed := s.sealed + [s.active], active := Segment(s.active.num + 1, []))
    ensures Extends(s, t)
  {
    hide Entries;
    EntriesSnoc(s.sealed, s.active);
    assert Entries(t.sealed) + [] == Entries(t.sealed);
  }

  /** Every step but a pass's extends the segments, and leaves the pass under way alone. */
  lemma RanExtends(cfg: Config, a: Action, s: Snap, t: Snap, answer: bool)
    requires Ran(cfg, a, s, t, answer) && !a.BeginCompact? && !a.FinishCompact?
    ensures Extends(s, t)
  {
    hide Extends, UpsertRan, SwapRan, UpkeepRan, ManyRan, InsertRan, UpdateRan, DeleteRan, TransactionRan;
    match a
    case DoUpsert(key, doc, ts, exp) => UpsertExtends(cfg, key, doc, ts, exp, s, t, answer);
    case UpdateIfRev(key, expected, readable, doc, ts) => SwapExtends(cfg, key, expected, readable, doc, ts, s, t, answer);
    case _ =>
      if a.InTransaction() {
        TransactionExtends(cfg, a, s, t, answer);
      } else if a.IsUpkeep() {
        UpkeepExtends(cfg, a, s, t, answer);
      } else {
        SimpleExtends(cfg, a, s, t, answer);
      }
  }

  lemma RanGrows(cfg: Config, a: Action, s: Snap, t: Snap, answer: bool)
    requires Ran(cfg, a, s, t, answer)
    ensures Onward(s, t)
  {
    hide Ran, Survivors, Entries, Holding, Replay, Compacted, ReclaimedIds, HeldOf;
    if a.BeginCompact? || a.FinishCompact? {
      RanPass(cfg, a, s, t, answer);
    } else {
      RanExtends(cfg, a, s, t, answer);
    }
  }

  lemma RanPass(cfg: Config, a: Action, s: Snap, t: Snap, answer: bool)
    requires Ran(cfg, a, s, t, answer) && (a.BeginCompact? || a.FinishCompact?)
    ensures a.BeginCompact? ==> BeginRan(a.now, a.reseal, s, t, answer)
    ensures a.FinishCompact? ==> FinishRan(cfg, s, t, answer)
  {
  }

  // ---- Secondary indexes -----------------------------------------------------------------------

  predicate StageAgrees(s: Stage, fields: set<string>) {
    s.StageDelete? || Agrees(s.doc, fields)
  }

  /** Sealing leaves these fields alone in what the action writes, and it indexes no other. */
  predicate SealsOther(a: Action, fields: set<string>) {
    match a
    case DoInsert(doc, _, _) => Agrees(doc, fields)
    case DoInsertMany(docs, _, _) => forall i | 0 <= i < |docs| :: Agrees(docs[i], fields)
    case DoUpdate(_, doc, _, _, _) => Agrees(doc, fields)
    case DoUpsert(key, doc, _, _) => Agrees(Stamped(doc, key), fields)
    case UpdateIfRev(key, _, _, doc, _) => Agrees(Stamped(doc, key), fields)
    case DoStage(_, stage) => StageAgrees(stage, fields)
    case DoEnsureIndex(field, _, _) => field in fields
    case _ => true
  }

  predicate OpenAgrees(open: Open, fields: set<string>) {
    forall t | t in open :: AllAgree(open[t], fields)
  }

  /** The secondary indexes are on these fields and hold what a rebuild computes. */
  predicate Tidy(h: Held, v: View, fields: set<string>) {
    KEY in fields && h.Keys <= fields && Synced(h, v)
  }

  lemma AgreeLess(d: Doc, some: set<string>, all: set<string>)
    requires Agrees(d, all) && some <= all
    ensures Agrees(d, some)
  {
  }

  lemma WriteKeepsTidy(h: Held, v: View, e: Entry, doc: Doc, fields: set<string>)
    requires !e.op.Delete? && e.data == doc.stored && Tidy(h, v, fields) && Agrees(doc, fields)
    ensures Tidy(PutHeld(h, e.id, doc.plain), v[e.id := e], fields)
  {
    hide Synced, Agrees;
    AgreeLess(doc, h.Keys, fields);
    AgreesWhen(doc, Doc(doc.plain, e.data, e.epoch), h.Keys);
    SyncedIff(h, v, e, doc.plain);
  }

  lemma DropKeepsTidy(h: Held, v: View, id: nat, ts: int, fields: set<string>)
    requires Tidy(h, v, fields)
    ensures Tidy(DropHeld(h, id), v - {id}, fields)
  {
    SyncedDrop(h, v, Tombstone(id, ts));
  }

  lemma IndexKeepsTidy(h: Held, v: View, f: string, fields: set<string>)
    requires Tidy(h, v, fields) && f in fields
    ensures Tidy(WithIndex(h, f, v), v, fields)
  {
    SyncedMeans(h, v);
    SyncedMeans(WithIndex(h, f, v), v);
  }

  lemma BatchKeepsTidy(h: Held, v: View, ops: seq<TxOp>, fields: set<string>)
    requires Tidy(h, v, fields) && AllAgree(ops, fields)
    ensures Tidy(TxHeld(h, ops, |ops|), TxView(v, ops, |ops|), fields)
  {
    hide Synced, Agrees;
    forall i | 0 <= i < |ops| && IsWrite(ops[i]) ensures Agrees(ops[i].doc, h.Keys) {
      AgreeLess(ops[i].doc, h.Keys, fields);
    }
    BatchSynced(h, v, ops, |ops|);
  }

  lemma ReapKeepsTidy(h: Held, v: View, ids: set<nat>, fields: set<string>)
    requires Tidy(h, v, fields)
    ensures Tidy(DropAll(h, ids), v - ids, fields)
  {
    SyncedMeans(h, v);
    SyncedMeans(DropAll(h, ids), v - ids);
    forall f | f in h ensures DropAll(h, ids)[f] == FieldVals(f, v - ids) {
      assert h[f] == FieldVals(f, v);
    }
  }

  lemma RebuiltIsTidy(keys: set<string>, v: View, fields: set<string>)
    requires KEY in fields && keys <= fields
    ensures Tidy(HeldOf(keys, v), v, fields)
  {
    assert HeldOf(keys, v).Keys == keys;
  }

  lemma UpsertTidy(cfg: Config, key: string, doc: Doc, ts: int, exp: int, s: Snap, t: Snap, answer: bool, fields: set<string>)
    requires UpsertRan(cfg, key, doc, ts, exp, s, t, answer) && Tidy(s.held, s.view, fields) && Agrees(Stamped(doc, key), fields)
    ensures Tidy(t.held, t.view, fields)
  {
    hide Tidy, Agrees, UpsertAllowed, AnyKeyed, PutHeld, WithIndex, Stamped;
    if KEY !in doc.plain {
      var r :| Upserts(cfg, key, Stamped(doc, key), ts, exp, OnField(s, KEY, true), t, r) && answer == r.Done?;
      KeyIsField(s.held, s.view, fields);
      IndexKeepsTidy(s.held, s.view, KEY, fields);
      if r.Done? {
        WriteKeepsTidy(WithIndex(s.held, KEY, s.view), s.view, UpsertLine(s.view, r.id, Stamped(doc, key), ts, exp),
                       Stamped(doc, key), fields);
      }
    }
  }

  lemma KeyIsField(h: Held, v: View, fields: set<string>)
    requires Tidy(h, v, fields)
    ensures KEY in fields && h.Keys <= fields
  {
  }

  lemma SwapTidy(cfg: Config, key: string, expected: nat, readable: Entry -> bool, doc: Doc, ts: int, s: Snap, t: Snap,
                 answer: bool,
                 fields: set<string>)
    requires SwapRan(cfg, key, expected, readable, doc, ts, s, t, answer) && Tidy(s.held, s.view, fields)
    requires Agrees(Stamped(doc, key), fields)
    ensures Tidy(t.held, t.view, fields)
  {
    hide Tidy, Agrees, SwapAllowed, PutHeld, Stamped;
    var r :| Swaps(cfg, key, expected, readable, doc, ts, s, t, r) && answer == r.Done?;
    if r.Done? {
      WriteKeepsTidy(s.held, s.view, Revised(r.id, s.view[r.id], ts, Stamped(doc, key), s.view[r.id].expiresAt),
                     Stamped(doc, key), fields);
    }
  }

  lemma ManyTidy(cfg: Config, docs: seq<Doc>, ts: int, exp: int, s: Snap, t: Snap, answer: bool, fields: set<string>)
    requires ManyRan(cfg, docs, ts, exp, s, t, answer) && Tidy(s.held, s.view, fields)
    requires forall i | 0 <= i < |docs| :: Agrees(docs[i], fields)
    ensures Tidy(t.held, t.view, fields)
  {
    hide Tidy, Agrees, ManyVerdict, TxView, TxHeld, TxEntries, TakenIds;
    BatchKeepsTidy(s.held, s.view, InsertOps(docs, ts, exp, s.idSeq), fields);
  }

  lemma UpkeepTidy(cfg: Config, a: Action, s: Snap, t: Snap, answer: bool, fields: set<string>)
    requires a.IsUpkeep() && UpkeepRan(cfg, a, s, t, answer) && Tidy(s.held, s.view, fields) && SealsOther(a, fields)
    ensures Tidy(t.held, t.view, fields)
  {
    hide Tidy, PutHeld, DropHeld, WithIndex, Present, ExpiredIds, DropAll, TombstonesOf;
    KeyIsField(s.held, s.view, fields);
    match a
    case DoApply(e) =>
      IndexKeepsTidy(s.held, s.view, KEY, fields);
      var h := if KEY in e.data then WithIndex(s.held, KEY, s.view) else s.held;
      if e.op.Delete? {
        DropKeepsTidy(h, s.view, e.id, e.ts, fields);
      } else {
        PlainAgrees(e, fields);
        WriteKeepsTidy(h, s.view, e, Doc(e.data, e.data, e.epoch), fields);
      }
    case DoReap(now) => ReapKeepsTidy(s.held, s.view, ExpiredIds(s.view, now), fields);
    case DoRotate =>
    case DoEnsureIndex(field, unique, encrypted) => IndexKeepsTidy(s.held, s.view, field, fields);
  }

  lemma PlainAgrees(e: Entry, fields: set<string>)
    ensures Agrees(Doc(e.data, e.data, e.epoch), fields)
  {
  }

  lemma SimpleTidy(cfg: Config, a: Action, s: Snap, t: Snap, answer: bool, fields: set<string>)
    requires (a.DoInsert? || a.DoUpdate? || a.DoDelete?) && Ran(cfg, a, s, t, answer)
    requires Tidy(s.held, s.view, fields) && SealsOther(a, fields)
    ensures Tidy(t.held, t.view, fields)
  {
    hide Tidy, Agrees, InsertVerdict, Clash, PutHeld, DropHeld, Landed, Bytes;
    match a
    case DoInsert(doc, ts, exp) =>
      if answer { WriteKeepsTidy(s.held, s.view, NewRecord(s.idSeq + 1, ts, doc, exp), doc, fields); }
    case DoUpdate(id, doc, ts, exp, keep) =>
      if answer {
        var e := Revised(id, s.view[id], ts, doc, if keep then s.view[id].expiresAt else exp);
        WriteKeepsTidy(s.held, s.view, e, doc, fields);
      }
    case DoDelete(id, ts) => DropKeepsTidy(s.held, s.view, id, ts, fields);
  }

  lemma TransactionTidy(cfg: Config, a: Action, s: Snap, t: Snap, answer: bool, fields: set<string>)
    requires a.InTransaction() && TransactionRan(cfg, a, s, t, answer) && Tidy(s.held, s.view, fields)
    requires OpenAgrees(s.open, fields)
    requires SealsOther(a, fields)
    ensures Tidy(t.held, t.view, fields) && OpenAgrees(t.open, fields)
  {
    hide Tidy, Agrees, TxVerdict, TxView, TxHeld, TxEntries, Landed, Bytes;
    if a.DoCommit? && answer { BatchKeepsTidy(s.held, s.view, s.open[a.tx], fields); }
  }

  lemma FinishTidy(cfg: Config, s: Snap, t: Snap, answer: bool, fields: set<string>)
    requires FinishRan(cfg, s, t, answer) && Tidy(s.held, s.view, fields)
    ensures Tidy(t.held, t.view, fields)
  {
    hide Tidy, HeldOf, Replay, Compacted, ReclaimedIds;
    KeyIsField(s.held, s.view, fields);
    RebuiltIsTidy(s.held.Keys, t.view, fields);
  }

  /** If sealing leaves the indexed fields alone, the live indexes stay what a rebuild computes. */
  lemma RanTidy(cfg: Config, a: Action, s: Snap, t: Snap, answer: bool, fields: set<string>)
    requires Ran(cfg, a, s, t, answer) && Tidy(s.held, s.view, fields) && SealsOther(a, fields) && OpenAgrees(s.open, fields)
    ensures Tidy(t.held, t.view, fields) && OpenAgrees(t.open, fields)
  {
    hide Tidy, Agrees, OpenAgrees, UpsertRan, SwapRan, UpkeepRan, ManyRan, InsertRan, UpdateRan, DeleteRan, TransactionRan,
         FinishRan, Survivors, Stamped, Holding;
    if !a.InTransaction() { OpenStays(cfg, a, s, t, answer); }
    match a
    case DoInsertMany(docs, ts, exp) => ManyTidy(cfg, docs, ts, exp, s, t, answer, fields);
    case DoUpsert(key, doc, ts, exp) => UpsertTidy(cfg, key, doc, ts, exp, s, t, answer, fields);
    case UpdateIfRev(key, expected, readable, doc, ts) => SwapTidy(cfg, key, expected, readable, doc, ts, s, t, answer, fields);
    case BeginCompact(_, _, _) =>
    case FinishCompact => FinishTidy(cfg, s, t, answer, fields);
    case _ =>
      if a.InTransaction() {
        TransactionTidy(cfg, a, s, t, answer, fields);
      } else if a.IsUpkeep() {
        UpkeepTidy(cfg, a, s, t, answer, fields);
      } else {
        SimpleTidy(cfg, a, s, t, answer, fields);
      }
  }

  lemma OpenStays(cfg: Config, a: Action, s: Snap, t: Snap, answer: bool)
    requires Ran(cfg, a, s, t, answer) && !a.InTransaction()
    ensures t.open == s.open
  {
    hide InsertVerdict, Clash, TxVerdict, ManyVerdict, PutHeld, DropHeld, TxView, TxHeld, TxEntries, Holding, Stamped,
         Survivors, Compacted, ReclaimedIds, HeldOf, Replay, UpsertAllowed, SwapAllowed, Landed, Bytes, NewRecord, WithIndex,
         TombstonesOf;
  }

  // ---- What is published ----------------------------------------------------------------------

  /** The action ships what it commits: no deadline, no replicated entry, no re-sealing. */
  ghost predicate Ships(a: Action) {
    match a
    case DoInsert(_, _, exp) => exp == 0
    case DoInsertMany(_, _, exp) => exp == 0
    case DoUpdate(_, _, _, exp, keepExpiry) => keepExpiry || exp == 0
    case DoUpsert(_, _, _, exp) => exp == 0
    case DoStage(_, stage) => stage.StageInsert? ==> stage.exp == 0
    case DoApply(_) => false
    case BeginCompact(_, _, reseal) => forall e: Entry :: reseal(e) == Some(e)
    case _ => true
  }

  predicate NoDeadlines(es: seq<Entry>) {
    forall e | e in es :: e.expiresAt == 0
  }

  predicate OpsShip(ops: seq<TxOp>) {
    forall i | 0 <= i < |ops| && ops[i].TxInsert? :: ops[i].exp == 0
  }

  /** The live view is what the published entries replay to, and nothing expires; open
      transactions and the pass under way do not change that. */
  ghost predicate Tied(s: Snap) {
    && s.view == Replay(s.published) && s.view == Replay(s.log) && NoDeadlines(s.log) && s.hist == s.published
    && (forall t | t in s.open :: OpsShip(s.open[t]))
    && (s.pass.Some? ==> s.out == Swap.Contents(s.pass.value.temps))
  }

  lemma LiveHasNone(s: Snap, id: nat)
    requires Tied(s) && id in s.view
    ensures s.view[id].expiresAt == 0
  {
    LiveIsEntry(s.log, id);
  }

  /** A published line without a deadline keeps the tie. */
  lemma WriteKeepsTie(s: Snap, t: Snap, e: Entry)
    requires Tied(s) && e.expiresAt == 0 && t.view == Apply(s.view, e)
    requires t.log == s.log + [e] && t.hist == s.hist + [e] && t.published == s.published + [e]
    requires t.open == s.open && t.pass == s.pass && t.out == s.out
    ensures Tied(t)
  {
    hide OpsShip;
    ReplaySnoc(map[], s.published, e);
    ReplaySnoc(map[], s.log, e);
  }

  lemma {:induction false} BatchKeepsTie(s: Snap, ops: seq<TxOp>, n: nat)
    requires Tied(s) && n <= |ops| && OpsShip(ops)
    ensures var es := TxEntries(s.view, ops, n);
            Tied(s.(view := TxView(s.view, ops, n), log := s.log + es, hist := s.hist + es, published := s.published + es))
  {
    hide Tied;
    if n == 0 {
      assert s.published + [] == s.published && s.log + [] == s.log && s.hist + [] == s.hist;
    } else {
      BatchKeepsTie(s, ops, n - 1);
      var es, w := TxEntries(s.view, ops, n - 1), TxView(s.view, ops, n - 1);
      var u := s.(view := w, log := s.log + es, hist := s.hist + es, published := s.published + es);
      var e := TxEntry(w, ops[n - 1]);
      if ops[n - 1].id in w { LiveHasNone(u, ops[n - 1].id); }
      Regroup(s.log, es, [e]);
      Regroup(s.hist, es, [e]);
      Regroup(s.published, es, [e]);
      WriteKeepsTie(u, u.(view := Apply(w, e), log := u.log + [e], hist := u.hist + [e], published := u.published + [e]), e);
    }
  }

  /** The rest of the state does not matter. */
  lemma TieIsOf(s: Snap, t: Snap)
    requires Tied(s) && t.view == s.view && t.log == s.log && t.hist == s.hist && t.published == s.published
    requires t.open.Keys <= s.open.Keys && (forall u | u in t.open :: t.open[u] == s.open[u]) && t.pass == s.pass
    requires t.out == s.out
    ensures Tied(t)
  {
  }

  lemma NothingExpires(s: Snap, now: int)
    requires Tied(s)
    ensures ExpiredIds(s.view, now) == {}
  {
    forall id | id in s.view ensures !Expired(s.view[id].expiresAt, now) {
      LiveHasNone(s, id);
    }
  }

  /** Compacting without re-sealing reclaims nothing from such a log. */
  lemma CompactKeepsTie(s: Snap)
    requires Tied(s) && SnapOk(s) && s.pass.Some? && s.pass.value.sealed == s.sealed
    ensures ReclaimedIds(Entries(s.sealed), s.active.entries, s.pass.value.now) == {} && NoDeadlines(s.out + s.active.entries)
  {
    var past, act := Entries(s.sealed), s.active.entries;
    forall id | id in Replay(past) ensures Replay(past)[id].expiresAt == 0 {
      LiveIsEntry(past, id);
      assert Replay(past)[id] in past + act;
    }
    forall e | e in s.out + act ensures e.expiresAt == 0 {
      if e in s.out { assert e.id in Replay(past); } else { assert e in past + act; }
    }
  }

  lemma FinishTied(cfg: Config, s: Snap, t: Snap, answer: bool)
    requires FinishRan(cfg, s, t, answer) && Tied(s) && SnapOk(s)
    ensures Tied(t)
  {
    hide Replay, Entries, ReclaimedIds, Compacted, HeldOf, OpsShip, Holding;
    if s.pass.Some? {
      CompactKeepsTie(s);
      var drops :| Finishes(cfg, s, t, drops);
      assert s.view - {} == s.view && s.hist + [] == s.hist;
    }
  }

  lemma ReapTied(cfg: Config, now: int, s: Snap, t: Snap)
    requires ReapRan(cfg, now, s, t) && Tied(s)
    ensures Tied(t)
  {
    hide Tied, ExpiredIds, DropAll, Landed, Bytes;
    var drops :| Reaps(cfg, now, s, t, drops);
    NothingExpires(s, now);
    TombstonesDelete(drops, {}, now);
    assert s.view - {} == s.view && s.log + [] == s.log && s.hist + [] == s.hist;
    TieIsOf(s, t);
  }

  lemma UpsertTied(cfg: Config, key: string, doc: Doc, ts: int, s: Snap, t: Snap, answer: bool)
    requires UpsertRan(cfg, key, doc, ts, 0, s, t, answer) && Tied(s)
    ensures Tied(t)
  {
    hide Tied, UpsertAllowed, AnyKeyed, PutHeld, WithIndex, Stamped, Landed, Bytes;
    if KEY !in doc.plain {
      var r :| Upserts(cfg, key, Stamped(doc, key), ts, 0, OnField(s, KEY, true), t, r) && answer == r.Done?;
      if r.Done? {
        if r.id in s.view { LiveHasNone(s, r.id); }
        WriteKeepsTie(s, t, UpsertLine(s.view, r.id, Stamped(doc, key), ts, 0));
      } else {
        TieIsOf(s, t);
      }
    }
  }

  lemma SwapTied(cfg: Config, key: string, expected: nat, readable: Entry -> bool, doc: Doc, ts: int, s: Snap, t: Snap,
                 answer: bool)
    requires SwapRan(cfg, key, expected, readable, doc, ts, s, t, answer) && Tied(s)
    ensures Tied(t)
  {
    hide Tied, SwapAllowed, PutHeld, Stamped, Landed, Bytes;
    var r :| Swaps(cfg, key, expected, readable, doc, ts, s, t, r) && answer == r.Done?;
    if r.Done? {
      LiveHasNone(s, r.id);
      WriteKeepsTie(s, t, Revised(r.id, s.view[r.id], ts, Stamped(doc, key), s.view[r.id].expiresAt));
    }
  }

  lemma BatchTied(cfg: Config, s: Snap, ops: seq<TxOp>)
    requires Tied(s) && OpsShip(ops)
    ensures Tied(BatchCommits(cfg, s, ops))
  {
    hide Tied, TxView, TxEntries, TxHeld, Landed, Bytes;
    BatchKeepsTie(s, ops, |ops|);
    var es := TxEntries(s.view, ops, |ops|);
    TieIsOf(s.(view := TxView(s.view, ops, |ops|), log := s.log + es, hist := s.hist + es, published := s.published + es),
            BatchCommits(cfg, s, ops));
  }

  lemma ManyTied(cfg: Config, docs: seq<Doc>, ts: int, s: Snap, t: Snap, answer: bool)
    requires ManyRan(cfg, docs, ts, 0, s, t, answer) && Tied(s)
    ensures Tied(t)
  {
    hide Tied, ManyVerdict, TxView, TxEntries, TxHeld, Landed, Bytes, TakenIds, BatchCommits;
    var next := s.(idSeq := s.idSeq + TakenIds(docs));
    TieIsOf(s, next);
    BatchTied(cfg, next, InsertOps(docs, ts, 0, s.idSeq));
  }

  lemma TransactionTied(cfg: Config, a: Action, s: Snap, t: Snap, answer: bool)
    requires a.InTransaction() && TransactionRan(cfg, a, s, t, answer) && Tied(s) && Ships(a)
    ensures Tied(t)
  {
    hide TxVerdict, BatchCommits, Replay;
    match a
    case DoBegin(_) =>
    case DoStage(_, _) =>
    case DoCommit(tx) =>
      if answer { BatchTied(cfg, s, s.open[tx]); }
    case DoRollback(_) =>
  }

  lemma SimpleTied(cfg: Config, a: Action, s: Snap, t: Snap, answer: bool)
    requires (a.DoInsert? || a.DoUpdate? || a.DoDelete?) && Ran(cfg, a, s, t, answer) && Tied(s) && Ships(a)
    ensures Tied(t)
  {
    hide Tied, InsertVerdict, Clash, PutHeld, DropHeld, Landed, Bytes;
    match a
    case DoInsert(doc, ts, exp) =>
      if answer { WriteKeepsTie(s, t, NewRecord(s.idSeq + 1, ts, doc, exp)); } else { TieIsOf(s, t); }
    case DoUpdate(id, doc, ts, exp, keep) =>
      if answer {
        LiveHasNone(s, id);
        WriteKeepsTie(s, t, Revised(id, s.view[id], ts, doc, if keep then s.view[id].expiresAt else exp));
      }
    case DoDelete(id, ts) =>
      if answer { WriteKeepsTie(s, t, Tombstone(id, ts)); }
  }

  /** A leader's collection stays what it has published. */
  lemma RanTied(cfg: Config, a: Action, s: Snap, t: Snap, answer: bool)
    requires Ran(cfg, a, s, t, answer) && Tied(s) && SnapOk(s) && Ships(a)
    ensures Tied(t)
  {
    hide Tied, SnapOk, UpsertRan, SwapRan, ManyRan, InsertRan, UpdateRan, DeleteRan, ReapRan, FinishRan, TransactionRan,
         WithIndex;
    match a
    case DoInsertMany(docs, ts, exp) => ManyTied(cfg, docs, ts, s, t, answer);
    case DoUpsert(key, doc, ts, exp) => UpsertTied(cfg, key, doc, ts, s, t, answer);
    case UpdateIfRev(key, expected, readable, doc, ts) => SwapTied(cfg, key, expected, readable, doc, ts, s, t, answer);
    case DoReap(now) => ReapTied(cfg, now, s, t);
    case DoRotate => TieIsOf(s, t);
    case DoEnsureIndex(field, unique, encrypted) => TieIsOf(s, t);
    case BeginCompact(now, maxSize, reseal) => BeginTied(now, reseal, s, t, answer);
    case FinishCompact => FinishTied(cfg, s, t, answer);
    case _ =>
      if a.InTransaction() {
        TransactionTied(cfg, a, s, t, answer);
      } else {
        SimpleTied(cfg, a, s, t, answer);
      }
  }

  lemma BeginTied(now: int, reseal: Entry -> Option<Entry>, s: Snap, t: Snap, answer: bool)
    requires BeginRan(now, reseal, s, t, answer) && Tied(s) && forall e: Entry :: reseal(e) == Some(e)
    ensures Tied(t)
  {
    hide Survivors, Replay, Entries;
    if !(s.pass.Some? || s.sealed == []) {
      var out, temps :| Begins(now, reseal, s, t, answer, out, temps);
      if answer { assert out == Swap.Contents(temps); }
    }
  }

  // ---- Open transactions -----------------------------------------------------------------------

  /** New live records carry ids the counter handed out in the meantime. */
  predicate Grown(v: View, n: nat, w: View) {
    forall id | id in w :: id in v || id > n
  }

  /** No id was reserved for both. */
  predicate Apart(a: seq<TxOp>, b: seq<TxOp>) {
    forall i, j | 0 <= i < |a| && 0 <= j < |b| && a[i].TxInsert? && b[j].TxInsert? :: a[i].id != b[j].id
  }

  /** Every reserved id came from the counter, is not live, and belongs to one transaction. */
  predicate Reservations(open: Open, v: View, n: nat) {
    && (forall t | t in open :: FreshInserts(v, open[t]) && Issued(open[t], n))
    && (forall t, u | t in open && u in open && t != u :: Apart(open[t], open[u]))
  }

  lemma ReservedKept(open: Open, v: View, n: nat, w: View, m: nat)
    requires Reservations(open, v, n) && Grown(v, n, w) && n <= m
    ensures Reservations(open, w, m)
  {
  }

  /** Committing one transaction brings only its own reserved ids to life. */
  lemma ReservedCommitted(open: Open, v: View, n: nat, t: nat)
    requires Reservations(open, v, n) && t in open && !TargetMissing(v, open[t])
    ensures Reservations(open - {t}, TxView(v, open[t], |open[t]|), n)
  {
    hide TxView;
    var ops := open[t];
    BatchIds(v, ops, |ops|);
    var w, rest := TxView(v, ops, |ops|), open - {t};
    forall u | u in rest ensures FreshInserts(w, rest[u]) {
      assert Apart(open[u], ops);
    }
  }

  lemma ApartMore(ops: seq<TxOp>, op: TxOp, other: seq<TxOp>, n: nat)
    requires Apart(ops, other) && Issued(other, n) && (op.TxInsert? ==> op.id > n)
    ensures Apart(ops + [op], other) && Apart(other, ops + [op])
  {
  }

  /** Staging keeps the reservations apart: a new id is past every other. */
  lemma ReservedStaged(open: Open, v: View, n: nat, m: nat, t: nat, op: TxOp)
    requires Reservations(open, v, n) && t in open && n <= m
    requires op.TxInsert? ==> n < op.id <= m && op.id !in v
    ensures Reservations(open[t := open[t] + [op]], v, m)
  {
    hide Apart;
    var next := open[t] + [op];
    var all := open[t := next];
    forall u | u in open && u != t ensures Apart(next, open[u]) && Apart(open[u], next) {
      ApartMore(open[t], op, open[u], n);
    }
    forall a, b | a in all && b in all && a != b ensures Apart(all[a], all[b]) {
      if a != t && b != t { assert Apart(open[a], open[b]); }
    }
    StagedFresh(v, open[t], op, n, m);
  }

  lemma StagedFresh(v: View, ops: seq<TxOp>, op: TxOp, n: nat, m: nat)
    requires FreshInserts(v, ops) && Issued(ops, n) && n <= m && (op.TxInsert? ==> n < op.id <= m && op.id !in v)
    ensures FreshInserts(v, ops + [op]) && Issued(ops + [op], m)
  {
  }

  lemma ReservedFewer(open: Open, v: View, n: nat, t: nat)
    requires Reservations(open, v, n)
    ensures Reservations(open - {t}, v, n) && Reservations(open[t := []], v, n)
  {
  }

  lemma TransactionReserves(cfg: Config, a: Action, s: Snap, t: Snap, answer: bool)
    requires a.InTransaction() && TransactionRan(cfg, a, s, t, answer) && Reservations(s.open, s.view, s.idSeq)
    requires s.idSeq + 1 !in s.view
    ensures Reservations(t.open, t.view, t.idSeq)
  {
    hide Reservations, TxView, TxEntries, TxHeld, BatchClash, WithinQuota, TargetMissing, Landed, Bytes;
    ReservedFewer(s.open, s.view, s.idSeq, a.tx);
    match a
    case DoBegin(tx) =>
    case DoStage(tx, stage) =>
      if answer {
        match stage
        case StageInsert(doc, ts, exp) => ReservedStaged(s.open, s.view, s.idSeq, s.idSeq + 1, tx,
                                                         TxInsert(s.idSeq + 1, doc, ts, exp));
        case StageUpdate(id, doc, ts) => ReservedStaged(s.open, s.view, s.idSeq, s.idSeq, tx, TxUpdate(id, doc, ts));
        case StageDelete(id, ts) => ReservedStaged(s.open, s.view, s.idSeq, s.idSeq, tx, TxDelete(id, ts));
      }
    case DoCommit(tx) =>
      if answer { ReservedCommitted(s.open, s.view, s.idSeq, tx); }
    case DoRollback(tx) =>
  }

  /** New records carry ids the counter handed out in the step. */
  lemma RanGrown(cfg: Config, a: Action, s: Snap, t: Snap, answer: bool)
    requires Ran(cfg, a, s, t, answer) && !a.InTransaction() && !a.DoApply?
    ensures Grown(s.view, s.idSeq, t.view)
  {
    hide InsertVerdict, Clash, ManyVerdict, UpsertAllowed, SwapAllowed, Landed, Bytes, TxEntries, TxView, TxHeld, ManyRan,
         PutHeld, DropHeld, WithIndex, Holding, ReclaimedIds, Survivors, HeldOf, Replay, ExpiredIds, DropAll, TombstonesOf,
         Stamped;
    if a.DoInsertMany? { ManyGrown(cfg, a.docs, a.ts, a.exp, s, t, answer); }
  }

  lemma ManyGrown(cfg: Config, docs: seq<Doc>, ts: int, exp: int, s: Snap, t: Snap, answer: bool)
    requires ManyRan(cfg, docs, ts, exp, s, t, answer)
    ensures Grown(s.view, s.idSeq, t.view)
  {
    hide ManyVerdict, TxEntries, TxView, TxHeld, Landed, Bytes, TakenIds;
    var ops := InsertOps(docs, ts, exp, s.idSeq);
    BatchIds(s.view, ops, |ops|);
  }

  /** Ids reserved for open transactions stay unused by everything else. No replicated entry may
      come in while a transaction is open. */
  lemma RanReserves(cfg: Config, a: Action, s: Snap, t: Snap, answer: bool)
    requires Ran(cfg, a, s, t, answer) && Reservations(s.open, s.view, s.idSeq) && s.idSeq + 1 !in s.view
    requires a.DoApply? ==> s.open == map[]
    ensures Reservations(t.open, t.view, t.idSeq)
  {
    hide Ran, Reservations, Grown;
    if a.InTransaction() {
      RanTransaction(cfg, a, s, t, answer);
      TransactionReserves(cfg, a, s, t, answer);
    } else {
      OpenStays(cfg, a, s, t, answer);
      if a.DoApply? {
        NoneOpen(t.view, t.idSeq);
      } else {
        RanGrown(cfg, a, s, t, answer);
        RanGrows(cfg, a, s, t, answer);
        ReservedKept(s.open, s.view, s.idSeq, t.view, t.idSeq);
      }
    }
  }

  lemma RanTransaction(cfg: Config, a: Action, s: Snap, t: Snap, answer: bool)
    requires Ran(cfg, a, s, t, answer) && a.InTransaction()
    ensures TransactionRan(cfg, a, s, t, answer)
  {
  }

  lemma NoneOpen(v: View, n: nat)
    ensures Reservations(map[], v, n)
  {
  }

  /** The transactions a script has open after its first n actions. */
  function OpenIn(acts: seq<Action>, n: nat): set<nat>
    requires n <= |acts|
  {
    if n == 0 then {} else
    match acts[n - 1]
    case DoBegin(tx) => OpenIn(acts, n - 1) + {tx}
    case DoCommit(tx) => OpenIn(acts, n - 1) - {tx}
    case DoRollback(tx) => OpenIn(acts, n - 1) - {tx}
    case _ => OpenIn(acts, n - 1)
  }

  /** No replicated entry comes in while a transaction is open: a follower that is promoted may
      run transactions, and a leader that steps down has none. */
  predicate OneRoleAtATime(acts: seq<Action>) {
    forall i | 0 <= i < |acts| && acts[i].DoApply? :: OpenIn(acts, i) == {}
  }

  lemma OpenFollows(cfg: Config, acts: seq<Action>, n: nat, s: Snap, t: Snap, answer: bool)
    requires n < |acts| && Ran(cfg, acts[n], s, t, answer) && s.open.Keys == OpenIn(acts, n)
    ensures t.open.Keys == OpenIn(acts, n + 1)
  {
    hide Ran, TxVerdict, BatchCommits;
    if acts[n].InTransaction() {
      RanTransaction(cfg, acts[n], s, t, answer);
      if acts[n].DoCommit? && answer { CommitKeepsOpen(cfg, s, acts[n].tx); }
    } else {
      OpenStays(cfg, acts[n], s, t, answer);
    }
  }

  lemma CommitKeepsOpen(cfg: Config, s: Snap, tx: nat)
    requires tx in s.open
    ensures BatchCommits(cfg, s, s.open[tx]).open == s.open
  {
  }

  // ---- One winner ------------------------------------------------------------------------------

  /** The history position `at` holds the update that a swap expecting `rev` committed. */
  predicate WonAt(hist: seq<Entry>, at: nat, rev: nat) {
    at < |hist| && hist[at].op.Update? && hist[at].rev == rev + 1
  }

  /** A swap that answers yes has committed one update, of the revision it expected; one that
      answers no has changed nothing. */
  lemma SwapAnswers(cfg: Config, a: Action, s: Snap, t: Snap, answer: bool)
    requires a.UpdateIfRev? && Ran(cfg, a, s, t, answer)
    ensures if answer then |t.hist| == |s.hist| + 1 && WonAt(t.hist, |s.hist|, a.expected) else t == s
  {
    hide AnyKeyed, Keyed, Clash, PutHeld, Stamped, Landed, Bytes;
    var r :| Swaps(cfg, a.key, a.expected, a.readable, a.doc, a.ts, s, t, r) && answer == r.Done?;
  }

  predicate DeletedBetween(hist: seq<Entry>, i: nat, j: nat, id: nat) {
    exists k | i < k < j && k < |hist| :: hist[k].op.Delete? && hist[k].id == id
  }

  /** One winner: two committed swaps of one record that expected the same revision have a
      deletion of that record between them. */
  lemma OneWinner(hist: seq<Entry>, i: nat, j: nat, rev: nat)
    requires WellFormed(hist) && i < j && WonAt(hist, i, rev) && WonAt(hist, j, rev) && hist[i].id == hist[j].id
    ensures DeletedBetween(hist, i, j, hist[i].id)
  {
    if !DeletedBetween(hist, i, j, hist[i].id) {
      RevisionsIncrease(hist, i, j);
    }
  }

  lemma {:induction false} HistoryGrows(cfg: Config, acts: seq<Action>, answers: seq<bool>, snaps: seq<Snap>, i: nat, j: nat)
    requires IsRunOf(cfg, acts, answers, snaps) && i <= j < |snaps|
    ensures snaps[i].hist <= snaps[j].hist
  {
    hide Ran;
    if i < j {
      HistoryGrows(cfg, acts, answers, snaps, i, j - 1);
      assert Ran(cfg, acts[j - 1], snaps[j - 1], snaps[j - 1 + 1], answers[j - 1]);
      RanGrows(cfg, acts[j - 1], snaps[j - 1], snaps[j], answers[j - 1]);
    }
  }

  /** Over every run: of two swaps of one record that expected the same revision and both
      answered yes, the record was deleted between them; a swap that answered no changed
      nothing. */
  lemma OneWinnerInRun(cfg: Config, acts: seq<Action>, answers: seq<bool>, snaps: seq<Snap>, i: nat, j: nat)
    requires IsRunOf(cfg, acts, answers, snaps) && WellFormed(snaps[|snaps| - 1].hist)
    requires i < j < |answers| && acts[i].UpdateIfRev? && acts[j].UpdateIfRev? && acts[i].expected == acts[j].expected
    ensures !answers[i] ==> snaps[i + 1] == snaps[i]
    ensures answers[i] && answers[j] ==>
              && var hist, m, n := snaps[|snaps| - 1].hist, |snaps[i].hist|, |snaps[j].hist|;
              && m < n < |hist| && (hist[m].id == hist[n].id ==> DeletedBetween(hist, m, n, hist[m].id))
  {
    hide Ran, WellFormed, DeletedBetween;
    assert Ran(cfg, acts[i], snaps[i], snaps[i + 1], answers[i]) && Ran(cfg, acts[j], snaps[j], snaps[j + 1], answers[j]);
    SwapAnswers(cfg, acts[i], snaps[i], snaps[i + 1], answers[i]);
    SwapAnswers(cfg, acts[j], snaps[j], snaps[j + 1], answers[j]);
    HistoryGrows(cfg, acts, answers, snaps, i + 1, j);
    HistoryGrows(cfg, acts, answers, snaps, i + 1, |snaps| - 1);
    HistoryGrows(cfg, acts, answers, snaps, j + 1, |snaps| - 1);
    var hist, m, n := snaps[|snaps| - 1].hist, |snaps[i].hist|, |snaps[j].hist|;
    if answers[i] && answers[j] && hist[m].id == hist[n].id {
      OneWinner(hist, m, n, acts[i].expected);
    }
  }

  /** Of the swaps of one record that expected the same revision and answered yes, any two have
      a deletion of the record between them. */
  ghost predicate OneWinnerEach(acts: seq<Action>, answers: seq<bool>, snaps: seq<Snap>)
    requires |answers| <= |acts| && |snaps| == |answers| + 1
  {
    forall i, j | 0 <= i < j < |answers| && acts[i].UpdateIfRev? && acts[j].UpdateIfRev? && answers[i] && answers[j] ::
      acts[i].expected == acts[j].expected ==> Distinguished(snaps[|snaps| - 1].hist, |snaps[i].hist|, |snaps[j].hist|)
  }

  /** The commits at the two positions are of different records, or the record was deleted in
      between. */
  predicate Distinguished(hist: seq<Entry>, m: nat, n: nat) {
    m < n < |hist| && (hist[m].id == hist[n].id ==> DeletedBetween(hist, m, n, hist[m].id))
  }

  lemma WinnersApart(cfg: Config, acts: seq<Action>, answers: seq<bool>, snaps: seq<Snap>)
    requires IsRunOf(cfg, acts, answers, snaps) && WellFormed(snaps[|snaps| - 1].hist)
    ensures OneWinnerEach(acts, answers, snaps)
  {
    hide Ran, WellFormed, DeletedBetween;
    forall i, j | 0 <= i < j < |answers| && acts[i].UpdateIfRev? && acts[j].UpdateIfRev? && answers[i] && answers[j]
                  && acts[i].expected == acts[j].expected
      ensures Distinguished(snaps[|snaps| - 1].hist, |snaps[i].hist|, |snaps[j].hist|)
    {
      OneWinnerInRun(cfg, acts, answers, snaps, i, j);
    }
  }

  lemma RunSnoc(cfg: Config, acts: seq<Action>, answers: seq<bool>, snaps: seq<Snap>, t: Snap, answer: bool)
    requires IsRunOf(cfg, acts, answers, snaps) && |answers| < |acts| && Ran(cfg, acts[|answers|], snaps[|answers|], t, answer)
    ensures IsRunOf(cfg, acts, answers + [answer], snaps + [t])
  {
    hide Ran;
    var n, all, ss := |answers|, answers + [answer], snaps + [t];
    forall i | 0 <= i < |all| ensures Ran(cfg, acts[i], ss[i], ss[i + 1], all[i]) {
      if i < n { assert Ran(cfg, acts[i], snaps[i], snaps[i + 1], answers[i]); }
    }
  }

  // ---- A leader's collection over every step -----------------------------------------------------

  /** Every live id came from the counter. */
  predicate IdsWithin(v: View, n: nat) {
    forall id | id in v :: id <= n
  }

  lemma WellFormedSnoc(hist: seq<Entry>, e: Entry)
    requires WellFormed(hist) && Sound(Replay(hist), e)
    ensures WellFormed(hist + [e])
  {
    assert (hist + [e])[..|hist|] == hist;
  }

  lemma {:induction false} WellFormedDeletes(hist: seq<Entry>, drops: seq<Entry>)
    requires WellFormed(hist) && AllDeletes(drops)
    ensures WellFormed(hist + drops)
    decreases |drops|
  {
    hide WellFormed;
    if drops == [] {
      assert hist + drops == hist;
    } else {
      var init, e := drops[..|drops| - 1], drops[|drops| - 1];
      assert drops == init + [e];
      WellFormedDeletes(hist, init);
      WellFormedSnoc(hist + init, e);
      Regroup(hist, init, [e]);
    }
  }

  lemma {:induction false} BatchWellFormed(hist: seq<Entry>, v: View, ops: seq<TxOp>, n: nat)
    requires WellFormed(hist) && v == Replay(hist) && FreshInserts(v, ops) && !TargetMissing(v, ops) && n <= |ops|
    ensures WellFormed(hist + TxEntries(v, ops, n))
  {
    hide WellFormed, FreshInserts, TargetMissing, Sound, TxEntry;
    if n == 0 {
      assert hist + TxEntries(v, ops, 0) == hist;
    } else {
      BatchWellFormed(hist, v, ops, n - 1);
      OpIsSound(v, ops, n - 1);
      var es, e := TxEntries(v, ops, n - 1), TxEntry(TxView(v, ops, n - 1), ops[n - 1]);
      TxReplay(v, ops, n - 1);
      ReplayConcat(map[], hist, es);
      WellFormedSnoc(hist + es, e);
      Regroup(hist, es, [e]);
    }
  }

  /** A step of a collection whose history is sound, with its ids and reservations in order. */
  ghost predicate Orderly(s: Snap) {
    WellFormed(s.hist) && s.view == Replay(s.hist) && IdsWithin(s.view, s.idSeq) && Reservations(s.open, s.view, s.idSeq)
  }

  lemma SimpleOrderly(cfg: Config, a: Action, s: Snap, t: Snap, answer: bool)
    requires (a.DoInsert? || a.DoUpdate? || a.DoDelete?) && Ran(cfg, a, s, t, answer) && Orderly(s)
    ensures WellFormed(t.hist) && IdsWithin(t.view, t.idSeq)
  {
    hide WellFormed, Replay, InsertVerdict, Clash, PutHeld, DropHeld, Landed, Bytes, Reservations;
    match a
    case DoInsert(doc, ts, exp) => if answer { WellFormedSnoc(s.hist, NewRecord(s.idSeq + 1, ts, doc, exp)); }
    case DoUpdate(id, doc, ts, exp, keep) =>
      if answer { WellFormedSnoc(s.hist, Revised(id, s.view[id], ts, doc, if keep then s.view[id].expiresAt else exp)); }
    case DoDelete(id, ts) => WellFormedSnoc(s.hist, Tombstone(id, ts));
  }

  lemma UpsertOrderly(cfg: Config, key: string, doc: Doc, ts: int, exp: int, s: Snap, t: Snap, answer: bool)
    requires UpsertRan(cfg, key, doc, ts, exp, s, t, answer) && Orderly(s)
    ensures WellFormed(t.hist) && IdsWithin(t.view, t.idSeq)
  {
    hide WellFormed, UpsertAllowed, AnyKeyed, PutHeld, WithIndex, Stamped, Landed, Bytes, Reservations;
    if KEY !in doc.plain {
      var r :| Upserts(cfg, key, Stamped(doc, key), ts, exp, OnField(s, KEY, true), t, r) && answer == r.Done?;
      if r.Done? { WellFormedSnoc(s.hist, UpsertLine(s.view, r.id, Stamped(doc, key), ts, exp)); }
    }
  }

  lemma SwapOrderly(cfg: Config, key: string, expected: nat, readable: Entry -> bool, doc: Doc, ts: int, s: Snap, t: Snap,
                    answer: bool)
    requires SwapRan(cfg, key, expected, readable, doc, ts, s, t, answer) && Orderly(s)
    ensures WellFormed(t.hist) && IdsWithin(t.view, t.idSeq)
  {
    hide WellFormed, SwapAllowed, PutHeld, Stamped, Landed, Bytes, Reservations;
    var r :| Swaps(cfg, key, expected, readable, doc, ts, s, t, r) && answer == r.Done?;
    if r.Done? { WellFormedSnoc(s.hist, Revised(r.id, s.view[r.id], ts, Stamped(doc, key), s.view[r.id].expiresAt)); }
  }

  lemma ManyOrderly(cfg: Config, docs: seq<Doc>, ts: int, exp: int, s: Snap, t: Snap, answer: bool)
    requires ManyRan(cfg, docs, ts, exp, s, t, answer) && Orderly(s)
    ensures WellFormed(t.hist) && IdsWithin(t.view, t.idSeq)
  {
    hide WellFormed, BatchClash, WithinQuota, TxView, TxEntries, TxHeld, Landed, Bytes, TakenIds, Reservations;
    if answer {
      var ops := InsertOps(docs, ts, exp, s.idSeq);
      AllTaken(cfg, docs, ts, exp, s);
      assert FreshInserts(s.view, ops);
      BatchWellFormed(s.hist, s.view, ops, |ops|);
      BatchIds(s.view, ops, |ops|);
    }
  }

  /** An accepted InsertMany has taken one id for each record. */
  lemma AllTaken(cfg: Config, docs: seq<Doc>, ts: int, exp: int, s: Snap)
    requires ManyVerdict(cfg, s.uniq, s.held, s.view, s.size, InsertOps(docs, ts, exp, s.idSeq)).None?
    ensures TakenIds(docs) == |docs|
  {
    hide BatchClash, WithinQuota, InsertBytes;
    var ops := InsertOps(docs, ts, exp, s.idSeq);
    forall i | 0 <= i < |docs| ensures docs[i].sealable {
      assert IsWrite(ops[i]) && ops[i].doc == docs[i];
    }
    TakenAt(docs, |docs|);
  }

  lemma CommitOrderly(cfg: Config, tx: nat, s: Snap, t: Snap, answer: bool)
    requires TransactionRan(cfg, DoCommit(tx), s, t, answer) && Orderly(s)
    ensures WellFormed(t.hist) && IdsWithin(t.view, t.idSeq)
  {
    hide WellFormed, BatchClash, WithinQuota, TxView, TxEntries, TxHeld, Landed, Bytes, Apart, InsertBytes, InsertCount;
    if answer {
      var ops := s.open[tx];
      BatchWellFormed(s.hist, s.view, ops, |ops|);
      BatchIds(s.view, ops, |ops|);
    }
  }

  lemma ReapOrderly(cfg: Config, now: int, s: Snap, t: Snap)
    requires ReapRan(cfg, now, s, t) && Orderly(s)
    ensures WellFormed(t.hist) && IdsWithin(t.view, t.idSeq)
  {
    hide WellFormed, ExpiredIds, DropAll, Landed, Bytes, Reservations, TombstonesOf;
    var drops :| Reaps(cfg, now, s, t, drops);
    TombstonesDelete(drops, ExpiredIds(s.view, now), now);
    WellFormedDeletes(s.hist, drops);
  }

  lemma FinishOrderly(cfg: Config, s: Snap, t: Snap, answer: bool)
    requires FinishRan(cfg, s, t, answer) && Orderly(s)
    ensures WellFormed(t.hist) && IdsWithin(t.view, t.idSeq)
  {
    hide WellFormed, Replay, Entries, ReclaimedIds, HeldOf, Reservations;
    if s.pass.Some? {
      var drops :| Finishes(cfg, s, t, drops);
      WellFormedDeletes(s.hist, drops);
    }
  }

  lemma RestOrderly(cfg: Config, a: Action, s: Snap, t: Snap, answer: bool)
    requires (a.DoBegin? || a.DoStage? || a.DoRollback? || a.DoRotate? || a.DoEnsureIndex? || a.BeginCompact?)
    requires Ran(cfg, a, s, t, answer) && Orderly(s)
    ensures WellFormed(t.hist) && IdsWithin(t.view, t.idSeq)
  {
    hide WellFormed, Replay, Entries, Reservations, WithIndex, Survivors, Holding;
  }

  /** Every commit is sound where it lands, and every id comes from the counter. */
  lemma RanOrderly(cfg: Config, a: Action, s: Snap, t: Snap, answer: bool)
    requires Ran(cfg, a, s, t, answer) && Orderly(s) && !a.DoApply?
    ensures WellFormed(t.hist) && IdsWithin(t.view, t.idSeq)
  {
    hide Orderly, WellFormed, UpsertRan, SwapRan, ManyRan, InsertRan, UpdateRan, DeleteRan, ReapRan, FinishRan, TransactionRan,
         BeginRan, IdsWithin, OnField;
    match a
    case DoInsertMany(docs, ts, exp) => ManyOrderly(cfg, docs, ts, exp, s, t, answer);
    case DoUpsert(key, doc, ts, exp) => UpsertOrderly(cfg, key, doc, ts, exp, s, t, answer);
    case UpdateIfRev(key, expected, readable, doc, ts) => SwapOrderly(cfg, key, expected, readable, doc, ts, s, t, answer);
    case DoCommit(tx) => CommitOrderly(cfg, tx, s, t, answer);
    case DoReap(now) => ReapOrderly(cfg, now, s, t);
    case FinishCompact => FinishOrderly(cfg, s, t, answer);
    case _ =>
      if a.DoInsert? || a.DoUpdate? || a.DoDelete? {
        SimpleOrderly(cfg, a, s, t, answer);
      } else {
        RestOrderly(cfg, a, s, t, answer);
      }
  }

  lemma GrewAscends(sealed: seq<Segment>, active: Segment, sealed': seq<Segment>, active': Segment)
    requires GrewTo(sealed, active, sealed', active') && Ascending(sealed + [active])
    ensures Ascending(sealed' + [active']) && sealed <= sealed'
  {
    var a, b := sealed + [active], sealed' + [active'];
    assert forall i | 0 <= i < |a| :: a[i].num == b[i].num;
    if |sealed'| > |sealed| {
      assert b[|sealed|].num == active.num && b[|sealed'|].num == active.num + 1;
      assert forall i | 0 <= i < |sealed| :: a[i].num < a[|sealed|].num;
    }
  }

  /** A leader's collection between two operations: what it holds is what it has published, in
      sound lines, and its segments are in order. */
  ghost predicate Leading(s: Snap) {
    && Tied(s) && SnapOk(s) && Ascending(s.sealed + [s.active])
    && IdsWithin(s.view, s.idSeq) && Reservations(s.open, s.view, s.idSeq)
  }

  lemma FinishLeads(cfg: Config, s: Snap, t: Snap, answer: bool)
    requires FinishRan(cfg, s, t, answer) && SnapOk(s) && Ascending(s.sealed + [s.active]) && WellFormed(t.hist)
    ensures SnapOk(t) && Ascending(t.sealed + [t.active])
  {
    hide WellFormed, Replay, Entries, ReclaimedIds, HeldOf, Compacted, Holding;
  }

  lemma BeginLeads(now: int, reseal: Entry -> Option<Entry>, s: Snap, t: Snap, answer: bool)
    requires BeginRan(now, reseal, s, t, answer) && SnapOk(s)
    ensures SnapOk(t) && t.sealed == s.sealed && t.active == s.active
  {
    hide WellFormed, Replay, Entries, Survivors, Holding;
  }

  /** Every step of a leader's collection keeps that. */
  lemma RanLeads(cfg: Config, a: Action, s: Snap, t: Snap, answer: bool)
    requires Ran(cfg, a, s, t, answer) && Leading(s) && Ships(a)
    ensures Leading(t)
  {
    hide Ran, WellFormed, Replay, Reservations, IdsWithin, Ascending, Ships, GrewTo, Holding, NoDeadlines, OpsShip, Entries;
    NotApplied(a);
    RanTied(cfg, a, s, t, answer);
    NextIsFree(s);
    RanReserves(cfg, a, s, t, answer);
    RanOrderly(cfg, a, s, t, answer);
    if a.BeginCompact? || a.FinishCompact? {
      RanPass(cfg, a, s, t, answer);
      if a.FinishCompact? { FinishLeads(cfg, s, t, answer); } else { BeginLeads(a.now, a.reseal, s, t, answer); }
    } else {
      RanExtends(cfg, a, s, t, answer);
      GrewAscends(s.sealed, s.active, t.sealed, t.active);
    }
  }

  lemma NotApplied(a: Action)
    requires Ships(a)
    ensures !a.DoApply?
  {
  }

  lemma NextIsFree(s: Snap)
    requires IdsWithin(s.view, s.idSeq)
    ensures s.idSeq + 1 !in s.view
  {
  }
}
