/** Every run of a collection and its directory: each operation is the step its specification
    says, the derived state stays what the segments say and the files are those of the
    segments, whatever the order of operations and wherever a pass falls among them. */
module Runs {
  import opened Common
  import opened Log
  import opened Compaction
  import opened Store
  import opened SecondaryIndexes
  import opened Writes
  import opened Batches
  import opened Collections
  import opened Compactor
  import opened Passes
  import opened Collisions
  import opened Steps
  import opened Durability
  import Swap

  /** The state of a collection with its open transactions and the pass under way. */
  ghost function SnapOf(c: Collection, open: Open, pass: Option<Pass>, out: seq<Entry>): Snap reads c {
    Snap(c.sealed, c.active, c.log, c.view, c.held, c.UniqueFields(), c.hist, c.published, c.size, c.idSeq, open, pass, out)
  }

  // ---- One operation -----------------------------------------------------------------------

  method RunInsert(c: Collection, doc: Doc, ts: int, exp: int, ghost open: Open, ghost pass: Option<Pass>,
                   ghost out: seq<Entry>)
    returns (answer: bool)
    requires c.Valid()
    modifies c, c.sidx.Values
    ensures c.Valid() && c.sidx == old(c.sidx)
    ensures InsertRan(c.cfg, doc, ts, exp, old(SnapOf(c, open, pass, out)), SnapOf(c, open, pass, out), answer)
  {
    hide Core, Tracks, TotalBytes, HeldLive, Bytes, Keeps, InsertVerdict, PutHeld, Landed, Commits, NewRecord;
    ghost var s := SnapOf(c, open, pass, out);
    var r := c.Insert(doc, ts, exp);
    answer := r.Done?;
    if answer {
      ghost var e := NewRecord(s.idSeq + 1, ts, doc, exp);
      assert e.id == s.idSeq + 1 by { NewRecordId(s.idSeq + 1, ts, doc, exp); }
      CommitIs(c.cfg, s.(idSeq := s.idSeq + 1), SnapOf(c, open, pass, out), [e], s.view[e.id := e],
               PutHeld(s.held, e.id, doc.plain));
    }
  }

  lemma NewRecordId(id: nat, ts: int, doc: Doc, exp: int)
    ensures NewRecord(id, ts, doc, exp).id == id
  {
  }

  method RunInsertMany(c: Collection, docs: seq<Doc>, ts: int, exp: int, ghost open: Open, ghost pass: Option<Pass>,
                       ghost out: seq<Entry>)
    returns (answer: bool)
    requires c.Valid()
    modifies c, c.sidx.Values
    ensures c.Valid() && c.sidx == old(c.sidx)
    ensures ManyRan(c.cfg, docs, ts, exp, old(SnapOf(c, open, pass, out)), SnapOf(c, open, pass, out), answer)
  {
    hide Core, Tracks, TotalBytes, HeldLive, Bytes, Keeps, ManyVerdict, TxHeld, TxView, TxEntries, InsertOps, TakenIds, Landed,
         Commits;
    ghost var s := SnapOf(c, open, pass, out);
    var r, ids := c.InsertMany(docs, ts, exp);
    answer := r.None?;
    if answer {
      ghost var ops := InsertOps(docs, ts, exp, s.idSeq);
      CommitIs(c.cfg, s.(idSeq := s.idSeq + TakenIds(docs)), SnapOf(c, open, pass, out),
               TxEntries(s.view, ops, |ops|), TxView(s.view, ops, |ops|), TxHeld(s.held, ops, |ops|));
    }
  }

  method RunUpdate(c: Collection, id: nat, doc: Doc, ts: int, exp: int, keepExpiry: bool, ghost open: Open,
                   ghost pass: Option<Pass>,
                   ghost out: seq<Entry>)
    returns (answer: bool)
    requires c.Valid()
    modifies c, c.sidx.Values
    ensures c.Valid() && c.sidx == old(c.sidx)
    ensures UpdateRan(c.cfg, id, doc, ts, exp, keepExpiry, old(SnapOf(c, open, pass, out)), SnapOf(c, open, pass, out), answer)
  {
    hide Core, Tracks, TotalBytes, HeldLive, Bytes, Keeps, Clash, PutHeld, Landed, Collection.SidxOk, Collection.CoreOk,
         Collection.UniqueFields;
    var r := c.Update(id, doc, ts, exp, keepExpiry);
    answer := r.Done?;
  }

  method RunDelete(c: Collection, id: nat, ts: int, ghost open: Open, ghost pass: Option<Pass>, ghost out: seq<Entry>)
    returns (answer: bool)
    requires c.Valid()
    modifies c, c.sidx.Values
    ensures c.Valid() && c.sidx == old(c.sidx)
    ensures DeleteRan(c.cfg, id, ts, old(SnapOf(c, open, pass, out)), SnapOf(c, open, pass, out), answer)
  {
    hide Core, Tracks, TotalBytes, HeldLive, Bytes, Keeps, DropHeld;
    answer := c.Delete(id, ts);
  }

  method RunUpsert(c: Collection, key: string, doc: Doc, ts: int, exp: int, ghost open: Open, ghost pass: Option<Pass>,
                   ghost out: seq<Entry>)
    returns (answer: bool)
    requires c.Valid()
    modifies c, c.sidx.Values
    ensures c.Valid() && fresh(c.sidx.Values - old(c.sidx.Values))
    ensures UpsertRan(c.cfg, key, doc, ts, exp, old(SnapOf(c, open, pass, out)), SnapOf(c, open, pass, out), answer)
  {
    hide Core, Tracks, TotalBytes, HeldLive, Bytes, Keeps, UpsertAllowed, UpsertLine, AnyKeyed, WithIndex, PutHeld, Stamped,
         Landed;
    ghost var s := SnapOf(c, open, pass, out);
    HeldFields(c, s.held);
    var r := c.Upsert(key, doc, ts, exp);
    answer := r.Done?;
    if KEY !in doc.plain {
      UpsertIs(c.cfg, key, Stamped(doc, key), ts, exp, OnField(s, KEY, true), SnapOf(c, open, pass, out), r);
    }
  }

  /** What the write paths say of the fields, said of the state. */
  lemma CommitIs(cfg: Config, s: Snap, t: Snap, es: seq<Entry>, w: View, h: Held)
    requires t.log == s.log + es && t.hist == s.hist + es && t.view == w && t.held == h && t.size == s.size + Bytes(cfg.len, es)
    requires t.published == s.published + es && (t.sealed, t.active) == Landed(cfg, s.sealed, s.active, es)
    requires t.uniq == s.uniq && t.idSeq == s.idSeq && t.open == s.open && t.pass == s.pass && t.out == s.out
    ensures t == Commits(cfg, s, es, w, h)
  {
  }

  lemma UpsertIs(cfg: Config, key: string, doc: Doc, ts: int, exp: int, s: Snap, t: Snap, r: Outcome)
    requires UpsertAllowed(cfg, s.uniq, s.held, |s.view|, s.size, s.idSeq, key, doc, ts, exp, r)
    requires t.idSeq == s.idSeq + (if AnyKeyed(cfg.fmt, s.held, key) then 0 else 1)
    requires r.Done? ==> r.id in s.view || r.id == t.idSeq == s.idSeq + 1
    requires t.uniq == s.uniq && t.open == s.open && t.pass == s.pass && t.out == s.out
    requires r.Done? ==>
               var e := UpsertLine(s.view, r.id, doc, ts, exp);
               && t.log == s.log + [e] && t.hist == s.hist + [e] && t.view == s.view[r.id := e]
               && t.size == s.size + Bytes(cfg.len, [e])
               && t.held == PutHeld(s.held, r.id, doc.plain) && t.published == s.published + [e]
               && (t.sealed, t.active) == Landed(cfg, s.sealed, s.active, [e])
    requires !r.Done? ==>
               && t.log == s.log && t.hist == s.hist && t.view == s.view && t.size == s.size && t.held == s.held
               && t.published == s.published && t.sealed == s.sealed && t.active == s.active
    ensures Upserts(cfg, key, doc, ts, exp, s, t, r)
  {
    hide UpsertAllowed, AnyKeyed, UpsertLine, PutHeld, Landed, Bytes, Commits;
    if r.Done? {
      var e := UpsertLine(s.view, r.id, doc, ts, exp);
      CommitIs(cfg, s.(idSeq := t.idSeq), t, [e], s.view[r.id := e], PutHeld(s.held, r.id, doc.plain));
    }
  }

  method RunSwap(c: Collection, key: string, expected: nat, readable: Entry -> bool, doc: Doc, ts: int, ghost open: Open,
                 ghost pass: Option<Pass>, ghost out: seq<Entry>)
    returns (answer: bool)
    requires c.Valid()
    modifies c, c.sidx.Values
    ensures c.Valid() && c.sidx == old(c.sidx)
    ensures SwapRan(c.cfg, key, expected, readable, doc, ts, old(SnapOf(c, open, pass, out)), SnapOf(c, open, pass, out), answer)
  {
    hide Core, Tracks, TotalBytes, HeldLive, Bytes, Keeps, SwapAllowed, PutHeld, Stamped, Landed, Collection.SidxOk,
         Collection.CoreOk, Collection.UniqueFields;
    ghost var s := SnapOf(c, open, pass, out);
    var r := c.CompareAndSwap(key, readable, AtRev(expected), doc, ts);
    answer := r.Done?;
    assert Swaps(c.cfg, key, expected, readable, doc, ts, s, SnapOf(c, open, pass, out), r);
  }

  method RunWrite(c: Collection, a: Action, ghost open: Open, ghost pass: Option<Pass>, ghost out: seq<Entry>)
    returns (answer: bool)
    requires c.Valid() && a.IsWrite()
    modifies c, c.sidx.Values
    ensures c.Valid() && fresh(c.sidx.Values - old(c.sidx.Values))
    ensures Ran(c.cfg, a, old(SnapOf(c, open, pass, out)), SnapOf(c, open, pass, out), answer)
  {
    hide Core, Tracks, TotalBytes, HeldLive, InsertRan, ManyRan, UpdateRan, DeleteRan, UpsertRan, SwapRan;
    match a {
      case DoInsert(doc, ts, exp) => answer := RunInsert(c, doc, ts, exp, open, pass, out);
      case DoInsertMany(docs, ts, exp) => answer := RunInsertMany(c, docs, ts, exp, open, pass, out);
      case DoUpdate(id, doc, ts, exp, keepExpiry) => answer := RunUpdate(c, id, doc, ts, exp, keepExpiry, open, pass, out);
      case DoDelete(id, ts) => answer := RunDelete(c, id, ts, open, pass, out);
      case DoUpsert(key, doc, ts, exp) => answer := RunUpsert(c, key, doc, ts, exp, open, pass, out);
      case UpdateIfRev(key, expected, readable, doc, ts) =>
        answer := RunSwap(c, key, expected, readable, doc, ts, open, pass, out);
    }
  }

  method RunStage(c: Collection, open: Open, tx: nat, stage: Stage, ghost pass: Option<Pass>, ghost out: seq<Entry>)
    returns (next: Open)
    requires c.Valid() && tx in open
    modifies c`idSeq
    ensures c.Valid() && SnapOf(c, next, pass, out) == Staged(old(SnapOf(c, open, pass, out)), tx, stage)
  {
    hide Core, Tracks, TotalBytes, HeldLive;
    match stage {
      case StageInsert(doc, ts, exp) =>
        var id := c.ReserveID();
        next := open[tx := open[tx] + [TxInsert(id, doc, ts, exp)]];
      case StageUpdate(id, doc, ts) => next := open[tx := open[tx] + [TxUpdate(id, doc, ts)]];
      case StageDelete(id, ts) => next := open[tx := open[tx] + [TxDelete(id, ts)]];
    }
  }

  method RunCommit(c: Collection, open: Open, tx: nat, ghost pass: Option<Pass>, ghost out: seq<Entry>) returns (answer: bool)
    requires c.Valid() && tx in open && Reservations(open, c.view, c.idSeq)
    modifies c, c.sidx.Values
    ensures c.Valid() && c.sidx == old(c.sidx)
    ensures TransactionRan(c.cfg, DoCommit(tx), old(SnapOf(c, open, pass, out)), SnapOf(c, open - {tx}, pass, out), answer)
  {
    hide Core, Tracks, TotalBytes, HeldLive, Bytes, Keeps, TxVerdict, TxHeld, TxView, TxEntries, FreshInserts, Issued, Apart,
         Landed;
    var r := c.CommitTx(open[tx]);
    answer := r.None?;
  }

  method RunTransaction(c: Collection, open: Open, a: Action, ghost pass: Option<Pass>, ghost out: seq<Entry>)
    returns (next: Open, answer: bool)
    requires c.Valid() && Reservations(open, c.view, c.idSeq) && a.InTransaction()
    modifies c, c.sidx.Values
    ensures c.Valid() && c.sidx == old(c.sidx)
    ensures TransactionRan(c.cfg, a, old(SnapOf(c, open, pass, out)), SnapOf(c, next, pass, out), answer)
  {
    hide Core, Tracks, TotalBytes, HeldLive, Reservations, TxVerdict, BatchCommits, Staged;
    next := open;
    answer := if a.DoBegin? then a.tx !in open else a.tx in open;
    if !answer {
      if !a.DoBegin? { assert open - {a.tx} == open; }
      return;
    }
    match a {
      case DoBegin(tx) => next := open[tx := []];
      case DoStage(tx, stage) => next := RunStage(c, open, tx, stage, pass, out);
      case DoCommit(tx) =>
        answer := RunCommit(c, open, tx, pass, out);
        next := open - {tx};
      case DoRollback(tx) => next := open - {tx};
    }
  }

  method RunApply(c: Collection, e: Entry, ghost open: Open, ghost pass: Option<Pass>, ghost out: seq<Entry>)
    returns (answer: bool)
    requires c.Valid() && (e.op.Delete? || e.rev >= 1)
    modifies c, c.sidx.Values
    ensures c.Valid() && fresh(c.sidx.Values - old(c.sidx.Values))
    ensures ApplyRan(c.cfg, e, old(SnapOf(c, open, pass, out)), SnapOf(c, open, pass, out), answer)
  {
    hide Core, Tracks, TotalBytes, HeldLive, Bytes, PutHeld, DropHeld, Replicate, WithIndex, Landed, Present, Apply;
    ghost var s := SnapOf(c, open, pass, out);
    HeldFields(c, s.held);
    answer := IsNews(c, e);
    c.ApplyEntry(e);
    ApplyIs(c.cfg, e, s, SnapOf(c, open, pass, out));
  }

  lemma ApplyIs(cfg: Config, e: Entry, s: Snap, t: Snap)
    requires t.uniq == s.uniq + (if KEY in e.data && KEY !in s.held then {KEY} else {})
    requires t.open == s.open && t.pass == s.pass && t.out == s.out && t.published == s.published
    requires var h := if KEY in e.data then WithIndex(s.held, KEY, s.view) else s.held;
             if Present(s.view, e) then
               && t.sealed == s.sealed && t.active == s.active && t.log == s.log && t.hist == s.hist && t.view == s.view
               && t.size == s.size && t.held == h && t.idSeq == s.idSeq
             else
               && t.log == s.log + [e] && t.hist == s.hist + [e] && t.view == Apply(s.view, e)
               && t.size == s.size + Bytes(cfg.len, [e])
               && t.held == (if e.op.Delete? then DropHeld(h, e.id) else PutHeld(h, e.id, e.data))
               && (t.sealed, t.active) == Landed(cfg, s.sealed, s.active, [e])
               && t.idSeq == if e.id > s.idSeq then e.id else s.idSeq
    ensures ApplyRan(cfg, e, s, t, !Present(s.view, e))
  {
    hide Present, WithIndex, DropHeld, PutHeld, Landed, Bytes, Apply;
  }

  /** The effect of a replicated entry is not in the collection yet. */
  method IsNews(c: Collection, e: Entry) returns (news: bool)
    requires c.Valid()
    ensures news == !Present(c.view, e)
  {
    hide Core, Tracks, TotalBytes, HeldLive;
    CoreMirrors(c.cfg.len, c.sealed + [c.active], c.log, c.index, c.idSeq, c.hist, c.view);
    news := if e.op.Delete? then e.id in c.index else e.id !in c.index || c.index[e.id].rev < e.rev;
  }

  method RunUpkeep(c: Collection, a: Action, ghost open: Open, ghost pass: Option<Pass>, ghost out: seq<Entry>)
    returns (answer: bool)
    requires c.Valid() && a.IsUpkeep() && Sane(a)
    modifies c, c.sidx.Values
    ensures c.Valid() && fresh(c.sidx.Values - old(c.sidx.Values))
    ensures UpkeepRan(c.cfg, a, old(SnapOf(c, open, pass, out)), SnapOf(c, open, pass, out), answer)
  {
    hide Core, Tracks, TotalBytes, HeldLive, ApplyRan, ReapRan, OnField;
    answer := true;
    match a {
      case DoApply(e) => answer := RunApply(c, e, open, pass, out);
      case DoReap(now) => RunReap(c, now, open, pass, out);
      case DoRotate => c.Rotate();
      case DoEnsureIndex(field, unique, encrypted) => answer := RunEnsure(c, field, unique, encrypted, open, pass, out);
    }
  }

  method RunReap(c: Collection, now: int, ghost open: Open, ghost pass: Option<Pass>, ghost out: seq<Entry>)
    requires c.Valid()
    modifies c, c.sidx.Values
    ensures c.Valid() && c.sidx == old(c.sidx) && ReapRan(c.cfg, now, old(SnapOf(c, open, pass, out)), SnapOf(c, open, pass, out))
  {
    hide Core, Tracks, TotalBytes, HeldLive, Landed, Bytes, ExpiredIds, DropAll, TombstonesOf;
    ghost var s := SnapOf(c, open, pass, out);
    ghost var drops := c.Reap(now);
    assert Reaps(c.cfg, now, s, SnapOf(c, open, pass, out), drops);
  }

  method RunEnsure(c: Collection, field: string, unique: bool, encrypted: bool, ghost open: Open, ghost pass: Option<Pass>,
                   ghost out: seq<Entry>)
    returns (answer: bool)
    requires c.Valid()
    modifies c, c.sidx.Values
    ensures c.Valid() && fresh(c.sidx.Values - old(c.sidx.Values)) && answer == !encrypted
    ensures var s := old(SnapOf(c, open, pass, out));
            SnapOf(c, open, pass, out) == if answer then OnField(s, field, unique) else s
  {
    hide Core, Tracks, TotalBytes, HeldLive, WithIndex;
    HeldFields(c, c.held);
    answer := c.EnsureIndex(field, unique, encrypted);
  }

  // ---- The files follow the segments ---------------------------------------------------------

  lemma FilesOfLast(init: seq<Segment>, n: nat, es: seq<Entry>, es': seq<Entry>)
    requires Ascending(init + [Segment(n, es)])
    ensures Ascending(init + [Segment(n, es')])
    ensures var f := Swap.FilesOf(init + [Segment(n, es)]);
            Swap.Seg(n) in f && f[Swap.Seg(n)] == es && Swap.FilesOf(init + [Segment(n, es')]) == f[Swap.Seg(n) := es']
  {
    hide Swap.FilesOf;
    var a, b := init + [Segment(n, es)], init + [Segment(n, es')];
    assert forall i | 0 <= i < |a| :: a[i].num == b[i].num;
    assert a[|init|] == Segment(n, es);
    var f := Swap.FilesOf(a);
    Swap.FilesOfAre(a);
    SealedBelow(init, Segment(n, es));
    Swap.LastGrows(f, init, n, es, es');
    assert Swap.Temps(f[Swap.Seg(n) := es']) == {};
    Swap.ExactFiles(f[Swap.Seg(n) := es'], b);
  }

  lemma FilesOfMore(segs: seq<Segment>, m: nat)
    requires Ascending(segs + [Segment(m, [])])
    ensures Ascending(segs) && Swap.Seg(m) !in Swap.FilesOf(segs)
    ensures Swap.FilesOf(segs + [Segment(m, [])]) == Swap.FilesOf(segs)[Swap.Seg(m) := []]
  {
    hide Swap.FilesOf;
    var b := segs + [Segment(m, [])];
    assert forall i | 0 <= i < |segs| :: b[i] == segs[i];
    var f := Swap.FilesOf(segs);
    Swap.FilesOfAre(segs);
    SealedBelow(segs, Segment(m, []));
    MoreSegs(f, segs, m);
    assert Swap.Temps(f[Swap.Seg(m) := []]) == {};
    Swap.ExactFiles(f[Swap.Seg(m) := []], b);
  }

  lemma MoreSegs(f: Swap.Files, segs: seq<Segment>, m: nat)
    requires Swap.SegsAre(f, segs) && forall s | s in segs :: s.num < m
    ensures Swap.Seg(m) !in f && Swap.SegsAre(f[Swap.Seg(m) := []], segs + [Segment(m, [])])
  {
    var b, g := segs + [Segment(m, [])], f[Swap.Seg(m) := []];
    assert Swap.Seg(m) in f ==> Swap.Numbered(segs, m);
    forall i | 0 <= i < |b| ensures Swap.Seg(b[i].num) in g && g[Swap.Seg(b[i].num)] == b[i].entries {
      if i < |segs| { assert b[i] == segs[i] && segs[i] in segs; }
    }
    forall x | x in g && x.Seg? ensures Swap.Numbered(b, x.n) {
      if x.n == m {
        assert b[|segs|].num == m;
      } else {
        var i :| 0 <= i < |segs| && segs[i].num == x.n;
        assert b[i].num == x.n;
      }
    }
  }

  /** The temp files of the pass under way. */
  ghost function TempsOf(pass: Option<Pass>): Swap.Files
    requires pass.Some? ==> Swap.DistinctTemps(pass.value.temps)
  {
    if pass.Some? then TempFiles(pass.value.temps) else map[]
  }

  lemma TempsAreTemps(pass: Option<Pass>)
    requires pass.Some? ==> Swap.DistinctTemps(pass.value.temps)
    ensures forall x | x in TempsOf(pass) :: x.IsTemp()
  {
    if pass.Some? { TempFilesAre(pass.value.temps); }
  }

  lemma FilesAreTemps(d: Directory, sealed: seq<Segment>, active: Segment, pass: Option<Pass>)
    requires d.Valid() && d.manifest.None? && Ascending(sealed + [active])
    requires pass.Some? ==> Swap.DistinctTemps(pass.value.temps)
    ensures FilesAre(d, sealed, active, pass) <==> d.files == Swap.FilesOf(sealed + [active]) + TempsOf(pass)
  {
    var f := Swap.FilesOf(sealed + [active]);
    assert f + map[] == f;
  }

  /** One file grows, or one grows and a new one is created. */
  lemma GrownFiles(f: Swap.Files, temps: Swap.Files, sealed: seq<Segment>, active: Segment, sealed': seq<Segment>,
                   active': Segment)
    requires Ascending(sealed + [active]) && Ascending(sealed' + [active']) && GrewTo(sealed, active, sealed', active')
    requires (forall x | x in temps :: x.IsTemp()) && f == Swap.FilesOf(sealed + [active]) + temps
    ensures var x, lines := Swap.Seg(active.num), NewLines(sealed, active, sealed', active');
            && x in f && f[x] == active.entries
            && var g := f[x := active.entries + lines];
               if |sealed'| == |sealed| then g == Swap.FilesOf(sealed' + [active']) + temps
               else Opened(g, Swap.Seg(active'.num)) == Swap.FilesOf(sealed' + [active']) + temps
  {
    hide Swap.FilesOf, Ascending;
    var lines := NewLines(sealed, active, sealed', active');
    FilesOfLast(sealed, active.num, active.entries, active.entries + lines);
    assert Segment(active.num, active.entries) == active;
    if |sealed'| == |sealed| {
      assert active' == Segment(active.num, active.entries + lines);
    } else {
      assert sealed'[|sealed|].entries == active.entries + lines;
      assert sealed' == sealed'[..|sealed|] + [sealed'[|sealed|]];
      FilesOfMore(sealed', active'.num);
    }
  }

  /** The lines an operation appended. */
  function NewLines(sealed: seq<Segment>, active: Segment, sealed': seq<Segment>, active': Segment): seq<Entry>
    requires GrewTo(sealed, active, sealed', active')
  {
    if |sealed'| == |sealed| then active'.entries[|active.entries|..] else sealed'[|sealed|].entries[|active.entries|..]
  }

  /** Append the operation's lines to the active segment's file, and create the file of a new
      active segment. */
  method FollowSegments(c: Collection, d: Directory, sealed: seq<Segment>, active: Segment, ghost pass: Option<Pass>,
                        ghost began: nat)
    requires Ascending(c.sealed + [c.active]) && GrewTo(sealed, active, c.sealed, c.active) && FilesAre(d, sealed, active, pass)
    requires pass.Some? && sealed == pass.value.sealed ==> WritingSince(d.trace, began, sealed, active.num)
    modifies d`files, d`trace
    ensures FilesAre(d, c.sealed, c.active, pass) && old(d.trace) <= d.trace
    ensures pass.Some? && pass.value.sealed <= sealed && c.sealed == pass.value.sealed ==>
              WritingSince(d.trace, began, c.sealed, c.active.num)
  {
    hide Ascending, Swap.FilesOf, WritingSince, TempFiles, Swap.DistinctTemps;
    FilesAreTemps(d, sealed, active, pass);
    TempsAreTemps(pass);
    GrownFiles(d.files, TempsOf(pass), sealed, active, c.sealed, c.active);
    if pass.Some? && c.sealed == pass.value.sealed == sealed {
      SealedBelow(sealed, active);
      WritingGrows(d.trace, began, sealed, active.num, NewLines(sealed, active, c.sealed, c.active));
    }
    d.AppendLines(Swap.Seg(active.num), NewLines(sealed, active, c.sealed, c.active));
    if |c.sealed| > |sealed| {
      d.Create(Swap.Seg(c.active.num));
    }
    FilesAreTemps(d, c.sealed, c.active, pass);
  }

  lemma SealedBelow(sealed: seq<Segment>, active: Segment)
    requires Ascending(sealed + [active])
    ensures forall s | s in sealed :: s.num < active.num
  {
    var segs := sealed + [active];
    forall s | s in sealed ensures s.num < active.num {
      var i :| 0 <= i < |sealed| && sealed[i] == s;
      assert segs[i] == s && segs[|sealed|] == active;
    }
  }

  // ---- One step of a run -----------------------------------------------------------------------

  /** A collection with its directory, between two operations. While a pass is under way and no
      segment was sealed since it began, the directory has been in its writing phase. */
  ghost predicate Running(c: Collection, d: Directory, open: Open, pass: Option<Pass>, out: seq<Entry>, began: nat)
    reads c, c.sidx.Values, d
  {
    && c.Valid() && FilesAre(d, c.sealed, c.active, pass) && Reservations(open, c.view, c.idSeq)
    && (if pass.Some? then Holding(pass.value, out) && pass.value.sealed <= c.sealed else out == [])
    && (pass.Some? && c.sealed == pass.value.sealed ==> WritingSince(d.trace, began, c.sealed, c.active.num))
  }

  lemma RunningSnap(c: Collection, d: Directory, open: Open, pass: Option<Pass>, out: seq<Entry>, began: nat)
    requires Running(c, d, open, pass, out, began)
    ensures SnapOk(SnapOf(c, open, pass, out)) && Ascending(c.sealed + [c.active]) && c.idSeq + 1 !in c.view
    ensures Sturdy(SnapOf(c, open, pass, out))
  {
    hide Core, Tracks, TotalBytes, HeldLive, Entries, Replay, WellFormed;
    CoreLog(c.cfg.len, c.sealed + [c.active], c.log, c.index, c.idSeq, c.hist, c.view);
    CoreView(c.cfg.len, c.sealed + [c.active], c.log, c.index, c.idSeq, c.hist, c.view);
    CoreHistory(c.cfg.len, c.sealed + [c.active], c.log, c.index, c.idSeq, c.hist, c.view);
    CoreAscends(c.cfg.len, c.sealed + [c.active], c.log, c.index, c.idSeq, c.hist, c.view);
    CoreIds(c.cfg.len, c.sealed + [c.active], c.log, c.index, c.idSeq, c.hist, c.view);
    EntriesSnoc(c.sealed, c.active);
  }

  method StepBegin(c: Collection, d: Directory, open: Open, pass: Option<Pass>, a: Action, ghost out: seq<Entry>,
                   ghost began: nat)
    returns (pass': Option<Pass>, answer: bool, ghost out': seq<Entry>, ghost began': nat)
    requires Running(c, d, open, pass, out, began) && a.BeginCompact? && Sane(a)
    modifies d`files, d`trace
    ensures Running(c, d, open, pass', out', began') && old(d.trace) <= d.trace
    ensures Ran(c.cfg, a, SnapOf(c, open, pass, out), SnapOf(c, open, pass', out'), answer)
  {
    hide Core, Tracks, TotalBytes, HeldLive, Reservations, Survivors, Entries, Holding, WritingSince, Swap.FilesOf, Ascending,
         Reseals, TempFiles, Swap.DistinctTemps, Swap.Contents;
    pass', answer, out', began' := pass, false, out, began;
    if pass.Some? {
      return;
    }
    ghost var s, from := SnapOf(c, open, pass, out), |d.trace| - 1;
    var r;
    ghost var resolved;
    r, resolved := BeginPass(c, d, a.now, a.maxSize, a.reseal);
    if r.Ready? {
      pass', answer, out', began' := Some(r.pass), true, resolved, from;
    }
    if !r.Idle? {
      assert Begins(a.now, a.reseal, s, SnapOf(c, open, pass', out'), answer, resolved, if r.Ready? then r.pass.temps else []);
    }
  }

  method StepFinish(c: Collection, d: Directory, open: Open, pass: Option<Pass>, ghost out: seq<Entry>, ghost began: nat)
    returns (answer: bool, broke: bool)
    requires Running(c, d, open, pass, out, began)
    modifies c, c.sidx.Values, d
    ensures c.sidx == old(c.sidx) && (broke <==> Breaks(old(SnapOf(c, open, pass, out))))
    ensures !broke ==>
              && Running(c, d, open, None, [], 0) && old(d.trace) <= d.trace
              && FinishRan(c.cfg, old(SnapOf(c, open, pass, out)), SnapOf(c, open, None, []), answer)
    ensures broke ==> LeftCollided(c, old(c.active.num)) || LeftDropped(c)
  {
    hide Core, Tracks, TotalBytes, HeldLive, FieldVals, HeldOf, Reservations, Survivors, Entries, Holding, WritingSince,
         Swap.FilesOf, Ascending, Compacted, ReclaimedIds, AllDeletes, Forgotten, SegmentDropped, LeftCollided, LeftDropped,
         Track, Swap.Init, Swap.PlanOk, TempFiles, Swap.DistinctTemps, Replay, Grown;
    answer, broke := false, false;
    if pass.None? {
      return;
    }
    ghost var s := SnapOf(c, open, pass, out);
    var r;
    ghost var drops, run;
    r, drops, run := FinishPass(c, d, pass.value, out, began);
    answer, broke := true, !r.Installed?;
    if r.Installed? {
      HeldFields(c, s.held);
      CoreView(c.cfg.len, c.sealed + [c.active], c.log, c.index, c.idSeq, c.hist, c.view);
      CoreLog(c.cfg.len, c.sealed + [c.active], c.log, c.index, c.idSeq, c.hist, c.view);
      assert Finishes(c.cfg, s, SnapOf(c, open, None, []), drops);
      FinishGrown(c.cfg, s, SnapOf(c, open, None, []));
      ReservedKept(open, s.view, s.idSeq, c.view, c.idSeq);
    }
  }

  lemma HeldFields(c: Collection, h: Held)
    requires c.Valid() && h.Keys == c.held.Keys
    ensures c.sidx.Keys == h.Keys
  {
  }

  lemma FinishGrown(cfg: Config, s: Snap, t: Snap)
    requires FinishRan(cfg, s, t, true)
    ensures Grown(s.view, s.idSeq, t.view)
  {
  }

  /** One operation, with the files following the segments. It is the step that its
      specification says, unless it ends a pass that overwrites the active segment or drops one. */
  method Step(c: Collection, d: Directory, open: Open, pass: Option<Pass>, a: Action, ghost out: seq<Entry>, ghost began: nat)
    returns (open': Open, pass': Option<Pass>, answer: bool, broke: bool, ghost out': seq<Entry>, ghost began': nat)
    requires Running(c, d, open, pass, out, began) && Sane(a) && (a.DoApply? ==> open == map[])
    modifies c, c.sidx.Values, d
    ensures fresh(c.sidx.Values - old(c.sidx.Values))
    ensures broke <==> a.FinishCompact? && Breaks(old(SnapOf(c, open, pass, out)))
    ensures !broke ==>
              && Running(c, d, open', pass', out', began') && old(d.trace) <= d.trace
              && Ran(c.cfg, a, old(SnapOf(c, open, pass, out)), SnapOf(c, open', pass', out'), answer)
    ensures broke ==> LeftCollided(c, old(c.active.num)) || LeftDropped(c)
  {
    hide Core, Tracks, TotalBytes, HeldLive, Reservations, LeftCollided, LeftDropped, Swap.FilesOf, Ascending, FinishRan,
         TransactionRan, UpkeepRan, Holding, WritingSince, TempFiles, Swap.DistinctTemps, SnapOk, InsertRan, ManyRan,
         UpdateRan, DeleteRan, UpsertRan, SwapRan, BeginRan, Breaks;
    open', pass', out', began', broke := open, pass, out, began, false;
    if a.BeginCompact? {
      pass', answer, out', began' := StepBegin(c, d, open, pass, a, out, began);
    } else if a.FinishCompact? {
      answer, broke := StepFinish(c, d, open, pass, out, began);
      pass', out', began' := None, [], 0;
    } else {
      open', answer := StepOther(c, d, open, pass, a, out, began);
    }
  }

  method RunOther(c: Collection, open: Open, a: Action, ghost pass: Option<Pass>, ghost out: seq<Entry>)
    returns (open': Open, answer: bool)
    requires c.Valid() && Reservations(open, c.view, c.idSeq) && Sane(a) && !a.BeginCompact? && !a.FinishCompact?
    modifies c, c.sidx.Values
    ensures c.Valid() && fresh(c.sidx.Values - old(c.sidx.Values))
    ensures Ran(c.cfg, a, old(SnapOf(c, open, pass, out)), SnapOf(c, open', pass, out), answer)
  {
    hide Core, Tracks, TotalBytes, HeldLive, Reservations, TransactionRan, UpkeepRan, InsertRan, ManyRan, UpdateRan, DeleteRan,
         UpsertRan, SwapRan, Sane;
    open' := open;
    if a.InTransaction() {
      open', answer := RunTransaction(c, open, a, pass, out);
    } else if a.IsUpkeep() {
      answer := RunUpkeep(c, a, open, pass, out);
    } else {
      answer := RunWrite(c, a, open, pass, out);
    }
  }

  method StepOther(c: Collection, d: Directory, open: Open, pass: Option<Pass>, a: Action, ghost out: seq<Entry>,
                   ghost began: nat)
    returns (open': Open, answer: bool)
    requires Running(c, d, open, pass, out, began) && Sane(a) && (a.DoApply? ==> open == map[])
    requires !a.BeginCompact? && !a.FinishCompact?
    modifies c, c.sidx.Values, d`files, d`trace
    ensures fresh(c.sidx.Values - old(c.sidx.Values))
    ensures Running(c, d, open', pass, out, began) && old(d.trace) <= d.trace
    ensures Ran(c.cfg, a, old(SnapOf(c, open, pass, out)), SnapOf(c, open', pass, out), answer)
  {
    hide Core, Tracks, TotalBytes, HeldLive, Reservations, Swap.FilesOf, Ascending, Ran, Holding, WritingSince, TempFiles,
         Swap.DistinctTemps, SnapOk, Sane, GrewTo, FilesAre;
    RunningSnap(c, d, open, pass, out, began);
    ghost var s := SnapOf(c, open, pass, out);
    var sealed, active := c.sealed, c.active;
    open', answer := RunOther(c, open, a, pass, out);
    ghost var t := SnapOf(c, open', pass, out);
    RanExtends(c.cfg, a, s, t, answer);
    RanReserves(c.cfg, a, s, t, answer);
    CoreAscends(c.cfg.len, c.sealed + [c.active], c.log, c.index, c.idSeq, c.hist, c.view);
    FollowSegments(c, d, sealed, active, pass, began);
    SealedGrew(sealed, active, c.sealed, c.active);
  }

  lemma SealedGrew(sealed: seq<Segment>, active: Segment, sealed': seq<Segment>, active': Segment)
    requires GrewTo(sealed, active, sealed', active')
    ensures sealed <= sealed'
  {
  }

  // ---- Any run -----------------------------------------------------------------------------

  /** What holds of a collection after any run: the live index is Rebuild of the segments and
      lists the live records, segment numbers ascend to the active one, and every secondary
      index is in order and files live records only. */
  ghost predicate Agreement(c: Collection)
    reads c, c.sidx.Values
  {
    var segs := c.sealed + [c.active];
    && c.index == Rebuild(AllLines(c.cfg.len, segs))
    && c.view == Replay(Entries(segs)) && c.index.Keys == c.view.Keys
    && (forall id | id in c.index :: Mirrors(c.index[id], c.view[id]))
    && (forall s | s in c.sealed :: s.num < c.active.num)
    && c.SidxOk(c.held) && HeldLive(c.held, c.view)
  }

  lemma ValidAgrees(c: Collection)
    requires c.Valid()
    ensures Agreement(c)
  {
    var segs := c.sealed + [c.active];
    CoreView(c.cfg.len, segs, c.log, c.index, c.idSeq, c.hist, c.view);
    CoreMirrors(c.cfg.len, segs, c.log, c.index, c.idSeq, c.hist, c.view);
    CoreAscends(c.cfg.len, segs, c.log, c.index, c.idSeq, c.hist, c.view);
    SealedBelow(c.sealed, c.active);
  }

  /** Any run, up to the end of a pass that overwrites the active segment or drops one. It is the
      script, step by step, with the answers given; the derived state agrees with the segments
      at its end and the directory holds exactly their files and the temps of a pass under
      way; the secondary indexes hold what a rebuild computes if they did before and sealing
      left the indexed fields alone; and of swaps that expected the same revision one won. */
  method AnyRun(c: Collection, d: Directory, acts: seq<Action>, ghost fields: set<string>)
    returns (answers: seq<bool>, broke: bool, ghost snaps: seq<Snap>)
    requires c.Valid() && FilesAre(d, c.sealed, c.active, None)
    requires OneRoleAtATime(acts) && forall i | 0 <= i < |acts| :: Sane(acts[i])
    modifies c, c.sidx.Values, d
    ensures IsRunOf(c.cfg, acts, answers, snaps) && snaps[0] == old(SnapOf(c, map[], None, []))
    ensures OneWinnerEach(acts, answers, snaps)
    ensures AllSturdy(snaps, |snaps|) && Lasting(c.cfg.fmt, acts, answers, snaps)
    ensures Tidy(old(c.held), old(c.view), fields) && (forall i | 0 <= i < |acts| :: SealsOther(acts[i], fields)) ==>
              Tidy(snaps[|answers|].held, snaps[|answers|].view, fields)
    ensures !broke ==>
              && |answers| == |acts| && c.Valid() && Agreement(c)
              && var s := snaps[|answers|]; s == SnapOf(c, s.open, s.pass, s.out) && FilesAre(d, c.sealed, c.active, s.pass)
    ensures broke ==>
              && |answers| < |acts| && acts[|answers|].FinishCompact? && Breaks(snaps[|answers|])
              && (LeftCollided(c, snaps[|answers|].active.num) || LeftDropped(c))
  {
    hide Core, Tracks, TotalBytes, HeldLive, Agreement, Sane, Tidy, Reservations, OpenAgrees, SealsOther, Swap.FilesOf,
         Ascending, IsRunOf, FilesAre, Running, OneWinnerEach, Ran, Breaks, LeftCollided, LeftDropped, SnapOk,
         Sturdy, AllSturdy, Lasting;
    ghost var agree := Tidy(c.held, c.view, fields) && forall i | 0 <= i < |acts| :: SealsOther(acts[i], fields);
    var open: Open, pass: Option<Pass> := map[], None;
    ghost var out, began := [], 0;
    answers, snaps := [], [SnapOf(c, map[], None, [])];
    NewRun(c, d, acts, snaps[0], fields);
    NoneYet(snaps);
    for i := 0 to |acts|
      invariant Running(c, d, open, pass, out, began) && fresh(c.sidx.Values - old(c.sidx.Values))
      invariant |answers| == i && |snaps| == i + 1 && IsRunOf(c.cfg, acts, answers, snaps)
      invariant snaps[0] == old(SnapOf(c, map[], None, []))
      invariant snaps[i] == SnapOf(c, open, pass, out) && open.Keys == OpenIn(acts, i) && AllSturdy(snaps, i)
      invariant agree ==> Tidy(snaps[i].held, snaps[i].view, fields) && OpenAgrees(open, fields)
    {
      ghost var s := snaps[i];
      var answer;
      EndOfRun(c, d, open, pass, out, began, acts, answers, snaps);
      open, pass, answer, broke, out, began := Step(c, d, open, pass, acts[i], out, began);
      if broke {
        return;
      }
      ghost var t := SnapOf(c, open, pass, out);
      OpenFollows(c.cfg, acts, i, s, t, answer);
      if agree { RanTidy(c.cfg, acts[i], s, t, answer, fields); }
      RunSnoc(c.cfg, acts, answers, snaps, t, answer);
      AllSturdySnoc(snaps, t);
      answers, snaps := answers + [answer], snaps + [t];
    }
    broke := false;
    EndOfRun(c, d, open, pass, out, began, acts, answers, snaps);
  }

  lemma NewRun(c: Collection, d: Directory, acts: seq<Action>, s: Snap, fields: set<string>)
    requires c.Valid() && FilesAre(d, c.sealed, c.active, None) && s == SnapOf(c, map[], None, [])
    ensures Running(c, d, map[], None, [], 0) && IsRunOf(c.cfg, acts, [], [s]) && OpenAgrees(map[], fields)
  {
    NoneOpen(c.view, c.idSeq);
  }

  lemma EndOfRun(c: Collection, d: Directory, open: Open, pass: Option<Pass>, out: seq<Entry>, began: nat, acts: seq<Action>,
                 answers: seq<bool>, snaps: seq<Snap>)
    requires Running(c, d, open, pass, out, began) && IsRunOf(c.cfg, acts, answers, snaps)
    requires snaps[|answers|] == SnapOf(c, open, pass, out) && AllSturdy(snaps, |answers|)
    ensures c.Valid() && Agreement(c) && FilesAre(d, c.sealed, c.active, pass) && OneWinnerEach(acts, answers, snaps)
    ensures AllSturdy(snaps, |snaps|) && Lasting(c.cfg.fmt, acts, answers, snaps)
  {
    hide Core, Tracks, TotalBytes, HeldLive, Ran, OneWinnerEach, Agreement, Lasting, Sturdy;
    ValidAgrees(c);
    RunningSnap(c, d, open, pass, out, began);
    WinnersApart(c.cfg, acts, answers, snaps);
    RunLasts(c.cfg, acts, answers, snaps);
  }

  lemma NoneYet(snaps: seq<Snap>)
    ensures AllSturdy(snaps, 0)
  {
  }
}
