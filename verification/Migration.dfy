/** MigrateNow: one pass that brings every record and every line of a collection to the
    current policy epoch without changing any plaintext. */
module Migration {
  import opened Common
  import opened Values
  import opened Log
  import opened Compaction
  import opened Store
  import opened SecondaryIndexes
  import opened Writes
  import opened Collections
  import opened Compactor
  import opened Passes
  import opened Steps
  import opened Runs
  import opened Encryption
  import Swap
  import Collisions

  /** reencryptForMigration on one entry: left alone at the current epoch, else re-sealed and
      stamped with it. `text` gives the fresh ciphertexts of a record. */
  function Migrated(e: Encryptor, k: Keys, text: (nat, string) -> string, x: Entry): Option<Entry>
    requires Usable(k)
  {
    if x.op.Delete? || x.epoch == e.epoch then Some(x) else
    var stored := Reencrypted(e, k, x.data, f => text(x.id, f));
    if stored.None? then None else Some(x.(data := stored.value, epoch := e.epoch))
  }

  /** Re-sealing keeps the plaintext of every clean record. */
  lemma MigratedKeepsPlain(e: Encryptor, k: Keys, text: (nat, string) -> string, x: Entry)
    requires Usable(k) && Proper(e) && Plain(e, k, x.data).Some? && Clean(e.readMode, Plain(e, k, x.data).value)
    ensures Migrated(e, k, text, x).Some?
    ensures Plain(e, k, Migrated(e, k, text, x).value.data) == Plain(e, k, x.data)
  {
    hide Plain, Stored, Clean;
    SealOpens(e, k, Plain(e, k, x.data).value, f => text(x.id, f));
  }

  /** A record migrated from another epoch is sealed as the policy asks, under the current key. */
  lemma MigratedNow(e: Encryptor, k: Keys, text: (nat, string) -> string, x: Entry)
    requires Usable(k) && Migrated(e, k, text, x).Some? && !x.op.Delete?
    ensures if x.epoch == e.epoch then Migrated(e, k, text, x) == Some(x) else SealedNow(e, k, Migrated(e, k, text, x).value.data)
  {
    hide Plain, Stored, SealedNow;
    if x.epoch != e.epoch { StoredNow(e, k, Plain(e, k, x.data).value, f => text(x.id, f)); }
  }

  /** Every record of `w` that was not at the current epoch in `v` is sealed as the policy asks. */
  ghost predicate AllSealedNow(e: Encryptor, k: Keys, v: View, w: View) {
    forall id | id in w :: id in v && if v[id].epoch == e.epoch then w[id] == v[id] else SealedNow(e, k, w[id].data)
  }

  lemma {:induction false} TombstonesRemove(v: View, es: seq<Entry>, id: nat)
    requires AllDeletes(es) && Touched(es, id)
    ensures id !in ReplayOn(v, es)
  {
    var init, last := es[..|es| - 1], es[|es| - 1];
    assert last in es;
    if last.id != id {
      var i :| 0 <= i < |es| && es[i].id == id;
      assert init[i].id == id && forall x | x in init :: x in es;
      TombstonesRemove(v, init, id);
    }
  }

  lemma PassSeals(e: Encryptor, k: Keys, text: (nat, string) -> string, past: seq<Entry>, out: seq<Entry>, cut: seq<Entry>,
                  active: seq<Entry>, now: int)
    requires Usable(k) && Survivors(out, past, now) && Resealed(out, cut) && AllDeletes(active)
    requires forall i | 0 <= i < |out| :: Migrated(e, k, text, out[i]) == Some(cut[i])
    ensures AllSealedNow(e, k, Replay(past + active), Replay(cut + active))
  {
    hide SealedNow, Migrated, Survivors, Resealed, Replay;
    var v, w := Replay(past + active), Replay(cut + active);
    forall id | id in w ensures id in v && if v[id].epoch == e.epoch then w[id] == v[id] else SealedNow(e, k, w[id].data) {
      NotTombstoned(cut, active, id);
      var i := RewrittenFrom(past, out, cut, active, now, id);
      LiveIsEntry(past + active, id);
      MigratedNow(e, k, text, out[i]);
    }
  }

  lemma NotTombstoned(cut: seq<Entry>, active: seq<Entry>, id: nat)
    requires AllDeletes(active) && id in Replay(cut + active)
    ensures !Touched(active, id)
  {
    ReplayConcat(map[], cut, active);
    if Touched(active, id) { TombstonesRemove(Replay(cut), active, id); }
  }

  /** Every line is a tombstone or at the epoch. */
  predicate AtEpoch(es: seq<Entry>, epoch: nat) {
    forall i | 0 <= i < |es| :: es[i].op.Delete? || es[i].epoch == epoch
  }

  lemma LinesAtEpoch(e: Encryptor, k: Keys, text: (nat, string) -> string, out: seq<Entry>, cut: seq<Entry>, active: seq<Entry>)
    requires Usable(k) && |out| == |cut| && AllDeletes(active)
    requires forall i | 0 <= i < |out| :: Migrated(e, k, text, out[i]) == Some(cut[i])
    ensures AtEpoch(cut + active, e.epoch)
  {
  }

  /** The records the migration may drop: those past their deadline when it reaps or resolves. */
  predicate Kept(x: Entry, reapAt: int, now: int) {
    !Expired(x.expiresAt, reapAt) && !Expired(x.expiresAt, now)
  }

  /** `w` holds what `v` held, in plaintext, save for records past their deadline. */
  ghost predicate SamePlain(e: Encryptor, k: Keys, v: View, w: View, reapAt: int, now: int) {
    && (forall id | id in w :: id in v)
    && (forall id | id in v && Kept(v[id], reapAt, now) :: id in w)
    && (forall id | id in w && Plain(e, k, v[id].data).Some? && Clean(e.readMode, Plain(e, k, v[id].data).value) ::
          Plain(e, k, w[id].data) == Plain(e, k, v[id].data) && SameButSealed(v[id], w[id]))
  }

  lemma PassKeepsPlain(e: Encryptor, k: Keys, text: (nat, string) -> string, past: seq<Entry>, out: seq<Entry>, cut: seq<Entry>,
                       active: seq<Entry>, reapAt: int, now: int)
    requires Usable(k) && Proper(e) && Survivors(out, past, now) && Resealed(out, cut)
    requires forall i | 0 <= i < |out| :: Migrated(e, k, text, out[i]) == Some(cut[i])
    ensures SamePlain(e, k, Replay(past + active), Replay(cut + active), reapAt, now)
  {
    hide Plain, Clean, Migrated, Survivors;
    var v, w := Replay(past + active), Replay(cut + active);
    CompactionPreserves(past, out, cut, active, now);
    forall id | id in v && Kept(v[id], reapAt, now) ensures id in w {
      NotReclaimed(past, active, now, id);
    }
    forall id | id in w && Plain(e, k, v[id].data).Some? && Clean(e.readMode, Plain(e, k, v[id].data).value)
      ensures Plain(e, k, w[id].data) == Plain(e, k, v[id].data)
    {
      if !Touched(active, id) {
        var i := RewrittenFrom(past, out, cut, active, now, id);
        MigratedKeepsPlain(e, k, text, out[i]);
      }
    }
  }

  lemma NotReclaimed(past: seq<Entry>, active: seq<Entry>, now: int, id: nat)
    requires id in Replay(past + active) && !Expired(Replay(past + active)[id].expiresAt, now)
    ensures !Reclaimed(past, active, now, id)
  {
    ReplayConcat(map[], past, active);
    ReplayAt(Replay(past), Replay(past), active, id);
  }

  lemma ReapKeepsPlain(e: Encryptor, k: Keys, v: View, mid: View, w: View, reapAt: int, now: int)
    requires mid == v - ExpiredIds(v, reapAt) && SamePlain(e, k, mid, w, reapAt, now)
    ensures SamePlain(e, k, v, w, reapAt, now)
  {
  }

  lemma ReapKeepsSealed(e: Encryptor, k: Keys, v: View, mid: View, w: View, reapAt: int)
    requires mid == v - ExpiredIds(v, reapAt) && AllSealedNow(e, k, mid, w)
    ensures AllSealedNow(e, k, v, w)
  {
  }

  lemma EmptyActive(len: LineLen, es: seq<Entry>)
    requires Bytes(len, es) == 0
    ensures es == []
  {
  }

  /** Every live index entry carries the epoch of a line. */
  lemma IndexAtEpoch(len: LineLen, segs: seq<Segment>, log: seq<Entry>, index: Index, idSeq: nat,
                     hist: seq<Entry>, view: View, epoch: nat)
    requires Core(len, segs, log, index, idSeq, hist, view) && AtEpoch(log, epoch)
    ensures forall id | id in index :: index[id].epoch == epoch
  {
    CoreMirrors(len, segs, log, index, idSeq, hist, view);
    forall id | id in index ensures index[id].epoch == epoch {
      LiveIsEntry(log, id);
    }
  }

  lemma NothingSealed(len: LineLen, active: Segment, log: seq<Entry>, index: Index, idSeq: nat,
                      hist: seq<Entry>, view: View, epoch: nat)
    requires Core(len, [] + [active], log, index, idSeq, hist, view) && AllDeletes(active.entries)
    ensures AtEpoch(log, epoch)
  {
    CoreLog(len, [] + [active], log, index, idSeq, hist, view);
    EntriesSnoc([], active);
  }

  lemma NothingLive(len: LineLen, active: Segment, log: seq<Entry>, index: Index, idSeq: nat,
                    hist: seq<Entry>, view: View, e: Encryptor, k: Keys, v: View)
    requires Core(len, [] + [active], log, index, idSeq, hist, view) && AllDeletes(active.entries)
    ensures AllSealedNow(e, k, v, view)
  {
    hide SealedNow;
    CoreView(len, [] + [active], log, index, idSeq, hist, view);
    EntriesSnoc([], active);
    assert [] + active.entries == active.entries;
    forall id | id in view ensures false { LiveIsEntry(active.entries, id); }
  }

  /** Seal the active segment unless it is empty, then tombstone what has expired: only
      tombstones are left outside the sealed segments. */
  method SealAndReap(c: Collection, d: Directory, reapAt: int)
    requires c.Valid() && FilesAre(d, c.sealed, c.active, None)
    modifies c`sealed, c`active, c`index, c`log, c`hist, c`view, c`held, c`size, c.sidx.Values, d`files, d`trace
    ensures c.Valid() && FilesAre(d, c.sealed, c.active, None) && AllDeletes(c.active.entries)
    ensures c.view == old(c.view) - ExpiredIds(old(c.view), reapAt)
    ensures Replay(Entries(c.sealed)) == old(c.view) || Replay(Entries(c.sealed)) == c.view
  {
    hide Core, Tracks, FieldVals, TotalBytes, HeldLive, ExpiredIds, Replay, Entries, Bytes, Swap.FilesOf, Ascending, DropAll,
         Landed, TombstonesOf, GrewTo, AllDeletes, Collection.UniqueFields, Collection.SidxOk;
    SealActive(c, d);
    AllSealed(c.cfg.len, c.sealed, c.active, c.log, c.index, c.idSeq, c.hist, c.view);
    var sealed, active := c.sealed, c.active;
    ghost var drops := c.Reap(reapAt);
    LandedGrew(c.cfg, sealed, active, drops);
    TombstonesDelete(drops, ExpiredIds(old(c.view), reapAt), reapAt);
    LandsInEmpty(c.cfg, sealed, active, drops);
    if c.active.entries == [] {
      AllSealed(c.cfg.len, c.sealed, c.active, c.log, c.index, c.idSeq, c.hist, c.view);
    }
    CoreAscends(c.cfg.len, c.sealed + [c.active], c.log, c.index, c.idSeq, c.hist, c.view);
    FollowSegments(c, d, sealed, active, None, 0);
  }

  /** Move the records of the active segment into the sealed set. */
  method SealActive(c: Collection, d: Directory)
    requires c.Valid() && FilesAre(d, c.sealed, c.active, None)
    modifies c`sealed, c`active, d`files, d`trace
    ensures c.Valid() && FilesAre(d, c.sealed, c.active, None) && c.active.entries == []
  {
    hide Core, Tracks, TotalBytes, HeldLive, Bytes, Swap.FilesOf, Ascending, GrewTo, Landed;
    if Bytes(c.cfg.len, c.active.entries) > 0 {
      var sealed, active := c.sealed, c.active;
      c.Rotate();
      LandedGrew(c.cfg, sealed, active, []);
      CoreAscends(c.cfg.len, c.sealed + [c.active], c.log, c.index, c.idSeq, c.hist, c.view);
      FollowSegments(c, d, sealed, active, None, 0);
    } else {
      EmptyActive(c.cfg.len, c.active.entries);
    }
  }

  /** What is appended to an empty active segment is all of it, or was sealed with it. */
  lemma LandsInEmpty(cfg: Config, sealed: seq<Segment>, active: Segment, es: seq<Entry>)
    requires active.entries == [] && AllDeletes(es)
    ensures var (sealed', active') := Landed(cfg, sealed, active, es);
            AllDeletes(active'.entries) && (active'.entries == [] || sealed' == sealed)
  {
    assert [] + es == es;
  }

  lemma AllSealed(len: LineLen, sealed: seq<Segment>, active: Segment, log: seq<Entry>, index: Index, idSeq: nat,
                  hist: seq<Entry>, view: View)
    requires Core(len, sealed + [active], log, index, idSeq, hist, view) && active.entries == []
    ensures Replay(Entries(sealed)) == view
  {
    CoreView(len, sealed + [active], log, index, idSeq, hist, view);
    EntriesSnoc(sealed, active);
    assert Entries(sealed) + [] == Entries(sealed);
  }

  /** Every record can be read with the keys at hand and is clean. */
  predicate Readable(e: Encryptor, k: Keys, v: View) {
    forall id | id in v :: Plain(e, k, v[id].data).Some? && Clean(e.readMode, Plain(e, k, v[id].data).value)
  }

  lemma ReadableNeverAborts(e: Encryptor, k: Keys, text: (nat, string) -> string,
                            past: seq<Entry>, out: seq<Entry>, v: View, now: int)
    requires Usable(k) && Proper(e) && Survivors(out, past, now) && Readable(e, k, v)
    requires forall id | id in Replay(past) :: id in v && v[id] == Replay(past)[id]
    ensures forall x | x in out :: Migrated(e, k, text, x).Some?
  {
    hide Plain, Clean, Migrated, Replay;
    forall x | x in out ensures Migrated(e, k, text, x).Some? {
      MigratedKeepsPlain(e, k, text, v[x.id]);
    }
  }

  /** MigrateNow with no writes in between. When it ends installed, or had nothing to do,
      every live index entry and every line but tombstones carries the current epoch, every record
      of another epoch is sealed as the policy asks under the current key, and the plaintext of
      every unexpired record is what it was. It never aborts on readable records;
      it may overwrite the active segment, as any pass may. */
  method MigrateNow(c: Collection, d: Directory, e: Encryptor, k: Keys, text: (nat, string) -> string, reapAt: int, now: int,
                    maxSize: int)
    returns (r: PassResult)
    requires c.Valid() && FilesAre(d, c.sealed, c.active, None) && Usable(k) && Proper(e) && maxSize > 0
    modifies c`sealed, c`active, c`index, c`log, c`hist, c`view, c`held, c`size, c.sidx.Values, d
    ensures r != Ended(Collided) ==> c.Valid() && FilesAre(d, c.sealed, c.active, None)
    ensures r == Ended(Collided) ==> LeftCollided(c, c.active.num)
    ensures r == Ended(Installed) || r.NothingToDo? ==>
              && (forall id | id in c.index :: c.index[id].epoch == e.epoch) && AtEpoch(c.log, e.epoch)
              && SamePlain(e, k, old(c.view), c.view, reapAt, now) && AllSealedNow(e, k, old(c.view), c.view)
    ensures r.Aborted? || r.NothingToDo? ==> c.view == old(c.view) - ExpiredIds(old(c.view), reapAt)
    ensures Readable(e, k, old(c.view)) ==> !r.Aborted?
  {
    hide Core, Tracks, FieldVals, TotalBytes, HeldLive, HeldOf, ExpiredIds, Migrated, SamePlain, AtEpoch, Survivors, Entries,
         Replay, Ascending, AllDeletes, Compacted, ReclaimedIds, Readable, Swap.FilesOf, Collisions.Forgotten, AllSealedNow;
    SealAndReap(c, d, reapAt);
    ghost var mid, past, act := c.view, Entries(c.sealed), c.active.entries;
    ghost var segs := c.sealed + [c.active];
    CoreView(c.cfg.len, segs, c.log, c.index, c.idSeq, c.hist, c.view);
    EntriesSnoc(c.sealed, c.active);
    MigratedReseals(e, k, text);
    ghost var out, drops;
    r, out, drops := CompactPass(c, d, now, maxSize, x => Migrated(e, k, text, x));
    if Readable(e, k, old(c.view)) && !r.NothingToDo? {
      ReadableNeverAborts(e, k, text, past, out, old(c.view), now);
    }
    if r == Ended(Installed) {
      LinesAtEpoch(e, k, text, out, Entries(c.sealed), act);
      PassKeepsPlain(e, k, text, past, out, Entries(c.sealed), act, reapAt, now);
      PassSeals(e, k, text, past, out, Entries(c.sealed), act, now);
      CoreView(c.cfg.len, c.sealed + [c.active], c.log, c.index, c.idSeq, c.hist, c.view);
      EntriesSnoc(c.sealed, c.active);
      ReapKeepsPlain(e, k, old(c.view), mid, c.view, reapAt, now);
      ReapKeepsSealed(e, k, old(c.view), mid, c.view, reapAt);
      IndexAtEpoch(c.cfg.len, c.sealed + [c.active], c.log, c.index, c.idSeq, c.hist, c.view, e.epoch);
    } else if r.NothingToDo? {
      NothingSealed(c.cfg.len, c.active, c.log, c.index, c.idSeq, c.hist, c.view, e.epoch);
      SameIsSame(e, k, c.view, reapAt, now);
      ReapKeepsPlain(e, k, old(c.view), mid, c.view, reapAt, now);
      NothingLive(c.cfg.len, c.active, c.log, c.index, c.idSeq, c.hist, c.view, e, k, old(c.view));
      IndexAtEpoch(c.cfg.len, c.sealed + [c.active], c.log, c.index, c.idSeq, c.hist, c.view, e.epoch);
    }
  }

  /** A crash at any point of a migration pass, and of any recoveries cut short, changes no
      plaintext: what an open finds after a completed recovery reads as the records did. */
  lemma CrashKeepsPlain(e: Encryptor, k: Keys, text: (nat, string) -> string, p: Swap.Plan, run: seq<Swap.State>,
                        out: seq<Entry>, now: int)
    requires Usable(k) && Proper(e)
    requires Swap.PlanOk(p) && Swap.IsRun(p, run) && Swap.Init(p, run[0]) && run[|run| - 1].phase == Swap.Done(true)
    requires Survivors(out, Entries(p.sealed), now) && Resealed(out, Swap.Contents(p.temps))
    requires forall i | 0 <= i < |out| :: Migrated(e, k, text, out[i]) == Some(Swap.Contents(p.temps)[i])
    requires Swap.NameOrdered(Swap.LayoutOf(p, run[|run| - 1]))
    ensures var s := run[|run| - 1];
            SamePlain(e, k, Replay(Entries(p.sealed) + s.act), Swap.Found(s.disk.files), now, now)
  {
    hide Swap.Next, Swap.Init, Swap.PlanOk, Swap.NameOrdered, Swap.FilesOf, Survivors, Resealed, Migrated, SamePlain, Entries,
         Replay, Swap.Contents, Swap.Found, Swap.OldLayout, Swap.NewLayout;
    var s := run[|run| - 1];
    Swap.CrashSafety(p, run);
    Swap.FoundInDecided(p, s);
    if s.committed {
      PassKeepsPlain(e, k, text, Entries(p.sealed), out, Swap.Contents(p.temps), s.act, now, now);
    } else {
      SameIsSame(e, k, Replay(Entries(p.sealed) + s.act), now, now);
    }
  }

  lemma SameIsSame(e: Encryptor, k: Keys, v: View, reapAt: int, now: int)
    ensures SamePlain(e, k, v, v, reapAt, now)
  {
  }

  lemma MigratedReseals(e: Encryptor, k: Keys, text: (nat, string) -> string)
    requires Usable(k)
    ensures Reseals(x => Migrated(e, k, text, x))
  {
  }
}
