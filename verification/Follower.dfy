/** A follower bootstraps from a fuzzy snapshot, then tails the leader's feed with overlap
    and idempotent apply. Its state is compared, record by record, with the leader's log
    state: entry i of the log carries LSN i + 1, in the form it has on the wire. */
module Follower {
  import opened Common
  import opened Log
  import opened Replication

  /** The committed entries of one collection, in order. */
  function Of(log: seq<ReplicationEntry>, c: string): seq<Entry> {
    if log == [] then [] else
    var k := |log| - 1;
    Of(log[..k], c) + (if log[k].collection == c then [log[k].entry] else [])
  }

  /** The leader's state of collection c once the first n entries are committed. */
  function Leader(log: seq<ReplicationEntry>, n: nat, c: string): View
    requires n <= |log|
  {
    Replay(Of(log[..n], c))
  }

  /** The leader writes each entry against its own state at that point. */
  ghost predicate Committed(log: seq<ReplicationEntry>) {
    && Consecutive(log, 0)
    && forall n | 0 <= n < |log| :: Sound(Leader(log, n, log[n].collection), log[n].entry)
  }

  lemma LeaderStep(log: seq<ReplicationEntry>, n: nat, c: string)
    requires n < |log|
    ensures Leader(log, n + 1, c) ==
            if log[n].collection == c then Apply(Leader(log, n, c), log[n].entry) else Leader(log, n, c)
  {
    TakeSnoc(log, n);
    var es := log[..n + 1];
    assert es[..n] == log[..n];
    if log[n].collection == c {
      ReplaySnoc(map[], Of(log[..n], c), log[n].entry);
    } else {
      assert Of(es, c) == Of(log[..n], c);
    }
  }

  type Db = map<string, View>

  function ViewOf(db: Db, c: string): View {
    if c in db then db[c] else map[]
  }

  function ApplyReplication(db: Db, re: ReplicationEntry): Db {
    db[re.collection := Replicate(ViewOf(db, re.collection), re.entry)]
  }

  ghost predicate AgreesAt(db: Db, log: seq<ReplicationEntry>, n: nat, c: string, id: nat)
    requires n <= |log|
  {
    SameAt(ViewOf(db, c), Leader(log, n, c), id)
  }

  ghost predicate Somewhere(db: Db, log: seq<ReplicationEntry>, w: nat, hi: nat, c: string, id: nat)
    requires hi <= |log|
  {
    exists n | w <= n <= hi :: AgreesAt(db, log, n, c, id)
  }

  /** Every record of `db`, present or absent, is as the leader had it at some point no
      earlier than `w` and no later than `hi`; the points may differ between records. */
  ghost predicate Between(db: Db, log: seq<ReplicationEntry>, w: nat, hi: nat) {
    && w <= hi <= |log|
    && forall c: string, id: nat :: Somewhere(db, log, w, hi, c, id)
  }

  /** A snapshot taken after reading the watermark: each collection is copied under its own
      lock, at some point of its own at or above the watermark. */
  ghost predicate Snapshot(db: Db, log: seq<ReplicationEntry>, w: nat, hi: nat, at: string -> nat) {
    && w <= hi <= |log|
    && forall c: string :: w <= at(c) <= hi && ViewOf(db, c) == Leader(log, at(c), c)
  }

  lemma SnapshotIsBetween(db: Db, log: seq<ReplicationEntry>, w: nat, hi: nat, at: string -> nat)
    requires Snapshot(db, log, w, hi, at)
    ensures Between(db, log, w, hi)
  {
    forall c: string, id: nat ensures Somewhere(db, log, w, hi, c, id) {
      assert AgreesAt(db, log, at(c), c, id);
    }
  }

  /** Idempotent apply either takes over the leader's new version of a record or leaves the
      follower's as it was; a record the leader had just before is always brought along. */
  lemma ReplicateStep(v: View, l: View, e: Entry, id: nat)
    requires Sound(l, e)
    ensures SameAt(Replicate(v, e), Apply(l, e), id) || SameAt(Replicate(v, e), v, id)
    ensures SameAt(v, l, id) ==> SameAt(Replicate(v, e), Apply(l, e), id)
  {
  }

  /** What applying an entry does to one record that it may or may not concern. */
  lemma RecordAdvances(db: Db, log: seq<ReplicationEntry>, w: nat, hi: nat, n: nat, c: string, id: nat)
    requires Committed(log) && w < |log| && w <= n <= hi <= |log| && AgreesAt(db, log, n, c, id)
    ensures var db' := ApplyReplication(db, log[w]);
            (n > w && AgreesAt(db', log, n, c, id)) || AgreesAt(db', log, w + 1, c, id)
  {
    var v, l, e := ViewOf(db, c), Leader(log, w, c), log[w].entry;
    var v' := ViewOf(ApplyReplication(db, log[w]), c);
    LeaderStep(log, w, c);
    if c == log[w].collection {
      assert v' == Replicate(v, e);
      ReplicateStep(v, l, e, id);
    } else {
      assert v' == v;
    }
  }

  /** Applying the entry right after the watermark advances the watermark. */
  lemma ApplyAdvances(db: Db, log: seq<ReplicationEntry>, w: nat, hi: nat)
    requires Committed(log) && Between(db, log, w, hi) && w < |log|
    ensures Between(ApplyReplication(db, log[w]), log, w + 1, if w < hi then hi else w + 1)
  {
    var db', w' := ApplyReplication(db, log[w]), w + 1;
    var hi' := if w < hi then hi else w';
    forall c: string, id: nat ensures Somewhere(db', log, w', hi', c, id) {
      assert Somewhere(db, log, w, hi, c, id);
      var n :| w <= n <= hi && AgreesAt(db, log, n, c, id);
      RecordAdvances(db, log, w, hi, n, c, id);
    }
  }

  /** Falling back to an older watermark, as a restart may, loses nothing. */
  lemma FallBack(db: Db, log: seq<ReplicationEntry>, w: nat, hi: nat, w': nat)
    requires Between(db, log, w, hi) && w' <= w
    ensures Between(db, log, w', hi)
  {
    forall c: string, id: nat ensures Somewhere(db, log, w', hi, c, id) {
      assert Somewhere(db, log, w, hi, c, id);
      var n :| w <= n <= hi && AgreesAt(db, log, n, c, id);
    }
  }

  /** Once the watermark has reached every point a record may stand at, the follower holds
      exactly the leader's state. */
  lemma CaughtUp(db: Db, log: seq<ReplicationEntry>, w: nat, c: string)
    requires Between(db, log, w, w)
    ensures ViewOf(db, c) == Leader(log, w, c)
  {
    var v, l := ViewOf(db, c), Leader(log, w, c);
    forall id: nat ensures SameAt(v, l, id) {
      assert Somewhere(db, log, w, w, c, id);
      var n :| w <= n <= w && AgreesAt(db, log, n, c, id);
    }
    SameEverywhere(v, l);
  }

  lemma SameEverywhere(v: View, w: View)
    requires forall id: nat :: SameAt(v, w, id)
    ensures v == w
  {
    forall id | id in v || id in w ensures id in v && id in w && v[id] == w[id] {
      assert SameAt(v, w, id);
    }
  }

  /** Entries a+1 to n applied in order. */
  function ApplyRange(db: Db, log: seq<ReplicationEntry>, a: nat, n: nat): Db
    requires a <= n <= |log|
  {
    if a == n then db else ApplyReplication(ApplyRange(db, log, a, n - 1), log[n - 1])
  }

  lemma {:induction false} RangeAdvances(db: Db, log: seq<ReplicationEntry>, a: nat, n: nat, hi: nat)
    requires Committed(log) && Between(db, log, a, hi) && a <= n <= |log|
    ensures Between(ApplyRange(db, log, a, n), log, n, if n < hi then hi else n)
  {
    if a < n {
      RangeAdvances(db, log, a, n - 1, hi);
      ApplyAdvances(ApplyRange(db, log, a, n - 1), log, n - 1, if n - 1 < hi then hi else n - 1);
    }
  }

  /** Fuzzy snapshot plus overlapping tail converges: applying every entry from the
      watermark through any n at or past all copy points gives the leader's state at n,
      although entries already contained in a copy are applied again, deletes included. */
  lemma TailConverges(db: Db, log: seq<ReplicationEntry>, a: nat, n: nat, hi: nat, at: string -> nat, c: string)
    requires Committed(log) && Snapshot(db, log, a, hi, at) && hi <= n <= |log|
    ensures ViewOf(ApplyRange(db, log, a, n), c) == Leader(log, n, c)
  {
    SnapshotIsBetween(db, log, a, hi, at);
    RangeAdvances(db, log, a, n, hi);
    CaughtUp(ApplyRange(db, log, a, n), log, n, c);
  }

  class Follower {
    var db: Db
    var applied: nat
    /** The highest point any record may stand at. */
    ghost var hi: nat

    ghost predicate Valid(log: seq<ReplicationEntry>) reads this {
      Committed(log) && Between(db, log, applied, hi)
    }

    /** Bootstrap: the watermark is read before the snapshot is taken. */
    constructor (snapshot: Db, watermark: nat, ghost log: seq<ReplicationEntry>, ghost hi: nat, ghost at: string -> nat)
      requires Committed(log) && Snapshot(snapshot, log, watermark, hi, at)
      ensures Valid(log) && applied == watermark && db == snapshot && this.hi == hi
    {
      SnapshotIsBetween(snapshot, log, watermark, hi, at);
      db, applied := snapshot, watermark;
      this.hi := hi;
    }

    /** One Replicate stream: skip what the watermark covers, apply the rest in order and
        advance. The feed is any gap-free stretch of the log that leaves no gap after the
        watermark, such as a subscription from it delivers. */
    method Stream(feed: seq<ReplicationEntry>, from: nat, ghost log: seq<ReplicationEntry>)
      requires Valid(log) && from <= applied
      requires from + |feed| <= |log| && forall i | 0 <= i < |feed| :: feed[i] == log[from + i]
      modifies this
      ensures Valid(log)
      ensures applied == if from + |feed| < old(applied) then old(applied) else from + |feed|
      ensures hi == if old(hi) < applied then applied else old(hi)
      ensures applied >= old(hi) ==> forall c: string :: ViewOf(db, c) == Leader(log, applied, c)
    {
      for i := 0 to |feed|
        invariant Valid(log)
        invariant applied == if from + i < old(applied) then old(applied) else from + i
        invariant hi == if old(hi) < applied then applied else old(hi)
      {
        var rec := feed[i];
        if rec.lsn > applied {
          ApplyAdvances(db, log, applied, hi);
          db := ApplyReplication(db, rec);
          applied := rec.lsn;
          if hi < applied { hi := applied; }
        }
      }
      if applied >= old(hi) {
        forall c: string ensures ViewOf(db, c) == Leader(log, applied, c) {
          CaughtUp(db, log, applied, c);
        }
      }
    }

    /** A restart resumes from whatever watermark was last persisted. */
    method Restart(persisted: nat, ghost log: seq<ReplicationEntry>)
      requires Valid(log) && persisted <= applied
      modifies this`applied
      ensures Valid(log) && applied == persisted
    {
      FallBack(db, log, applied, hi, persisted);
      applied := persisted;
    }
  }

  /** Leader and follower together: a follower that may resume is brought to exactly the
      leader's state by the backlog alone; one that may not has lost history from the ring. */
  method CatchUp(b: Broker, f: Follower, ghost log: seq<ReplicationEntry>) returns (ok: bool)
    requires b.Valid() && f.Valid(log) && f.applied <= b.lsn
    requires |b.log| <= b.lsn == |log| && forall i | 0 <= i < |b.log| :: log[b.lsn - |b.log| + i] == b.log[i]
    modifies b`subs, b`subSeq, b`feeds, f
    ensures b.Valid() && f.Valid(log)
    ensures ok <==> forall l | old(f.applied) < l <= b.lsn :: Retained(b.ring[..], b.head, b.size, l)
    ensures ok ==> f.applied == b.lsn && forall c: string :: ViewOf(f.db, c) == Leader(log, b.lsn, c)
    ensures !ok ==> f.db == old(f.db) && f.applied == old(f.applied)
  {
    hide ViewOf, Leader, RingOk, StateOk, Retained, Below, GapFree, After;
    var from := f.applied;
    var id, backlog;
    ok, id, backlog := b.Subscribe(from);
    if ok {
      GapFreeTail(b.log, b.lsn, from, b.feeds[id], b.subs[id]);
      f.Stream(backlog, from, log);
    }
  }

  /** A gap-free subscription has been given one entry for each LSN above its start. */
  lemma GapFreeTail(log: seq<ReplicationEntry>, lsn: nat, from: nat, f: Feed, s: Sub)
    requires f == NewFeed(log, lsn, from) && from <= lsn && s == Sub([], false) && GapFree(f, s, lsn)
    ensures Below(log, from) <= |log| && |log| - Below(log, from) == lsn - from
  {
  }
}
