/** The leader's replication broker: LSN assignment, the circular ring of recent entries,
    and the fan-out to subscribers with bounded queues. */
module Replication {
  import opened Log

  datatype ReplicationEntry = ReplicationEntry(lsn: nat, collection: string, entry: Entry)

  /** A subscriber's channel and its dead flag. */
  datatype Sub = Sub(queue: seq<ReplicationEntry>, dead: bool)

  /** What a subscription owes its follower: everything above LSN `start`, which begins at
      position `at` of the log; `got` is the backlog followed by what was received from the
      channel. */
  datatype Feed = Feed(start: nat, at: nat, got: seq<ReplicationEntry>)

  /** The LSNs are after+1, after+2, ... without gap or repeat. */
  predicate Consecutive(rs: seq<ReplicationEntry>, after: nat) {
    forall i | 0 <= i < |rs| :: rs[i].lsn == after + 1 + i
  }

  /** LSNs strictly rise, up to the counter; where it was raised they jump. */
  predicate Rising(rs: seq<ReplicationEntry>, lsn: nat) {
    && (forall i, j | 0 <= i < j < |rs| :: rs[i].lsn < rs[j].lsn)
    && (forall i | 0 <= i < |rs| :: rs[i].lsn <= lsn)
  }

  /** How many entries of the log lie at or below an LSN. */
  function Below(log: seq<ReplicationEntry>, from: nat): (k: nat)
    ensures k <= |log|
  {
    if log == [] then 0 else
    if log[|log| - 1].lsn <= from then |log| else Below(log[..|log| - 1], from)
  }

  lemma {:induction false} BelowSplits(log: seq<ReplicationEntry>, lsn: nat, from: nat)
    requires Rising(log, lsn)
    ensures forall i | 0 <= i < |log| :: log[i].lsn <= from <==> i < Below(log, from)
  {
    if log != [] && log[|log| - 1].lsn > from {
      var init := log[..|log| - 1];
      BelowSplits(init, lsn, from);
    }
  }

  lemma OneSplit(log: seq<ReplicationEntry>, lsn: nat, from: nat, k: nat)
    requires Rising(log, lsn) && k <= |log| && forall i | 0 <= i < |log| :: log[i].lsn <= from <==> i < k
    ensures Below(log, from) == k
  {
    BelowSplits(log, lsn, from);
  }

  /** The feed so far is a contiguous stretch of the published log, right after the last entry
      its follower already had, and it reaches the end of the log unless the subscriber was
      killed. */
  predicate FeedOk(log: seq<ReplicationEntry>, f: Feed, s: Sub) {
    var n := f.at + |f.got|;
    && n + |s.queue| <= |log| && f.got == log[f.at..n] && s.queue == log[n..n + |s.queue|]
    && (!s.dead ==> n + |s.queue| == |log|)
    && forall i | 0 <= i < |log| :: log[i].lsn <= f.start <==> i < f.at
  }

  /** A feed that counts up from its start without gap or repeat, to the counter unless the
      subscriber was killed. */
  predicate GapFree(f: Feed, s: Sub, lsn: nat) {
    Consecutive(f.got + s.queue, f.start) && (!s.dead ==> f.start + |f.got| + |s.queue| == lsn)
  }

  /** Fan-out of one entry to one subscriber: a full queue kills it instead of dropping. */
  function Fanned(s: Sub, re: ReplicationEntry, cap: nat): Sub {
    if s.dead then s
    else if |s.queue| < cap then s.(queue := s.queue + [re])
    else s.(dead := true)
  }

  lemma FeedPublished(log: seq<ReplicationEntry>, f: Feed, s: Sub, re: ReplicationEntry, cap: nat)
    requires FeedOk(log, f, s) && re.lsn > f.start
    ensures FeedOk(log + [re], f, Fanned(s, re, cap))
  {
    var all, n := log + [re], f.at + |f.got|;
    assert all[f.at..n] == log[f.at..n] && all[n..n + |s.queue|] == log[n..n + |s.queue|];
    if !s.dead { assert all[n..|all|] == log[n..|log|] + [re]; }
  }

  lemma GapFreePublished(f: Feed, s: Sub, lsn: nat, re: ReplicationEntry, cap: nat)
    requires GapFree(f, s, lsn) && re.lsn == lsn + 1
    ensures GapFree(f, Fanned(s, re, cap), lsn + 1)
  {
    assert f.got + (s.queue + [re]) == (f.got + s.queue) + [re];
  }

  lemma FeedReceived(log: seq<ReplicationEntry>, f: Feed, s: Sub, lsn: nat)
    requires FeedOk(log, f, s) && s.queue != []
    ensures var f', s' := f.(got := f.got + [s.queue[0]]), s.(queue := s.queue[1..]);
            FeedOk(log, f', s') && (GapFree(f, s, lsn) <==> GapFree(f', s', lsn))
  {
    var n := f.at + |f.got|;
    assert f.got + s.queue == (f.got + [s.queue[0]]) + s.queue[1..];
    assert log[f.at..n + 1] == log[f.at..n] + [log[n]] && s.queue[0] == log[n];
    assert s.queue[1..] == log[n + 1..n + |s.queue|];
  }

  /** Raising the counter under a subscriber: what it is owed stays gap-free exactly when it is
      dead already. */
  lemma RaisedUnder(f: Feed, s: Sub, lsn: nat, l: nat)
    requires GapFree(f, s, lsn) && lsn < l
    ensures GapFree(f, s, l) <==> s.dead
  {
  }

  /** The i-th retained entry of a circular buffer, oldest first. */
  function At(r: seq<ReplicationEntry>, head: nat, i: nat): ReplicationEntry
    requires head < |r| && i < |r|
  {
    Wrap(head, i, |r|);
    r[(head + i) % |r|]
  }

  lemma Wrap(h: nat, i: nat, cap: nat)
    requires h < cap && i <= cap
    ensures (h + i) % cap == if h + i < cap then h + i else h + i - cap
  {
  }

  /** The ring holds exactly the last `size` published entries, as many as fit. */
  predicate RingOk(r: seq<ReplicationEntry>, head: nat, size: nat, log: seq<ReplicationEntry>) {
    && head < |r|
    && size == (if |log| < |r| then |log| else |r|)
    && forall i | 0 <= i < size :: At(r, head, i) == log[|log| - size + i]
  }

  /** Appending to a ring with room. */
  lemma RingGrows(r: seq<ReplicationEntry>, head: nat, size: nat, log: seq<ReplicationEntry>, re: ReplicationEntry)
    requires RingOk(r, head, size, log) && size < |r|
    ensures 0 <= (head + size) % |r| < |r|
    ensures RingOk(r[(head + size) % |r| := re], head, size + 1, log + [re])
  {
    Wrap(head, size, |r|);
    var r' := r[(head + size) % |r| := re];
    forall i: nat | i < size + 1 ensures At(r', head, i) == (log + [re])[i] {
      Wrap(head, i, |r|);
      assert i < size ==> At(r, head, i) == log[i];
    }
  }

  /** Overwriting the oldest entry of a full ring. */
  lemma RingSlides(r: seq<ReplicationEntry>, head: nat, log: seq<ReplicationEntry>, re: ReplicationEntry)
    requires RingOk(r, head, |r|, log)
    ensures 0 <= (head + 1) % |r| < |r|
    ensures RingOk(r[head := re], (head + 1) % |r|, |r|, log + [re])
  {
    Wrap(head, 1, |r|);
    var h' := (head + 1) % |r|;
    var r' := r[head := re];
    forall i: nat | i < |r| ensures At(r', h', i) == (log + [re])[|log| + 1 - |r| + i] {
      Wrap(h', i, |r|);
      if i < |r| - 1 {
        Wrap(head, i + 1, |r|);
        assert At(r, head, i + 1) == log[|log| - |r| + (i + 1)];
      }
    }
  }

  /** The LSN below which the ring can serve nothing: the oldest retained entry's, or the next
      one to be assigned. */
  function OldestOf(log: seq<ReplicationEntry>, size: nat, lsn: nat): nat
    requires size <= |log|
  {
    if size == 0 then lsn + 1 else log[|log| - size].lsn
  }

  /** The entry with LSN l is still in the ring. */
  predicate Retained(r: seq<ReplicationEntry>, head: nat, size: nat, l: nat)
    requires head < |r| && size <= |r|
  {
    exists i | 0 <= i < size :: At(r, head, i).lsn == l
  }

  /** Some entry carries LSN l. */
  predicate Has(rs: seq<ReplicationEntry>, l: nat) {
    exists i | 0 <= i < |rs| :: rs[i].lsn == l
  }

  /** A strictly rising sequence that takes every value above `after` up to `lsn` counts up. */
  lemma {:induction false} RisingCovers(rs: seq<ReplicationEntry>, after: nat, lsn: nat)
    requires Rising(rs, lsn) && after <= lsn && (forall i | 0 <= i < |rs| :: after < rs[i].lsn)
    requires forall l | after < l <= lsn :: Has(rs, l)
    ensures |rs| == lsn - after && Consecutive(rs, after)
    decreases lsn
  {
    assert rs != [] ==> after < rs[0].lsn <= lsn;
    if lsn > after {
      assert Has(rs, lsn);
      var k :| 0 <= k < |rs| && rs[k].lsn == lsn;
      assert k == |rs| - 1;
      var init := rs[..k];
      forall l | after < l <= lsn - 1 ensures Has(init, l) {
        assert Has(rs, l);
        var i :| 0 <= i < |rs| && rs[i].lsn == l;
        assert init[i].lsn == l;
      }
      forall i | 0 <= i < |init| ensures init[i].lsn <= lsn - 1 {
        assert rs[i].lsn < rs[k].lsn;
      }
      RisingCovers(init, after, lsn - 1);
      assert rs == init + [rs[k]];
    }
  }

  /** Nothing above an accepted `from` has aged out of the ring. */
  lemma AboveIsRetained(log: seq<ReplicationEntry>, size: nat, lsn: nat, from: nat)
    requires Rising(log, lsn) && size <= |log| && OldestOf(log, size, lsn) <= from + 1
    ensures |log| - size <= Below(log, from)
  {
    BelowSplits(log, lsn, from);
    var o := |log| - size;
    forall i | 0 <= i < o ensures log[i].lsn <= from {
      assert o < |log| ==> log[i].lsn < log[o].lsn;
    }
    assert o > 0 ==> log[o - 1].lsn <= from;
  }

  /** A subscription is accepted whenever every LSN above `from` is still in the ring; and the
      feed of an accepted one is gap-free exactly then. */
  lemma ServedIff(r: seq<ReplicationEntry>, head: nat, size: nat, log: seq<ReplicationEntry>, lsn: nat, from: nat)
    requires RingOk(r, head, size, log) && Rising(log, lsn)
    ensures size <= |log| && head < |r| && size <= |r|
    ensures var all := forall l | from < l <= lsn :: Retained(r, head, size, l);
            && (all ==> OldestOf(log, size, lsn) <= from + 1)
            && (OldestOf(log, size, lsn) <= from + 1 ==>
                  (GapFree(NewFeed(log, lsn, from), Sub([], false), lsn) <==> all))
  {
    if OldestOf(log, size, lsn) > from + 1 {
      assert !Retained(r, head, size, from + 1) by { OldestIsFirst(r, head, size, log, lsn, from + 1); }
    } else {
      AboveIsRetained(log, size, lsn, from);
      ServedAll(r, head, size, log, lsn, from);
    }
  }

  lemma OldestIsFirst(r: seq<ReplicationEntry>, head: nat, size: nat, log: seq<ReplicationEntry>, lsn: nat, l: nat)
    requires RingOk(r, head, size, log) && Rising(log, lsn) && l < OldestOf(log, size, lsn)
    ensures !Retained(r, head, size, l)
  {
    forall i | 0 <= i < size ensures At(r, head, i).lsn != l {
      assert At(r, head, i) == log[|log| - size + i];
      if i > 0 { assert log[|log| - size].lsn < log[|log| - size + i].lsn; }
    }
  }

  lemma ServedAll(r: seq<ReplicationEntry>, head: nat, size: nat, log: seq<ReplicationEntry>, lsn: nat, from: nat)
    requires RingOk(r, head, size, log) && Rising(log, lsn) && |log| - size <= Below(log, from)
    ensures GapFree(NewFeed(log, lsn, from), Sub([], false), lsn) <==> forall l | from < l <= lsn :: Retained(r, head, size, l)
  {
    hide RingOk, Retained, Below, Rising;
    RingKeeps(r, head, size, log);
    BelowSplits(log, lsn, from);
    var f := NewFeed(log, lsn, from);
    assert f.got + [] == f.got;
    forall l | from < l <= lsn ensures Retained(r, head, size, l) <==> Has(f.got, l) {
      RetainedIff(r, head, size, log, lsn, from, l);
    }
    if GapFree(f, Sub([], false), lsn) {
      forall l | from < l <= lsn ensures Has(f.got, l) {
        assert f.got[l - f.start - 1].lsn == l;
      }
    }
    if forall l | from < l <= lsn :: Has(f.got, l) {
      TailRises(log, lsn, Below(log, from));
      RisingCovers(f.got, f.start, lsn);
    }
  }

  lemma TailRises(log: seq<ReplicationEntry>, lsn: nat, k: nat)
    requires Rising(log, lsn) && k <= |log|
    ensures Rising(log[k..], lsn)
  {
  }

  lemma RetainedIff(r: seq<ReplicationEntry>, head: nat, size: nat, log: seq<ReplicationEntry>, lsn: nat, from: nat, l: nat)
    requires RingOk(r, head, size, log) && Rising(log, lsn) && |log| - size <= Below(log, from) && from < l
    ensures Retained(r, head, size, l) <==> Has(log[Below(log, from)..], l)
  {
    hide Below;
    BelowSplits(log, lsn, from);
    var k, o := Below(log, from), |log| - size;
    var tail := log[k..];
    if Retained(r, head, size, l) {
      var j :| 0 <= j < size && At(r, head, j).lsn == l;
      assert At(r, head, j) == log[o + j];
      assert tail[o + j - k].lsn == l;
    }
    if Has(tail, l) {
      var i :| 0 <= i < |tail| && tail[i].lsn == l;
      assert tail[i] == log[k + i];
      assert At(r, head, k + i - o) == log[o + (k + i - o)];
    }
  }

  predicate FeedsOk(log: seq<ReplicationEntry>, lsn: nat, feeds: map<nat, Feed>, subs: map<nat, Sub>) {
    subs.Keys == feeds.Keys && forall id | id in subs :: FeedOk(log, feeds[id], subs[id]) && feeds[id].start <= lsn
  }

  predicate AllGapFree(feeds: map<nat, Feed>, subs: map<nat, Sub>, lsn: nat) {
    subs.Keys == feeds.Keys && forall id | id in subs :: GapFree(feeds[id], subs[id], lsn)
  }

  /** What a subscription from LSN `from` is given: all entries above it. */
  function NewFeed(log: seq<ReplicationEntry>, lsn: nat, from: nat): Feed {
    Feed(if from < lsn then from else lsn, Below(log, from), log[Below(log, from)..])
  }

  lemma NewFeedOk(log: seq<ReplicationEntry>, lsn: nat, from: nat)
    requires Rising(log, lsn)
    ensures FeedOk(log, NewFeed(log, lsn, from), Sub([], false))
  {
    BelowSplits(log, lsn, from);
    assert log[Below(log, from)..|log|] == log[Below(log, from)..];
  }

  // ---- The broker as a value ------------------------------------------------------------------

  /** The broker's counter, everything it published, its subscriptions and what each was given. */
  datatype State = State(lsn: nat, log: seq<ReplicationEntry>, subs: map<nat, Sub>, feeds: map<nat, Feed>, subSeq: nat)

  datatype Action =
    | Publish(collection: string, e: Entry)
    | Subscribe(from: nat)
    | Receive(id: nat)
    | Unsubscribe(id: nat)
    | Raise(l: nat)

  /** How many entries a ring of this capacity retains. */
  function Kept(n: nat, cap: nat): nat {
    if n < cap then n else cap
  }

  /** What one call does, for a ring of `cap` entries and channels of `subBuf`. */
  function After(s: State, a: Action, cap: nat, subBuf: nat): State {
    match a
    case Publish(c, e) =>
      var re := ReplicationEntry(s.lsn + 1, c, e);
      s.(lsn := s.lsn + 1, log := s.log + [re], subs := map id | id in s.subs :: Fanned(s.subs[id], re, subBuf))
    case Subscribe(from) =>
      if from + 1 < OldestOf(s.log, Kept(|s.log|, cap), s.lsn) then s
      else s.(subSeq := s.subSeq + 1, subs := s.subs[s.subSeq + 1 := Sub([], false)],
              feeds := s.feeds[s.subSeq + 1 := NewFeed(s.log, s.lsn, from)])
    case Receive(id) =>
      if id in s.subs && id in s.feeds && s.subs[id].queue != [] then
        var sub := s.subs[id];
        s.(subs := s.subs[id := sub.(queue := sub.queue[1..])],
           feeds := s.feeds[id := s.feeds[id].(got := s.feeds[id].got + [sub.queue[0]])])
      else s
    case Unsubscribe(id) => s.(subs := s.subs - {id}, feeds := s.feeds - {id})
    case Raise(l) => s.(lsn := if l > s.lsn then l else s.lsn)
  }

  function AfterAll(s: State, script: seq<Action>, cap: nat, subBuf: nat): State {
    if script == [] then s else
    After(AfterAll(s, script[..|script| - 1], cap, subBuf), script[|script| - 1], cap, subBuf)
  }

  predicate StateOk(s: State) {
    Rising(s.log, s.lsn) && FeedsOk(s.log, s.lsn, s.feeds, s.subs) && forall id | id in s.subs :: id <= s.subSeq
  }

  lemma PublishOk(s: State, c: string, e: Entry, cap: nat, subBuf: nat)
    requires StateOk(s)
    ensures StateOk(After(s, Publish(c, e), cap, subBuf))
    ensures AllGapFree(s.feeds, s.subs, s.lsn) ==>
              var t := After(s, Publish(c, e), cap, subBuf); AllGapFree(t.feeds, t.subs, t.lsn)
  {
    hide FeedOk, GapFree, Fanned;
    var t, re := After(s, Publish(c, e), cap, subBuf), ReplicationEntry(s.lsn + 1, c, e);
    forall id | id in t.subs ensures FeedOk(t.log, t.feeds[id], t.subs[id]) {
      FeedPublished(s.log, s.feeds[id], s.subs[id], re, subBuf);
    }
    if AllGapFree(s.feeds, s.subs, s.lsn) {
      forall id | id in t.subs ensures GapFree(t.feeds[id], t.subs[id], t.lsn) {
        GapFreePublished(s.feeds[id], s.subs[id], s.lsn, re, subBuf);
      }
    }
  }

  /** Every call keeps the feeds contiguous stretches of the log, right after what their
      followers had. A call that does not raise the counter keeps them gap-free too, as long
      as subscriptions are accepted only from retained history. */
  lemma AfterOk(s: State, a: Action, cap: nat, subBuf: nat)
    requires StateOk(s)
    ensures StateOk(After(s, a, cap, subBuf))
  {
    hide FeedOk, Fanned, OldestOf;
    match a
    case Publish(c, e) => PublishOk(s, c, e, cap, subBuf);
    case Subscribe(from) => NewFeedOk(s.log, s.lsn, from);
    case Receive(id) => if id in s.subs && s.subs[id].queue != [] { FeedReceived(s.log, s.feeds[id], s.subs[id], s.lsn); }
    case Unsubscribe(id) =>
    case Raise(l) =>
  }

  /** The log counts up to the counter: no raise came between two publishes or after the last. */
  predicate Steady(s: State) {
    |s.log| <= s.lsn && Consecutive(s.log, s.lsn - |s.log|)
  }

  /** The call does not raise the counter, or does so before the first publish and under no live
      subscriber. */
  predicate Calm(s: State, a: Action) {
    a.Raise? ==> a.l <= s.lsn || (s.log == [] && forall id | id in s.subs :: s.subs[id].dead)
  }

  lemma SteadyFeed(s: State, from: nat, size: nat)
    requires StateOk(s) && Steady(s) && size <= |s.log| && OldestOf(s.log, size, s.lsn) <= from + 1
    ensures GapFree(NewFeed(s.log, s.lsn, from), Sub([], false), s.lsn)
  {
    var f, base := NewFeed(s.log, s.lsn, from), s.lsn - |s.log|;
    if from < s.lsn {
      assert size > 0 && from >= base;
      OneSplit(s.log, s.lsn, from, from - base);
    } else {
      OneSplit(s.log, s.lsn, from, |s.log|);
    }
    assert f.got + [] == f.got;
  }

  lemma KeptFits(n: nat, cap: nat)
    ensures Kept(n, cap) <= n
  {
  }

  /** Calm calls keep every feed gap-free from its start on. */
  lemma CalmKeeps(s: State, a: Action, cap: nat, subBuf: nat)
    requires StateOk(s) && Steady(s) && AllGapFree(s.feeds, s.subs, s.lsn) && Calm(s, a)
    ensures var t := After(s, a, cap, subBuf); Steady(t) && AllGapFree(t.feeds, t.subs, t.lsn)
  {
    hide FeedOk, Fanned, OldestOf, GapFree, NewFeed;
    var t := After(s, a, cap, subBuf);
    match a
    case Publish(c, e) => PublishOk(s, c, e, cap, subBuf);
    case Subscribe(from) =>
      KeptFits(|s.log|, cap);
      if t != s { SteadyFeed(s, from, Kept(|s.log|, cap)); }
    case Receive(id) => if id in s.subs && s.subs[id].queue != [] { FeedReceived(s.log, s.feeds[id], s.subs[id], s.lsn); }
    case Unsubscribe(id) =>
    case Raise(l) =>
      if l > s.lsn {
        forall id | id in s.subs ensures GapFree(s.feeds[id], s.subs[id], l) { RaisedUnder(s.feeds[id], s.subs[id], s.lsn, l); }
      }
  }

  /** Raising the counter keeps every feed gap-free exactly when it does not rise or nobody alive
      is subscribed. */
  lemma RaiseKeepsIff(s: State, l: nat, cap: nat, subBuf: nat)
    requires AllGapFree(s.feeds, s.subs, s.lsn)
    ensures var t := After(s, Raise(l), cap, subBuf);
            AllGapFree(t.feeds, t.subs, t.lsn) <==> l <= s.lsn || forall id | id in s.subs :: s.subs[id].dead
  {
    hide GapFree;
    if l > s.lsn {
      forall id | id in s.subs ensures GapFree(s.feeds[id], s.subs[id], l) <==> s.subs[id].dead {
        RaisedUnder(s.feeds[id], s.subs[id], s.lsn, l);
      }
    }
  }

  predicate CalmRun(s: State, script: seq<Action>, cap: nat, subBuf: nat) {
    forall i | 0 <= i < |script| :: Calm(AfterAll(s, script[..i], cap, subBuf), script[i])
  }

  lemma AfterSnoc(s: State, script: seq<Action>, i: nat, cap: nat, subBuf: nat)
    requires i < |script|
    ensures AfterAll(s, script[..i + 1], cap, subBuf) == After(AfterAll(s, script[..i], cap, subBuf), script[i], cap, subBuf)
  {
    assert script[..i + 1][..i] == script[..i];
  }

  class Broker {
    var lsn: nat
    var ring: array<ReplicationEntry>
    var head: nat
    var size: nat
    const subBuf: nat
    var subs: map<nat, Sub>
    var subSeq: nat

    /** Every entry published by this broker, and what each subscription was given. */
    ghost var log: seq<ReplicationEntry>
    ghost var feeds: map<nat, Feed>

    ghost function Now(): State reads this {
      State(lsn, log, subs, feeds, subSeq)
    }

    ghost predicate Valid() reads this, ring {
      RingOk(ring[..], head, size, log) && StateOk(Now())
    }

    constructor (ringSize: nat, subBuf: nat)
      requires ringSize > 0
      ensures Valid() && fresh(ring) && ring.Length == ringSize && this.subBuf == subBuf
      ensures Now() == State(0, [], map[], map[], 0) && Steady(Now()) && AllGapFree(feeds, subs, lsn)
    {
      lsn, head, size, subSeq := 0, 0, 0, 0;
      ring := new ReplicationEntry[ringSize];
      this.subBuf := subBuf;
      subs := map[];
      log, feeds := [], map[];
    }

    /** The lowest LSN the ring can still serve. */
    method Oldest() returns (l: nat)
      requires Valid()
      ensures size <= |log| && l == OldestOf(log, size, lsn)
    {
      if size == 0 { return lsn + 1; }
      l := ring[head].lsn;
      Wrap(head, 0, ring.Length);
      assert At(ring[..], head, 0) == log[|log| - size];
    }

    method PushRing(re: ReplicationEntry)
      requires RingOk(ring[..], head, size, log)
      modifies this`head, this`size, ring
      ensures RingOk(ring[..], head, size, log + [re])
    {
      var cap := ring.Length;
      ghost var r := ring[..];
      if size < cap {
        RingGrows(r, head, size, log, re);
        ring[(head + size) % cap] := re;
        assert ring[..] == r[(head + size) % cap := re];
        size := size + 1;
      } else {
        RingSlides(r, head, log, re);
        ring[head] := re;
        assert ring[..] == r[head := re];
        head := (head + 1) % cap;
      }
    }

    method FanOut(re: ReplicationEntry)
      modifies this`subs
      ensures subs == map id | id in old(subs) :: Fanned(old(subs)[id], re, subBuf)
    {
      var todo := subs.Keys;
      while todo != {}
        invariant todo <= subs.Keys == old(subs).Keys
        invariant forall id | id in subs :: subs[id] == if id in todo then old(subs)[id] else Fanned(old(subs)[id], re, subBuf)
        decreases todo
      {
        var id :| id in todo;
        todo := todo - {id};
        var s := subs[id];
        if !s.dead {
          if |s.queue| < subBuf {
            subs := subs[id := s.(queue := s.queue + [re])];
          } else {
            subs := subs[id := s.(dead := true)];
          }
        }
      }
    }

    /** publish: assign the next LSN, record the entry in the ring, fan it out. */
    method Publish(collection: string, e: Entry) returns (l: nat)
      requires Valid()
      modifies this, ring
      ensures Valid() && ring == old(ring) && l == lsn
      ensures Now() == After(old(Now()), Action.Publish(collection, e), ring.Length, subBuf)
      ensures l == old(lsn) + 1 && log == old(log) + [ReplicationEntry(l, collection, e)] && subs.Keys == old(subs).Keys
      ensures forall id | id in old(subs) && !old(subs)[id].dead ::
                if |old(subs)[id].queue| < subBuf
                then subs[id] == Sub(old(subs)[id].queue + [ReplicationEntry(l, collection, e)], false)
                else subs[id] == Sub(old(subs)[id].queue, true)
      ensures forall id | id in old(subs) && old(subs)[id].dead :: subs[id] == old(subs)[id]
    {
      hide RingOk, StateOk;
      PublishOk(Now(), collection, e, ring.Length, subBuf);
      l := lsn + 1;
      var re := ReplicationEntry(l, collection, e);
      PushRing(re);
      lsn := l;
      FanOut(re);
      log := log + [re];
      assert Now() == After(old(Now()), Action.Publish(collection, e), ring.Length, subBuf);
    }

    /** The retained entries above `from`, collected by a walk over the ring. */
    method Backlog(from: nat) returns (backlog: seq<ReplicationEntry>)
      requires Valid() && size <= |log| && OldestOf(log, size, lsn) <= from + 1
      ensures backlog == log[Below(log, from)..] && forall re :: re in backlog <==> re in log && re.lsn > from
    {
      hide Below, RingOk, OldestOf, FeedsOk;
      AboveIsRetained(log, size, lsn, from);
      BelowSplits(log, lsn, from);
      backlog := [];
      ghost var k, o := Below(log, from), |log| - size;
      for i := 0 to size
        invariant backlog == if o + i <= k then [] else log[k..o + i]
      {
        RingAt(ring[..], head, size, log, i);
        var re := ring[(head + i) % ring.Length];
        if re.lsn > from {
          backlog := backlog + [re];
          assert log[k..o + i + 1] == log[k..o + i] + [log[o + i]];
        }
      }
      assert log[k..o + size] == log[k..];
      forall i | k <= i < |log| ensures log[i] in log[k..] { assert log[i] == log[k..][i - k]; }
    }

    /** subscribe: refuse a follower whose history has aged out of the ring, else hand it
        the retained entries above fromLSN and register it for what follows. It is accepted
        whenever every LSN above `from` is still in the ring; the feed of an accepted one is
        gap-free exactly then. */
    method Subscribe(from: nat) returns (ok: bool, id: nat, backlog: seq<ReplicationEntry>)
      requires Valid()
      modifies this`subs, this`subSeq, this`feeds
      ensures Valid() && Now() == After(old(Now()), Action.Subscribe(from), ring.Length, subBuf)
      ensures ok ==>
                && id == subSeq == old(subSeq) + 1 && id in subs && id in feeds && subs[id] == Sub([], false)
                && backlog == log[Below(log, from)..] && feeds[id] == NewFeed(log, lsn, from)
      ensures ok ==> (forall re :: re in backlog <==> re in log && re.lsn > from)
      ensures !ok ==> Now() == old(Now())
      ensures var all := forall l | from < l <= lsn :: Retained(ring[..], head, size, l);
              && (all ==> ok)
              && (ok ==> (GapFree(feeds[id], subs[id], lsn) <==> all))
      ensures Steady(old(Now())) ==> (ok <==> forall l | from < l <= lsn :: Retained(ring[..], head, size, l))
    {
      hide RingOk, StateOk, Retained, GapFree, NewFeed, OldestOf, Below, Steady;
      id, backlog := 0, [];
      RingKeeps(ring[..], head, size, log);
      RisingOf(Now());
      ServedIff(ring[..], head, size, log, lsn, from);
      AfterOk(Now(), Action.Subscribe(from), ring.Length, subBuf);
      var oldest := Oldest();
      ok := from + 1 >= oldest;
      if ok {
        if Steady(Now()) { SteadyFeed(Now(), from, size); }
        NewFeedGot(log, lsn, from);
        backlog := Backlog(from);
        subSeq := subSeq + 1;
        id := subSeq;
        subs := subs[id := Sub([], false)];
        feeds := feeds[id := NewFeed(log, lsn, from)];
      }
    }

    /** The server takes the next entry off a subscription's channel. */
    method Receive(id: nat) returns (re: ReplicationEntry)
      requires Valid() && id in subs && subs[id].queue != []
      modifies this`subs, this`feeds
      ensures Valid() && Now() == After(old(Now()), Action.Receive(id), ring.Length, subBuf)
      ensures re == old(subs)[id].queue[0] && id in feeds && feeds[id].got == old(feeds)[id].got + [re]
    {
      hide RingOk;
      AfterOk(Now(), Action.Receive(id), ring.Length, subBuf);
      var s := subs[id];
      re := s.queue[0];
      subs := subs[id := s.(queue := s.queue[1..])];
      feeds := feeds[id := feeds[id].(got := feeds[id].got + [re])];
    }

    method Unsubscribe(id: nat)
      requires Valid()
      modifies this`subs, this`feeds
      ensures Valid() && Now() == After(old(Now()), Action.Unsubscribe(id), ring.Length, subBuf)
      ensures id !in subs && id !in feeds && forall other | other != id && other in old(subs) ::
                other in subs && subs[other] == old(subs)[other] && other in feeds && feeds[other] == old(feeds)[other]
    {
      hide RingOk;
      subs := subs - {id};
      feeds := feeds - {id};
    }

    /** setLSN: never moves the counter back. It keeps every feed gap-free if and only if it does
        not raise the counter or nobody alive is subscribed. */
    method SetLSN(l: nat)
      requires Valid()
      modifies this`lsn
      ensures Valid() && Now() == After(old(Now()), Action.Raise(l), ring.Length, subBuf)
      ensures lsn >= l && lsn >= old(lsn) && (lsn == l || lsn == old(lsn))
      ensures AllGapFree(feeds, subs, old(lsn)) ==>
                (AllGapFree(feeds, subs, lsn) <==> l <= old(lsn) || forall id | id in subs :: subs[id].dead)
    {
      hide RingOk, GapFree, FeedOk;
      AfterOk(Now(), Action.Raise(l), ring.Length, subBuf);
      if AllGapFree(feeds, subs, lsn) { RaiseKeepsIff(Now(), l, ring.Length, subBuf); }
      if l > lsn {
        lsn := l;
      }
    }
  }

  lemma RingAt(r: seq<ReplicationEntry>, head: nat, size: nat, log: seq<ReplicationEntry>, i: nat)
    requires RingOk(r, head, size, log) && i < size
    ensures size <= |log| && |r| > 0 && 0 <= (head + i) % |r| < |r| && r[(head + i) % |r|] == log[|log| - size + i]
  {
    Wrap(head, i, |r|);
    assert At(r, head, i) == log[|log| - size + i];
  }

  lemma RingKeeps(r: seq<ReplicationEntry>, head: nat, size: nat, log: seq<ReplicationEntry>)
    requires RingOk(r, head, size, log)
    ensures head < |r| && size == Kept(|log|, |r|) && size <= |log| && size <= |r|
  {
  }

  lemma RisingOf(s: State)
    requires StateOk(s)
    ensures Rising(s.log, s.lsn) && s.subSeq + 1 !in s.subs
  {
  }

  lemma NewFeedGot(log: seq<ReplicationEntry>, lsn: nat, from: nat)
    ensures NewFeed(log, lsn, from).got == log[Below(log, from)..]
  {
  }

  /** A follower attached to a node before its promotion misses every LSN the node had applied
      until then: the first entry it is sent comes after the raised counter. */
  method PromotedUnder(ringSize: nat, subBuf: nat, applied: nat, c: string, e: Entry)
    returns (b: Broker, first: ReplicationEntry)
    requires ringSize > 0 && subBuf > 0 && applied > 0
    ensures fresh(b) && b.Valid() && first == ReplicationEntry(applied + 1, c, e)
    ensures exists id | id in b.feeds :: b.feeds[id].start == 0 && b.feeds[id].got == [first] && !Consecutive(b.feeds[id].got, 0)
  {
    hide RingOk, StateOk, Retained, GapFree, Steady;
    b := new Broker(ringSize, subBuf);
    var ok, id, backlog := b.Subscribe(0);
    assert ok && backlog == [] && b.feeds[id] == Feed(0, 0, []);
    b.SetLSN(applied);
    var l := b.Publish(c, e);
    assert b.subs[id].queue == [ReplicationEntry(applied + 1, c, e)];
    first := b.Receive(id);
    assert b.feeds[id].got == [first];
  }

  /** Every run of the broker is its script, call by call: publishes, subscriptions, receives,
      disconnections and raises of the counter. Each subscription has been given exactly the
      published entries above its start, in order; and if the counter was raised under no live
      subscriber and only before the first publish, each feed counts up without gap or repeat. */
  method AnyRun(b: Broker, script: seq<Action>)
    requires b.Valid()
    modifies b, b.ring
    ensures b.Valid() && b.ring == old(b.ring)
    ensures b.Now() == AfterAll(old(b.Now()), script, b.ring.Length, b.subBuf)
    ensures forall id | id in b.subs :: FeedOk(b.log, b.feeds[id], b.subs[id])
    ensures Steady(old(b.Now())) && AllGapFree(old(b.feeds), old(b.subs), old(b.lsn))
            && CalmRun(old(b.Now()), script, b.ring.Length, b.subBuf) ==>
              Steady(b.Now()) && AllGapFree(b.feeds, b.subs, b.lsn)
  {
    hide RingOk, FeedOk, GapFree, Rising, After, Steady, Calm, Retained, NewFeed, Below;
    ghost var s0, cap := b.Now(), b.ring.Length;
    ghost var calm := Steady(s0) && AllGapFree(b.feeds, b.subs, b.lsn) && CalmRun(s0, script, cap, b.subBuf);
    for i := 0 to |script|
      invariant b.Valid() && b.ring == old(b.ring) && b.Now() == AfterAll(s0, script[..i], cap, b.subBuf)
      invariant calm ==> Steady(b.Now()) && AllGapFree(b.feeds, b.subs, b.lsn)
    {
      AfterSnoc(s0, script, i, cap, b.subBuf);
      if calm { CalmKeeps(b.Now(), script[i], cap, b.subBuf); }
      match script[i]
      case Publish(c, e) => var _ := b.Publish(c, e);
      case Subscribe(from) => var _, _, _ := b.Subscribe(from);
      case Receive(id) => Drain(b, id);
      case Unsubscribe(id) => b.Unsubscribe(id);
      case Raise(l) => b.SetLSN(l);
    }
    assert script[..|script|] == script;
  }

  /** A receive on a channel that is empty or gone yields nothing. */
  method Drain(b: Broker, id: nat)
    requires b.Valid()
    modifies b`subs, b`feeds
    ensures b.Valid() && b.Now() == After(old(b.Now()), Action.Receive(id), b.ring.Length, b.subBuf)
  {
    if id in b.subs && b.subs[id].queue != [] {
      var _ := b.Receive(id);
    }
  }
}
