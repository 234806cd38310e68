/** What a compaction pass does to the meaning of the log: which entries survive, and
    why replaying the rewritten segments before the active one changes nothing but
    the disappearance of expired records. */
module Compaction {
  import opened Log

  predicate DistinctIds(es: seq<Entry>) {
    forall i, j | 0 <= i < j < |es| :: es[i].id != es[j].id
  }

  /** `out` lists, in any order, exactly the records live in `past` and unexpired at `now`. */
  ghost predicate Survivors(out: seq<Entry>, past: seq<Entry>, now: int) {
    && DistinctIds(out)
    && forall e :: e in out <==> e.id in Replay(past) && Replay(past)[e.id] == e && !Expired(e.expiresAt, now)
  }

  /** `a` and `b` differ at most in how their data is sealed. */
  predicate SameButSealed(a: Entry, b: Entry) {
    b == a.(data := b.data, epoch := b.epoch)
  }

  /** `b` is `a` with some entries re-sealed in place. */
  predicate Resealed(a: seq<Entry>, b: seq<Entry>) {
    |a| == |b| && forall i | 0 <= i < |a| :: SameButSealed(a[i], b[i])
  }

  /** The last entry of every id, tombstones included. */
  ghost predicate IsLatest(latest: map<nat, Entry>, es: seq<Entry>) {
    && (forall id :: id in latest <==> Touched(es, id))
    && (forall id | id in latest :: latest[id].id == id)
    && (forall id | id in latest :: if latest[id].op.Delete? then id !in Replay(es)
                                    else id in Replay(es) && Replay(es)[id] == latest[id])
  }

  lemma LatestStep(latest: map<nat, Entry>, es: seq<Entry>, e: Entry)
    requires IsLatest(latest, es)
    ensures IsLatest(latest[e.id := e], es + [e])
  {
    ReplaySnoc(map[], es, e);
    forall id ensures Touched(es + [e], id) <==> id == e.id || Touched(es, id) {
      assert (es + [e])[|es|].id == e.id;
      if Touched(es, id) {
        var k :| 0 <= k < |es| && es[k].id == id;
        assert (es + [e])[k].id == id;
      }
    }
  }

  /** Replay the segments keeping, for every id, its last entry. */
  method LatestEntries(segs: seq<Segment>) returns (latest: map<nat, Entry>)
    ensures IsLatest(latest, Entries(segs))
  {
    latest := map[];
    for i := 0 to |segs|
      invariant IsLatest(latest, Entries(segs[..i]))
    {
      assert segs[..i + 1][..i] == segs[..i];
      var es := segs[i].entries;
      ghost var before := Entries(segs[..i]);
      assert before + es[..0] == before;
      for j := 0 to |es|
        invariant IsLatest(latest, before + es[..j])
      {
        LatestStep(latest, before + es[..j], es[j]);
        assert before + es[..j] + [es[j]] == before + es[..j + 1];
        latest := latest[es[j].id := es[j]];
      }
      assert before + es[..|es|] == before + es;
    }
    assert segs[..|segs|] == segs;
  }

  /** Every live record is the last entry of its id. */
  lemma LiveIsLatest(latest: map<nat, Entry>, es: seq<Entry>)
    requires IsLatest(latest, es)
    ensures forall id :: id in Replay(es) <==> id in latest && !latest[id].op.Delete?
  {
    forall id | id in Replay(es) ensures id in latest {
      ReplayAt(map[], map[], es, id);
    }
  }

  /** resolveEntries: replay the segments, keep the latest entry per id, drop tombstones
      and expired records. The map is walked in an arbitrary order. */
  method ResolveEntries(segs: seq<Segment>, now: int) returns (out: seq<Entry>)
    ensures Survivors(out, Entries(segs), now)
    ensures forall e | e in out :: e.expiresAt == 0 || now < e.expiresAt
    ensures forall id | id in Replay(Entries(segs)) ::
              var e := Replay(Entries(segs))[id]; e.expiresAt == 0 || now < e.expiresAt ==> e in out
  {
    ReplayIds(map[], Entries(segs));
    var latest := LatestEntries(segs);
    LiveIsLatest(latest, Entries(segs));
    out := [];
    var todo := latest.Keys;
    while todo != {}
      invariant todo <= latest.Keys
      invariant DistinctIds(out)
      invariant forall e :: e in out <==> e.id in latest && e.id !in todo && latest[e.id] == e
                                          && !e.op.Delete? && !Expired(e.expiresAt, now)
      decreases todo
    {
      var id :| id in todo;
      todo := todo - {id};
      var e := latest[id];
      if !e.op.Delete? && !Expired(e.expiresAt, now) {
        out := out + [e];
      }
    }
  }

  /** Replaying writes of distinct records keeps each of them. */
  lemma {:induction false} ReplayDistinct(es: seq<Entry>)
    requires DistinctIds(es) && forall e | e in es :: !e.op.Delete?
    ensures forall e | e in es :: e.id in Replay(es) && Replay(es)[e.id] == e
    ensures forall id | id in Replay(es) :: Replay(es)[id] in es && Replay(es)[id].id == id
  {
    if es != [] {
      var init, last := es[..|es| - 1], es[|es| - 1];
      assert es == init + [last];
      ReplayDistinct(init);
      forall id | id in Replay(es) ensures Replay(es)[id] in es && Replay(es)[id].id == id {
        if id != last.id { assert Replay(es)[id] == Replay(init)[id]; }
      }
    }
  }

  /** A record compaction reclaims: its latest version lies in the sealed segments and
      its deadline has passed. */
  predicate Reclaimed(past: seq<Entry>, active: seq<Entry>, now: int, id: nat) {
    id in Replay(past) && !Touched(active, id) && Expired(Replay(past)[id].expiresAt, now)
  }

  /** In plain terms: a pass reclaims a live record if and only if no line of the active segment
      concerns it and it has a deadline at or before `now`. */
  lemma ReclaimedIff(past: seq<Entry>, active: seq<Entry>, now: int, id: nat)
    ensures Reclaimed(past, active, now, id) <==>
            && id in Replay(past + active) && !Touched(active, id)
            && Replay(past + active)[id].expiresAt != 0 && Replay(past + active)[id].expiresAt <= now
  {
    ReplayConcat(map[], past, active);
    ReplayAt(Replay(past), Replay(past), active, id);
  }

  lemma SurvivorsReplay(past: seq<Entry>, out: seq<Entry>, cut: seq<Entry>, now: int)
    requires Survivors(out, past, now) && Resealed(out, cut)
    ensures DistinctIds(cut) && forall e | e in cut :: !e.op.Delete?
    ensures forall id :: id in Replay(cut) <==> id in Replay(past) && !Expired(Replay(past)[id].expiresAt, now)
    ensures forall id | id in Replay(cut) :: id in Replay(past) && SameButSealed(Replay(past)[id], Replay(cut)[id])
    ensures forall id | id in Replay(cut) && out == cut :: Replay(cut)[id] == Replay(past)[id]
  {
    ReplayIds(map[], past);
    forall e | e in cut ensures !e.op.Delete? {
      var i :| 0 <= i < |cut| && cut[i] == e;
      assert out[i] in out;
    }
    ReplayDistinct(cut);
    forall id ensures id in Replay(cut) <==> id in Replay(past) && !Expired(Replay(past)[id].expiresAt, now)
              ensures id in Replay(cut) ==> SameButSealed(Replay(past)[id], Replay(cut)[id])
    {
      if id in Replay(cut) {
        var i :| 0 <= i < |cut| && cut[i] == Replay(cut)[id];
        assert out[i] in out;
      }
      if id in Replay(past) && !Expired(Replay(past)[id].expiresAt, now) {
        assert Replay(past)[id] in out;
        var i :| 0 <= i < |out| && out[i] == Replay(past)[id];
        assert cut[i] in cut;
      }
    }
  }

  /** Compaction preserves meaning. Whatever order the survivors were emitted in, replay
      of the rewritten segments followed by the active one agrees with replay of the old
      ones on every record except those it reclaims, and these are gone. */
  lemma CompactionPreserves(past: seq<Entry>, out: seq<Entry>, cut: seq<Entry>, active: seq<Entry>, now: int)
    requires Survivors(out, past, now) && Resealed(out, cut)
    ensures forall id :: id in Replay(cut + active) <==> id in Replay(past + active) && !Reclaimed(past, active, now, id)
    ensures forall id | id in Replay(cut + active) && id in Replay(past + active) ::
              SameButSealed(Replay(past + active)[id], Replay(cut + active)[id])
    ensures forall id | id in Replay(cut + active) && id in Replay(past + active) && (Touched(active, id) || cut == out) ::
              Replay(cut + active)[id] == Replay(past + active)[id]
  {
    SurvivorsReplay(past, out, cut, now);
    ReplayConcat(map[], past, active);
    ReplayConcat(map[], cut, active);
    forall id
      ensures id in Replay(cut + active) <==> id in Replay(past + active) && !Reclaimed(past, active, now, id)
      ensures id in Replay(cut + active) && id in Replay(past + active) ==>
                SameButSealed(Replay(past + active)[id], Replay(cut + active)[id])
      ensures id in Replay(cut + active) && id in Replay(past + active) && (Touched(active, id) || cut == out) ==>
                Replay(cut + active)[id] == Replay(past + active)[id]
    {
      ReplayAt(Replay(past), Replay(cut), active, id);
      ReplayAt(Replay(cut), Replay(cut), active, id);
    }
  }

  /** A record whose versions all lie in the sealed segments is rewritten from the entry it
      was live as. */
  lemma RewrittenFrom(past: seq<Entry>, out: seq<Entry>, cut: seq<Entry>, active: seq<Entry>, now: int, id: nat)
    returns (i: nat)
    requires Survivors(out, past, now) && Resealed(out, cut) && !Touched(active, id) && id in Replay(cut + active)
    ensures i < |out| && id in Replay(past + active)
    ensures Replay(past + active)[id] == out[i] && Replay(cut + active)[id] == cut[i]
  {
    SurvivorsReplay(past, out, cut, now);
    ReplayConcat(map[], past, active);
    ReplayConcat(map[], cut, active);
    ReplayAt(Replay(past), Replay(past), active, id);
    ReplayAt(Replay(cut), Replay(cut), active, id);
    ReplayDistinct(cut);
    i :| 0 <= i < |cut| && cut[i] == Replay(cut)[id];
    assert out[i] in out;
  }

  /** Every live record is one of the entries replayed. */
  lemma {:induction false} LiveIsEntry(es: seq<Entry>, id: nat)
    requires id in Replay(es)
    ensures Replay(es)[id] in es && !Replay(es)[id].op.Delete?
  {
    var init := es[..|es| - 1];
    if es[|es| - 1].id != id {
      LiveIsEntry(init, id);
    }
  }

  lemma {:induction false} WritesHaveRevisions(es: seq<Entry>)
    requires WellFormed(es)
    ensures forall id | id in Replay(es) :: Replay(es)[id].rev >= 1
  {
    if es != [] { WritesHaveRevisions(es[..|es| - 1]); }
  }

  lemma {:induction false} DistinctIsWellFormed(es: seq<Entry>)
    requires DistinctIds(es) && forall e | e in es :: !e.op.Delete? && e.rev >= 1
    ensures WellFormed(es)
  {
    if es != [] {
      var init := es[..|es| - 1];
      assert es == init + [es[|es| - 1]];
      DistinctIsWellFormed(init);
      ReplayDistinct(init);
    }
  }

  /** Rewriting the sealed segments keeps the log well-formed, so revisions recomputed
      from it are the recorded ones. */
  lemma {:induction false} CompactionKeepsWellFormed(past: seq<Entry>, out: seq<Entry>, cut: seq<Entry>,
                                                     active: seq<Entry>, now: int)
    requires Survivors(out, past, now) && Resealed(out, cut)
    requires WellFormed(past + active)
    ensures WellFormed(cut + active)
    decreases |active|
  {
    if active == [] {
      assert past + active == past && cut + active == cut;
      WritesHaveRevisions(past);
      SurvivorsReplay(past, out, cut, now);
      forall e | e in cut ensures e.rev >= 1 {
        var i :| 0 <= i < |cut| && cut[i] == e;
        assert out[i] in out;
      }
      DistinctIsWellFormed(cut);
    } else {
      var init, e := active[..|active| - 1], active[|active| - 1];
      assert past + active == (past + init) + [e] && cut + active == (cut + init) + [e];
      CompactionKeepsWellFormed(past, out, cut, init, now);
      CompactionPreserves(past, out, cut, init, now);
    }
  }
}
