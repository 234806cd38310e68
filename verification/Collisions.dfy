/** A compaction pass names its segments 1 to m without looking at the active one. With m at or
    past the active segment's number it renames one of them over it, and goes on: the new list
    is installed and the indexes are rebuilt through the overwritten path. These lemmas say
    what the collection holds then. */
module Collisions {
  import opened Log
  import opened Compaction

  /** The sealed segments alone have the record, and it survives the pass. */
  predicate Survives(past: seq<Entry>, now: int, id: nat) {
    id in Replay(past) && !Expired(Replay(past)[id].expiresAt, now)
  }

  /** The record is in `w` as it was in `v`, up to sealing. */
  predicate Intact(v: View, w: View, id: nat) {
    (id in v <==> id in w) && (id in v ==> SameButSealed(v[id], w[id]))
  }

  /** Replaying lines of distinct records once more changes nothing. */
  lemma {:induction false} Again(cut: seq<Entry>, over: seq<Entry>)
    requires DistinctIds(cut) && (forall e | e in cut :: !e.op.Delete?) && forall e | e in over :: e in cut
    ensures Replay(cut + over) == Replay(cut)
  {
    if over == [] {
      assert cut + over == cut;
    } else {
      var init, last := over[..|over| - 1], over[|over| - 1];
      assert over == init + [last] && cut + over == (cut + init) + [last];
      Again(cut, init);
      ReplaySnoc(map[], cut + init, last);
      ReplayDistinct(cut);
    }
  }

  /** The collection after a collision is the sealed segments' own state: every line of the
      active segment is lost. */
  lemma CollidedView(past: seq<Entry>, out: seq<Entry>, cut: seq<Entry>, over: seq<Entry>, now: int)
    requires Survivors(out, past, now) && Resealed(out, cut) && forall e | e in over :: e in cut
    ensures Replay(cut + over) == Replay(cut)
    ensures forall id :: id in Replay(cut) <==> Survives(past, now, id)
    ensures forall id | id in Replay(cut) :: id in Replay(past) && SameButSealed(Replay(past)[id], Replay(cut)[id])
  {
    ReplayIds(map[], past);
    forall e | e in cut ensures !e.op.Delete? {
      var i :| 0 <= i < |cut| && cut[i] == e;
      assert out[i] in out;
    }
    Again(cut, over);
    SurvivorsReplay(past, out, cut, now);
  }

  /** Which records come through when the pass forgets the lines `act` that followed `past`: one
      they do not mention unless it is reclaimed; one deleted there only if the sealed segments
      do not bring it back; one written there only if that write repeats the sealed version. */
  predicate ComesThrough(past: seq<Entry>, act: seq<Entry>, now: int, id: nat) {
    if !Touched(act, id) then !Reclaimed(past, act, now, id)
    else if id !in Replay(past + act) then !Survives(past, now, id)
    else Survives(past, now, id) && SameButSealed(Replay(past + act)[id], Replay(past)[id])
  }

  lemma KeptIff(past: seq<Entry>, out: seq<Entry>, cut: seq<Entry>, over: seq<Entry>, act: seq<Entry>, now: int, id: nat)
    requires Survivors(out, past, now) && Resealed(out, cut) && forall e | e in over :: e in cut
    ensures Intact(Replay(past + act), Replay(cut + over), id) <==> ComesThrough(past, act, now, id)
  {
    CollidedView(past, out, cut, over, now);
    ReplayConcat(map[], past, act);
    ReplayAt(Replay(past), Replay(past), act, id);
  }

  predicate DeletedIn(es: seq<Entry>, id: nat) {
    exists k | 0 <= k < |es| :: es[k].id == id && es[k].op.Delete?
  }

  /** Until it is deleted a record stays, and each write of it raises its revision. */
  lemma {:induction false} RevisionsRise(past: seq<Entry>, act: seq<Entry>, id: nat)
    requires WellFormed(past + act) && !DeletedIn(act, id)
    ensures Touched(act, id) || id in Replay(past) ==> id in Replay(past + act)
    ensures id in Replay(past) ==>
              if Touched(act, id) then Replay(past + act)[id].rev > Replay(past)[id].rev
              else Replay(past + act)[id] == Replay(past)[id]
  {
    if act == [] {
      assert past + act == past;
    } else {
      var init, e := act[..|act| - 1], act[|act| - 1];
      assert past + act == (past + init) + [e] && act == init + [e];
      ReplaySnoc(map[], past + init, e);
      assert forall k | 0 <= k < |init| :: init[k] == act[k];
      RevisionsRise(past, init, id);
    }
  }

  /** Of a record the forgotten lines do not delete, every line is lost: it comes through
      exactly when there is none and the pass does not reclaim it. */
  lemma LostIffTouched(past: seq<Entry>, act: seq<Entry>, now: int, id: nat)
    requires WellFormed(past + act) && !DeletedIn(act, id)
    ensures ComesThrough(past, act, now, id) <==> !Touched(act, id) && !Reclaimed(past, act, now, id)
  {
    RevisionsRise(past, act, id);
  }

  /** `w` has exactly those records as they were in `v`. */
  ghost predicate Forgotten(v: View, w: View, past: seq<Entry>, act: seq<Entry>, now: int) {
    forall id :: Intact(v, w, id) <==> ComesThrough(past, act, now, id)
  }

  lemma CollisionForgets(past: seq<Entry>, out: seq<Entry>, cut: seq<Entry>, act: seq<Entry>, now: int)
    requires Survivors(out, past, now) && Resealed(out, cut)
    ensures Forgotten(Replay(past + act), Replay(cut), past, act, now)
  {
    assert cut + [] == cut;
    forall id ensures Intact(Replay(past + act), Replay(cut), id) <==> ComesThrough(past, act, now, id) {
      KeptIff(past, out, cut, [], act, now, id);
    }
  }

  /** A deletion in the active segment of a record the sealed ones hold is undone. */
  lemma DeleteUndone(past: seq<Entry>, out: seq<Entry>, cut: seq<Entry>, over: seq<Entry>, act: seq<Entry>, now: int, id: nat)
    requires Survivors(out, past, now) && Resealed(out, cut) && forall e | e in over :: e in cut
    requires Touched(act, id) && id !in Replay(past + act) && Survives(past, now, id)
    ensures id in Replay(cut + over) && SameButSealed(Replay(past)[id], Replay(cut + over)[id])
  {
    CollidedView(past, out, cut, over, now);
  }

  /** A rotation between a pass's snapshot and its swap seals a segment `mid` that the pass does
      not know: installing the new list drops it from memory. A record comes through exactly
      when the active segment has a line of it or forgetting `mid` leaves it alone. */
  lemma RotationForgets(past: seq<Entry>, out: seq<Entry>, cut: seq<Entry>, mid: seq<Entry>, act: seq<Entry>, now: int, id: nat)
    requires Survivors(out, past, now) && Resealed(out, cut)
    ensures Intact(Replay(past + mid + act), Replay(cut + act), id) <==> Touched(act, id) || ComesThrough(past, mid, now, id)
  {
    KeptIff(past, out, cut, [], mid, now, id);
    assert cut + [] == cut;
    ReplayConcat(map[], past + mid, act);
    ReplayConcat(map[], cut, act);
    ReplayAt(Replay(past + mid), Replay(cut), act, id);
    ReplayAt(Replay(cut), Replay(past + mid), act, id);
  }

  /** An instance: record 1 is inserted and sealed, a pass takes its snapshot, the record is
      deleted and that segment is sealed too. Once the pass has installed its list the record
      is live again, as it was inserted, and everything else is as before. */
  lemma DeletedComesBack(e: Entry, ts: int, now: int)
    requires e.op.Insert? && e.expiresAt == 0
    ensures Survivors([e], [e], now)
    ensures Replay([e] + [Tombstone(e.id, ts)] + []) == map[] && Replay([e] + []) == map[e.id := e]
    ensures forall id :: Intact(Replay([e] + [Tombstone(e.id, ts)] + []), Replay([e] + []), id) <==> id != e.id
  {
    var gone := Tombstone(e.id, ts);
    assert [e] + [] == [e] && [e] + [gone] + [] == [e, gone];
    assert Replay([]) == map[];
    ReplaySnoc(map[], [], e);
    assert [] + [e] == [e];
    ReplaySnoc(map[], [e], gone);
    assert [e] + [gone] == [e, gone];
  }

  /** The file of that segment is still there: opening the collection again, with the new
      segments, it and the active one, finds everything up to reclaiming and sealing. */
  lemma ReopenRemembers(past: seq<Entry>, out: seq<Entry>, cut: seq<Entry>, mid: seq<Entry>, act: seq<Entry>, now: int, id: nat)
    requires Survivors(out, past, now) && Resealed(out, cut)
    ensures Intact(Replay(past + mid + act), Replay(cut + mid + act), id) <==> !Reclaimed(past, mid + act, now, id)
  {
    assert past + mid + act == past + (mid + act) && cut + mid + act == cut + (mid + act);
    CompactionPreserves(past, out, cut, mid + act, now);
    ReplayConcat(map[], past, mid + act);
    ReplayAt(Replay(past), Replay(past), mid + act, id);
  }

  /** Lines of other records leave an index entry alone. */
  lemma {:induction false} IndexAt(ls: seq<Line>, more: seq<Line>, id: nat)
    requires id in Rebuild(ls) && forall l | l in more :: l.e.id != id
    ensures id in Rebuild(ls + more) && Rebuild(ls + more)[id] == Rebuild(ls)[id]
  {
    if more == [] {
      assert ls + more == ls;
    } else {
      var init, last := more[..|more| - 1], more[|more| - 1];
      assert more == init + [last] && ls + more == (ls + init) + [last];
      IndexAt(ls, init, id);
      RebuildSnoc(ls + init, last);
    }
  }

  /** The rebuilt index gives a record of the repeated segment a revision none of its lines
      carries. */
  lemma RevisionBumped(ls: seq<Line>, more: seq<Line>, i: nat)
    requires i < |more| && !more[i].e.op.Delete? && forall j | 0 <= j < |more| && j != i :: more[j].e.id != more[i].e.id
    requires more[i].e.id in Rebuild(ls) && Rebuild(ls)[more[i].e.id].rev == more[i].e.rev
    ensures more[i].e.id in Rebuild(ls + more) && Rebuild(ls + more)[more[i].e.id].rev == more[i].e.rev + 1
  {
    hide Rebuild;
    var id, a, b := more[i].e.id, more[..i], more[i + 1..];
    IndexAt(ls, a, id);
    RebuildSnoc(ls + a, more[i]);
    IndexAt(ls + a + [more[i]], b, id);
    assert ls + more == ls + a + [more[i]] + b;
  }

  /** Where a segment's lines lie in the log. */
  lemma {:induction false} Block(segs: seq<Segment>, k: nat) returns (at: nat)
    requires k < |segs|
    ensures at + |segs[k].entries| <= |Entries(segs)|
    ensures forall i | 0 <= i < |segs[k].entries| :: Entries(segs)[at + i] == segs[k].entries[i]
  {
    if k == |segs| - 1 {
      at := |Entries(segs[..k])|;
    } else {
      at := Block(segs[..|segs| - 1], k);
    }
  }

  /** The same of a whole collided collection: reading segment n again as the active one. */
  lemma CollidedRevision(len: LineLen, cut: seq<Segment>, n: nat, i: nat)
    requires 1 <= n <= |cut| && i < |cut[n - 1].entries|
    requires DistinctIds(Entries(cut)) && forall e | e in Entries(cut) :: !e.op.Delete? && e.rev >= 1
    ensures var e := cut[n - 1].entries[i];
            var ix := Rebuild(AllLines(len, cut + [Segment(n, cut[n - 1].entries)]));
            e.id in ix && ix[e.id].rev == e.rev + 1
  {
    hide Rebuild, LinesOf;
    var over := cut[n - 1].entries;
    var es, ls, more := Entries(cut), AllLines(len, cut), LinesOf(len, n, over);
    var at := Block(cut, n - 1);
    LinesAreEntries(len, cut);
    DistinctIsWellFormed(es);
    ReplayDistinct(es);
    RebuildIsReplay(ls);
    assert es[at + i] == over[i];
    forall j | 0 <= j < |more| && j != i ensures more[j].e.id != more[i].e.id {
      assert es[at + j] == over[j];
    }
    RevisionBumped(ls, more, i);
    var segs := cut + [Segment(n, over)];
    assert segs[..|cut|] == cut;
  }
}
