/** String keys: what one keyed write means for the next. */
module Keys {
  import opened Log
  import opened SecondaryIndexes
  import opened Writes
  import opened Batches
  import opened Store
  import opened Collections

  /** What the index on the key holds, once there is one. */
  function KeyVals(h: Held, v: View): map<nat, Values.Value> {
    WithIndex(h, KEY, v)[KEY]
  }

  /** No two live records are filed under one key. */
  ghost predicate OneKeyEach(c: Collection) reads c {
    OneEach(c.cfg.fmt, KeyVals(c.held, c.view))
  }

  /** An upsert that is done revised the record that carried the key, or inserted one where none
      did. */
  lemma DoneUnder(cfg: Config, uniq: set<string>, h: Held, count: nat, size: nat, n: nat, key: string, doc: Doc, ts: int,
                  exp: int, r: Outcome)
    requires UpsertAllowed(cfg, uniq, h, count, size, n, key, doc, ts, exp, r) && r.Done?
    ensures Keyed(cfg.fmt, h, r.id, key) || (r.id == n + 1 && forall id :: !Keyed(cfg.fmt, h, id, key))
  {
    hide Keyed, Clash, WithinQuota;
  }

  /** It leaves one record under every key. */
  lemma StillOneEach(fmt: Values.RawFormat, h: Held, id: nat, doc: Doc, key: string)
    requires KEY in h && OneEach(fmt, h[KEY]) && (Keyed(fmt, h, id, key) || forall other :: !Keyed(fmt, h, other, key))
    ensures OneEach(fmt, PutHeld(h, id, Stamped(doc, key).plain)[KEY])
  {
    var g := PutHeld(h, id, Stamped(doc, key).plain);
    assert g[KEY] == h[KEY][id := Values.Str(key)];
    forall a, b | a in g[KEY] && b in g[KEY] && a != b ensures Values.Render(fmt, g[KEY][a]) != Values.Render(fmt, g[KEY][b]) {
      assert a != id ==> (Values.Render(fmt, h[KEY][a]) == key ==> Keyed(fmt, h, a, key));
      assert b != id ==> (Values.Render(fmt, h[KEY][b]) == key ==> Keyed(fmt, h, b, key));
    }
  }

  /** Some other unique field of the document already has the value. */
  ghost predicate OtherTaken(fmt: Values.RawFormat, uniq: set<string>, h: Held, plain: Values.Data) {
    exists f, other | f in uniq && f != KEY && f in h && f in plain && other in h[f] ::
      Values.Render(fmt, h[f][other]) == Values.Render(fmt, plain[f])
  }

  /** An upsert is never refused because of its key: if it is refused as a duplicate, another
      unique field repeats a value. */
  lemma NeverItsKey(cfg: Config, uniq: set<string>, h: Held, count: nat, size: nat, n: nat, key: string, doc: Doc, ts: int,
                    exp: int, r: Outcome)
    requires KEY in h && OneEach(cfg.fmt, h[KEY])
    requires UpsertAllowed(cfg, uniq, h, count, size, n, key, Stamped(doc, key), ts, exp, r) && r == Refused(Duplicate)
    ensures OtherTaken(cfg.fmt, uniq, h, doc.plain)
  {
    var plain := Stamped(doc, key).plain;
    var id: nat := n + 1;
    if AnyKeyed(cfg.fmt, h, key) {
      id :| Keyed(cfg.fmt, h, id, key) && r == ReviseVerdict(cfg.fmt, uniq, h, id, Stamped(doc, key));
    }
    assert Clash(cfg.fmt, uniq, h, id, plain);
    var f :| f in uniq && f in h && f in plain && Taken(cfg.fmt, h[f], Values.Render(cfg.fmt, plain[f]), id);
    var other :| other in h[f] && other != id && Values.Render(cfg.fmt, h[f][other]) == Values.Render(cfg.fmt, plain[f]);
    if f == KEY {
      assert Keyed(cfg.fmt, h, other, key);
    }
  }

  /** Why an upsert may be refused. */
  lemma RefusedWhy(cfg: Config, uniq: set<string>, h: Held, count: nat, size: nat, n: nat, key: string, doc: Doc, ts: int,
                   exp: int, r: Outcome)
    requires UpsertAllowed(cfg, uniq, h, count, size, n, key, doc, ts, exp, r)
    ensures r.Done? || r == Refused(Duplicate) || (r == Refused(Unsealable) && !doc.sealable)
            || (r == Refused(QuotaExceeded) && (cfg.maxRecords > 0 || cfg.maxBytes > 0))
  {
    hide Keyed, Clash;
  }

  /** One upsert, as the next one sees it: its record is the only one under its key, and every
      other record is under the key it was. */
  method UpsertOnce(c: Collection, key: string, doc: Doc, ts: int, exp: int) returns (r: Outcome)
    requires c.Valid() && OneKeyEach(c)
    modifies c, c.sidx.Values
    ensures c.Valid() && OneKeyEach(c) && fresh(c.sidx.Values - old(c.sidx.Values))
    ensures c.UniqueFields() <= old(c.UniqueFields()) + {KEY}
    ensures r == Refused(Duplicate) ==>
              OtherTaken(c.cfg.fmt, c.UniqueFields(), WithIndex(old(c.held), KEY, old(c.view)), doc.plain)
    ensures KEY !in doc.plain && doc.sealable && c.cfg.maxRecords == 0 && c.cfg.maxBytes == 0 ==>
              r.Done? || r == Refused(Duplicate)
    ensures r.Done? ==>
              && KEY in c.held && Keyed(c.cfg.fmt, c.held, r.id, key) && r.id in c.view && c.view[r.id].data == doc.stored
              && c.view[r.id].rev == (if r.id in old(c.view) then old(c.view)[r.id].rev else 0) + 1
              && c.view[r.id].expiresAt == (if r.id in old(c.view) then old(c.view)[r.id].expiresAt else exp)
              && var h := WithIndex(old(c.held), KEY, old(c.view));
                 && (if AnyKeyed(c.cfg.fmt, h, key) then Keyed(c.cfg.fmt, h, r.id, key) else r.id !in old(c.view))
                 && OthersSame(h, c.held, r.id)
  {
    hide Core, Tracks, TotalBytes, HeldLive, Bytes, Keeps, UpsertAllowed, UpsertLine, Landed, PutHeld, Stamped, FiledUnder, Clash,
         OneEach, Keyed, FieldVals, OtherTaken, OthersSame;
    CoreIds(c.cfg.len, c.sealed + [c.active], c.log, c.index, c.idSeq, c.hist, c.view);
    ghost var h, v, n := WithIndex(c.held, KEY, c.view), c.view, c.idSeq;
    ghost var size := c.size;
    HasIndex(c.held, KEY, c.view);
    r := c.Upsert(key, doc, ts, exp);
    if KEY !in doc.plain {
      StampedSealable(doc, key);
      RefusedWhy(c.cfg, c.UniqueFields(), h, |v|, size, n, key, Stamped(doc, key), ts, exp, r);
      if r == Refused(Duplicate) { NeverItsKey(c.cfg, c.UniqueFields(), h, |v|, size, n, key, doc, ts, exp, r); }
      if r.Done? {
        DoneUnder(c.cfg, c.UniqueFields(), h, |v|, size, n, key, Stamped(doc, key), ts, exp, r);
        StillOneEach(c.cfg.fmt, h, r.id, doc, key);
        OthersStay(h, r.id, doc, key);
      }
    }
  }

  lemma StampedSealable(doc: Doc, key: string)
    ensures Stamped(doc, key).sealable == doc.sealable
  {
  }

  /** Every other record is filed under the key it was. */
  predicate OthersSame(h: Held, g: Held, id: nat) {
    KEY in h && KEY in g && forall other | other != id && other in h[KEY] :: other in g[KEY] && g[KEY][other] == h[KEY][other]
  }

  lemma OthersStay(h: Held, id: nat, doc: Doc, key: string)
    requires KEY in h
    ensures OthersSame(h, PutHeld(h, id, Stamped(doc, key).plain), id)
  {
  }

  lemma OnlyOne(fmt: Values.RawFormat, h: Held, a: nat, b: nat, key: string)
    requires KEY in h && OneEach(fmt, h[KEY]) && Keyed(fmt, h, a, key) && Keyed(fmt, h, b, key)
    ensures a == b
  {
  }

  /** A second upsert under the same key revises the record the first one left, which stays the
      only one under it. */
  method UpsertAgain(c: Collection, key: string, doc: Doc, again: Doc, ts: int, exp: int)
    returns (first: Outcome, second: Outcome)
    requires c.Valid() && OneKeyEach(c)
    modifies c, c.sidx.Values
    ensures c.Valid() && OneKeyEach(c)
    ensures first.Done? && second.Done? ==>
              && second.id == first.id && second.id in c.view && Keyed(c.cfg.fmt, c.held, second.id, key)
              && c.view[second.id].data == again.stored
              && c.view[second.id].rev == (if first.id in old(c.view) then old(c.view)[first.id].rev else 0) + 2
              && c.view[second.id].expiresAt == if first.id in old(c.view) then old(c.view)[first.id].expiresAt else exp
  {
    hide Core, Tracks, TotalBytes, HeldLive, Keyed, OneEach, FieldVals, OtherTaken;
    first := UpsertOnce(c, key, doc, ts, exp);
    second := first;
    if first.Done? {
      ghost var h := c.held;
      second := UpsertOnce(c, key, again, ts, exp);
      if second.Done? { OnlyOne(c.cfg.fmt, h, first.id, second.id, key); }
    }
  }

  /** Upserts under two different keys never get in each other's way: a refusal is another unique
      field's, the quota's or the data's, and if both are done, both records are found, each under
      its own key. */
  method UpsertBoth(c: Collection, key: string, doc: Doc, other: string, more: Doc, ts: int, exp: int)
    returns (first: Outcome, second: Outcome)
    requires c.Valid() && OneKeyEach(c) && key != other
    modifies c, c.sidx.Values
    ensures c.Valid() && OneKeyEach(c)
    ensures first.Done? && second.Done? ==>
              && first.id != second.id
              && Keyed(c.cfg.fmt, c.held, first.id, key) && Keyed(c.cfg.fmt, c.held, second.id, other)
    ensures && old(c.UniqueFields()) <= {KEY} && KEY !in doc.plain && KEY !in more.plain && doc.sealable && more.sealable
            && c.cfg.maxRecords == 0 && c.cfg.maxBytes == 0
            ==> first.Done? && second.Done?
  {
    hide Core, Tracks, TotalBytes, HeldLive, OneEach, FieldVals, Keyed, AnyKeyed, OthersSame, OtherTaken;
    NoOther(c.cfg.fmt, WithIndex(c.held, KEY, c.view), doc.plain);
    first := UpsertOnce(c, key, doc, ts, exp);
    ghost var h := c.held;
    NoOther(c.cfg.fmt, h, more.plain);
    second := UpsertOnce(c, other, more, ts, exp);
    if first.Done? && second.Done? { SecondIsOther(c.cfg.fmt, h, c.held, key, other, first.id, second.id); }
  }

  lemma NoOther(fmt: Values.RawFormat, h: Held, plain: Values.Data)
    ensures forall uniq | uniq <= {KEY} :: !OtherTaken(fmt, uniq, h, plain)
  {
  }

  /** A record under one key is not the one another key leads to, and stays where it was. */
  lemma SecondIsOther(fmt: Values.RawFormat, h: Held, g: Held, key: string, other: string, a: nat, b: nat)
    requires key != other && Keyed(fmt, h, a, key) && OthersSame(h, g, b)
    requires if AnyKeyed(fmt, h, other) then Keyed(fmt, h, b, other) else b != a
    ensures a != b && Keyed(fmt, g, a, key)
  {
  }
}
