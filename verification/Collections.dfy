/** A collection: segments, primary index, id counter and secondary indexes, updated in
    place by every write path. Each critical section of the code is one method. */
module Collections {
  import opened Common
  import opened Values
  import opened Log
  import opened Compaction
  import opened Store
  import opened SecondaryIndexes
  import opened Writes
  import opened Batches

  /** The reserved field that carries a record's string key. */
  const KEY := "_key"

  /** stampKey */
  function StampKey(data: Data, key: string): Data {
    data[KEY := Str(key)]
  }

  function Stamped(doc: Doc, key: string): Doc {
    doc.(plain := StampKey(doc.plain, key))
  }

  /** A live record is filed under the key. */
  predicate Keyed(fmt: RawFormat, h: Held, id: nat, key: string) {
    KEY in h && id in h[KEY] && Render(fmt, h[KEY][id]) == key
  }

  ghost predicate AnyKeyed(fmt: RawFormat, h: Held, key: string) {
    exists id :: Keyed(fmt, h, id, key)
  }

  /** What the indexes hold once there is one on `f`, built from the stored records. */
  function WithIndex(h: Held, f: string, v: View): Held {
    if f in h then h else h[f := FieldVals(f, v)]
  }

  /** What an upsert may answer: it revises a record that carried the key, or is admitted as
      a new record; the quota then measures the line before it is sealed. Sealing comes last. */
  ghost predicate UpsertAllowed(cfg: Config, uniq: set<string>, h: Held, count: nat, size: nat, idSeq: nat,
                          key: string, doc: Doc, ts: int, exp: int, r: Outcome)
  {
    if AnyKeyed(cfg.fmt, h, key) then
      Revises(cfg.fmt, uniq, h, key, doc, r)
    else
      r == NewKeyedVerdict(cfg, uniq, h, count, size, NewRecord(idSeq + 1, ts, Unsealed(doc), exp), doc)
  }

  /** The answer is that of revising some record that carries the key. */
  ghost predicate Revises(fmt: RawFormat, uniq: set<string>, h: Held, key: string, doc: Doc, r: Outcome) {
    exists id :: Keyed(fmt, h, id, key) && r == ReviseVerdict(fmt, uniq, h, id, doc)
  }

  /** What a compare-and-swap may answer. */
  ghost predicate SwapAllowed(fmt: RawFormat, uniq: set<string>, h: Held, v: View, key: string, readable: Entry -> bool,
                              cond: Entry -> bool, doc: Doc, r: Outcome)
  {
    if KEY in doc.plain then r == Refused(Reserved)
    else if !AnyKeyed(fmt, h, key) then r == Refused(NotFound)
    else
      exists id :: Keyed(fmt, h, id, key) && id in v
                   && r == SwapVerdict(fmt, uniq, h, v[id], id, readable, cond, Stamped(doc, key))
  }

  function SwapVerdict(fmt: RawFormat, uniq: set<string>, h: Held, cur: Entry, id: nat, readable: Entry -> bool,
                       cond: Entry -> bool,
                       doc: Doc): Outcome
  {
    if !readable(cur) then Refused(Unreadable)
    else if !cond(cur) then Refused(NotFound)
    else ReviseVerdict(fmt, uniq, h, id, doc)
  }

  lemma PutFiles(h: Held, id: nat, plain: Data)
    ensures var g := PutHeld(h, id, plain);
            forall f | f in g :: if f in plain then id in g[f] && g[f][id] == plain[f] else id !in g[f]
  {
  }

  /** Every indexed field but the key has the record filed under what the data say. */
  predicate FiledUnder(h: Held, id: nat, plain: Data) {
    forall f | f in h && f != KEY :: if f in plain then id in h[f] && h[f][id] == plain[f] else id !in h[f]
  }

  /** A record written under a key is found under it. */
  lemma StampedFiles(fmt: RawFormat, h: Held, id: nat, doc: Doc, key: string)
    requires KEY in h
    ensures var g := PutHeld(h, id, Stamped(doc, key).plain);
            Keyed(fmt, g, id, key) && FiledUnder(g, id, doc.plain)
    ensures forall other | other != id ::
              Keyed(fmt, PutHeld(h, id, Stamped(doc, key).plain), other, key) <==> Keyed(fmt, h, other, key)
  {
  }

  /** The record an upsert leaves, in plain terms. */
  lemma UpsertLineIs(v: View, id: nat, doc: Doc, key: string, ts: int, exp: int)
    ensures var e := UpsertLine(v, id, Stamped(doc, key), ts, exp);
            && e.id == id && e.data == doc.stored && e.epoch == doc.epoch && e.ts == ts
            && if id in v then e.op.Update? && e.rev == v[id].rev + 1 && e.expiresAt == v[id].expiresAt
               else e.op.Insert? && e.rev == 1 && e.expiresAt == exp
  {
  }

  /** A swap that is done revises a record that carried the key and met the condition. */
  lemma SwapDone(fmt: RawFormat, uniq: set<string>, h: Held, v: View, key: string, readable: Entry -> bool, cond: Entry -> bool,
                 doc: Doc, r: Outcome)
    requires SwapAllowed(fmt, uniq, h, v, key, readable, cond, doc, r) && r.Done?
    ensures Keyed(fmt, h, r.id, key) && r.id in v && readable(v[r.id]) && cond(v[r.id])
  {
    hide Keyed, Clash;
  }

  /** Why a swap is refused, and when it has to be done: every record under the key can be read,
      meets the condition, and may take the new data under the key. */
  lemma SwapMeans(fmt: RawFormat, uniq: set<string>, h: Held, v: View, key: string, readable: Entry -> bool, cond: Entry -> bool,
                  doc: Doc, r: Outcome)
    requires SwapAllowed(fmt, uniq, h, v, key, readable, cond, doc, r)
    ensures r == Refused(Reserved) <==> KEY in doc.plain
    ensures r == Refused(Unreadable) ==> exists id :: Keyed(fmt, h, id, key) && id in v && !readable(v[id])
    ensures r == Refused(NotFound) ==>
              !AnyKeyed(fmt, h, key) || exists id :: Keyed(fmt, h, id, key) && id in v && readable(v[id]) && !cond(v[id])
    ensures && KEY !in doc.plain && doc.sealable && AnyKeyed(fmt, h, key)
            && (forall id | Keyed(fmt, h, id, key) && id in v ::
                  readable(v[id]) && cond(v[id]) && !Clash(fmt, uniq, h, id, doc.plain[KEY := Str(key)]))
            ==> r.Done?
  {
    hide Clash;
  }

  lemma KeyedMeans(fmt: RawFormat, h: Held, id: nat, key: string)
    requires Keyed(fmt, h, id, key)
    ensures KEY in h && id in h[KEY]
  {
  }

  lemma RevisedIs(id: nat, cur: Entry, ts: int, doc: Doc, key: string, exp: int)
    ensures var e := Revised(id, cur, ts, Stamped(doc, key), exp);
            && e.id == id && e.op.Update? && e.ts == ts && e.rev == cur.rev + 1 && e.data == doc.stored && e.epoch == doc.epoch
            && e.expiresAt == exp
  {
  }

  lemma SwapRefused(fmt: RawFormat, uniq: set<string>, h: Held, v: View, key: string, readable: Entry -> bool,
                    cond: Entry -> bool, doc: Doc)
    ensures KEY in doc.plain ==> SwapAllowed(fmt, uniq, h, v, key, readable, cond, doc, Refused(Reserved))
    ensures KEY !in doc.plain && (forall id :: !Keyed(fmt, h, id, key)) ==>
              SwapAllowed(fmt, uniq, h, v, key, readable, cond, doc, Refused(NotFound))
  {
  }

  /** The answer for one record that carries the key is an answer. */
  lemma SwapAnswer(fmt: RawFormat, uniq: set<string>, h: Held, v: View, key: string, readable: Entry -> bool,
                   cond: Entry -> bool, doc: Doc,
                   id: nat)
    requires KEY !in doc.plain && Keyed(fmt, h, id, key) && id in v
    ensures SwapAllowed(fmt, uniq, h, v, key, readable, cond, doc,
                        if !readable(v[id]) then Refused(Unreadable)
                        else if !cond(v[id]) then Refused(NotFound)
                        else ReviseVerdict(fmt, uniq, h, id, Stamped(doc, key)))
  {
    hide Keyed, ReviseVerdict;
  }

  function NewKeyedVerdict(cfg: Config, uniq: set<string>, h: Held, count: nat, size: nat, measured: Entry, doc: Doc): Outcome {
    var r := Admitted(cfg, uniq, h, count, size, measured, doc.plain);
    if r.Done? && !doc.sealable then Refused(Unsealable) else r
  }

  /** The line a successful upsert of record `id` appends. */
  function UpsertLine(v: View, id: nat, doc: Doc, ts: int, exp: int): Entry {
    if id in v then Revised(id, v[id], ts, doc, v[id].expiresAt) else NewRecord(id, ts, doc, exp)
  }

  /** Every id the batch inserts came from the counter. */
  predicate Issued(ops: seq<TxOp>, idSeq: nat) {
    forall i | 0 <= i < |ops| && ops[i].TxInsert? :: ops[i].id <= idSeq
  }

  /** InsertMany as a batch: consecutive fresh ids in input order. */
  function InsertOps(docs: seq<Doc>, ts: int, exp: int, idSeq: nat): seq<TxOp> {
    seq(|docs|, i requires 0 <= i < |docs| => TxInsert(idSeq + 1 + i, docs[i], ts, exp))
  }

  /** How many ids InsertMany takes from the counter: one for each record up to and with the
      first that cannot be sealed. */
  function TakenIds(docs: seq<Doc>): nat {
    if docs == [] then 0 else if !docs[0].sealable then 1 else 1 + TakenIds(docs[1..])
  }

  lemma {:induction false} TakenAt(docs: seq<Doc>, i: nat)
    requires i <= |docs| && (forall j | 0 <= j < i :: docs[j].sealable) && (i < |docs| ==> !docs[i].sealable)
    ensures TakenIds(docs) == if i < |docs| then i + 1 else i
  {
    if i > 0 { TakenAt(docs[1..], i - 1); }
  }

  /** Each record of the batch lands under the id at its place. */
  lemma ManyLands(v: View, docs: seq<Doc>, ts: int, exp: int, n: nat)
    ensures var ops := InsertOps(docs, ts, exp, n);
            var w, ids := TxView(v, ops, |ops|), OpIds(ops);
            && |ids| == |docs|
            && forall i | 0 <= i < |docs| ::
                 && ids[i] == n + 1 + i && ids[i] in w
                 && w[ids[i]] == Entry(ids[i], Op.Insert, ts, 1, docs[i].stored, docs[i].epoch, exp)
  {
    hide TxView;
    var ops := InsertOps(docs, ts, exp, n);
    forall i | 0 <= i < |docs|
      ensures var w := TxView(v, ops, |ops|); ops[i].id in w
      ensures TxView(v, ops, |ops|)[ops[i].id] == Entry(ops[i].id, Op.Insert, ts, 1, docs[i].stored, docs[i].epoch, exp)
    {
      LastSays(v, ops, |ops|, i);
    }
  }

  /** A batch with a record that cannot be sealed is refused. */
  lemma UnsealableMany(cfg: Config, uniq: set<string>, h: Held, v: View, size: nat, docs: seq<Doc>, ts: int, exp: int, n: nat)
    requires exists i | 0 <= i < |docs| :: !docs[i].sealable
    ensures ManyVerdict(cfg, uniq, h, v, size, InsertOps(docs, ts, exp, n)) == Some(Unsealable)
  {
    var ops := InsertOps(docs, ts, exp, n);
    var i :| 0 <= i < |docs| && !docs[i].sealable;
    assert IsWrite(ops[i]) && !ops[i].doc.sealable;
  }

  /** The first insert or update of the batch that cannot be sealed. */
  method FindUnsealable(ops: seq<TxOp>) returns (k: nat)
    ensures k < |ops| <==> AnyUnsealable(ops)
  {
    k := 0;
    while k < |ops|
      invariant k <= |ops| && forall i | 0 <= i < k :: !IsWrite(ops[i]) || ops[i].doc.sealable
    {
      if !ops[k].TxDelete? && !ops[k].doc.sealable {
        return;
      }
      k := k + 1;
    }
  }

  function OpIds(ops: seq<TxOp>): seq<nat> {
    seq(|ops|, i requires 0 <= i < |ops| => ops[i].id)
  }

  lemma NoClaims(fmt: RawFormat, ops: seq<TxOp>)
    ensures forall f :: ClaimsUpTo(fmt, map[], ops, 0, f)
  {
  }

  /** The value operation k puts on field f is neither taken nor contested. */
  predicate FreeFor(fmt: RawFormat, h: Held, ops: seq<TxOp>, k: nat, f: string)
    requires k < |ops| && IsWrite(ops[k]) && f in h && f in ops[k].doc.plain
  {
    var key := Render(fmt, ops[k].doc.plain[f]);
    !Taken(fmt, h[f], key, ops[k].id) && !Contested(fmt, ops, k, f, key)
  }

  method AnyReserved(docs: seq<Doc>) returns (found: bool)
    ensures found <==> exists i | 0 <= i < |docs| :: KEY in docs[i].plain
  {
    for i := 0 to |docs|
      invariant forall j | 0 <= j < i :: KEY !in docs[j].plain
    {
      if KEY in docs[i].plain {
        return true;
      }
    }
    found := false;
  }

  /** One index's part of filing a record under its new field values. */
  method PutField(s: SecondaryIndex, f: string, id: nat, data: Data, isNew: bool, ghost vals: map<nat, Value>)
    requires Tracks(s, s.fmt, f, vals) && (isNew ==> id !in vals)
    modifies s
    ensures Tracks(s, s.fmt, f, SetField(vals, f, id, data))
  {
    if f in data {
      if isNew { s.Add(data[f], id); } else { s.Update(id, data[f]); }
    } else if !isNew {
      s.Remove(id);
    } else {
      assert vals - {id} == vals;
    }
  }

  method RemoveField(s: SecondaryIndex, f: string, id: nat, ghost vals: map<nat, Value>)
    requires Tracks(s, s.fmt, f, vals)
    modifies s
    ensures Tracks(s, s.fmt, f, vals - {id})
  {
    s.Remove(id);
  }

  /** newSecondaryIndex followed by rebuild. */
  method NewIndex(fmt: NumFormat, field: string, unique: bool, segs: seq<Segment>) returns (s: SecondaryIndex)
    ensures fresh(s) && s.unique == unique
    ensures Tracks(s, fmt, field, FieldVals(field, Replay(Entries(segs))))
  {
    s := new SecondaryIndex(fmt, field, unique);
    s.Rebuild(segs);
  }

  method HighestNumber(segs: seq<Segment>) returns (m: nat)
    ensures (forall s | s in segs :: s.num <= m) && (segs != [] ==> exists k | 0 <= k < |segs| :: segs[k].num == m)
  {
    m := 0;
    ghost var at := 0;
    for i := 0 to |segs|
      invariant (forall k | 0 <= k < i :: segs[k].num <= m) && (if i == 0 then m == at == 0 else at < i && segs[at].num == m)
    {
      if segs[i].num > m {
        m, at := segs[i].num, i;
      }
    }
  }

  /** The highest number of ascending segments is the last one's. */
  lemma HighestIsLast(segs: seq<Segment>, m: nat)
    requires Ascending(segs) && segs != []
    requires (forall s | s in segs :: s.num <= m) && exists k | 0 <= k < |segs| :: segs[k].num == m
    ensures m == segs[|segs| - 1].num
  {
    assert segs[|segs| - 1] in segs;
  }

  /** Index.Rebuild: replay the segments into locations and metadata. */
  method RebuildIndex(len: LineLen, segs: seq<Segment>) returns (ix: Index)
    ensures ix == Rebuild(AllLines(len, segs))
  {
    ix := map[];
    for i := 0 to |segs|
      invariant ix == Rebuild(AllLines(len, segs[..i]))
    {
      ghost var before := AllLines(len, segs[..i]);
      ix := RebuildSegment(len, segs[i], ix, before);
      assert segs[..i + 1][..i] == segs[..i];
    }
    TakeAll(segs);
  }

  lemma NoBytes(len: LineLen, es: seq<Entry>)
    ensures Bytes(len, es[..0]) == 0
  {
  }

  lemma BytesSnoc(len: LineLen, es: seq<Entry>, j: nat)
    requires j < |es|
    ensures Bytes(len, es[..j + 1]) == Bytes(len, es[..j]) + len(es[j])
  {
    assert es[..j + 1][..j] == es[..j];
  }

  lemma RebuildStep(len: LineLen, s: Segment, before: seq<Line>, j: nat)
    requires j < |s.entries|
    ensures var ls := LinesOf(len, s.num, s.entries);
            Rebuild(before + ls[..j + 1]) ==
            IndexLine(Rebuild(before + ls[..j]), Line(s.num, Bytes(len, s.entries[..j]), s.entries[j]))
    ensures Bytes(len, s.entries[..j + 1]) == Bytes(len, s.entries[..j]) + len(s.entries[j])
  {
    hide LinesOf, Rebuild, Bytes;
    var ls := LinesOf(len, s.num, s.entries);
    RebuildSnoc(before + ls[..j], ls[j]);
    assert before + ls[..j + 1] == before + ls[..j] + [ls[j]];
    BytesSnoc(len, s.entries, j);
  }

  method RebuildSegment(len: LineLen, s: Segment, ix0: Index, ghost before: seq<Line>) returns (ix: Index)
    requires ix0 == Rebuild(before)
    ensures ix == Rebuild(before + LinesOf(len, s.num, s.entries))
  {
    hide Rebuild, Bytes, LinesOf;
    ghost var ls := LinesOf(len, s.num, s.entries);
    NoBytes(len, s.entries);
    assert before + ls[..0] == before && ls[..|ls|] == ls;
    ix := ix0;
    var off := 0;
    for j := 0 to |s.entries|
      invariant off == Bytes(len, s.entries[..j])
      invariant ix == Rebuild(before + ls[..j])
    {
      RebuildStep(len, s, before, j);
      var e := s.entries[j];
      if e.op.Delete? {
        ix := ix - {e.id};
      } else {
        var next := (if e.id in ix then ix[e.id].rev else 0) + 1;
        var rev := if e.rev > next then e.rev else next;
        ix := ix[e.id := IndexEntry(s.num, off, rev, e.expiresAt, e.epoch)];
      }
      off := off + len(e);
    }
  }

  /** Segment.ReadAt: the line that starts at the offset, if any does. */
  method ReadAt(len: LineLen, s: Segment, off: nat) returns (r: Option<Entry>)
    ensures forall j | 0 <= j < |s.entries| && Bytes(len, s.entries[..j]) == off :: r == Some(s.entries[j])
    ensures r.None? ==> forall j | 0 <= j < |s.entries| :: Bytes(len, s.entries[..j]) != off
  {
    var at := 0;
    for i := 0 to |s.entries|
      invariant at == Bytes(len, s.entries[..i])
      invariant forall j | 0 <= j < i :: Bytes(len, s.entries[..j]) != off
    {
      if at == off {
        forall j | i < j < |s.entries| ensures Bytes(len, s.entries[..j]) != off {
          BytesGrow(len, s.entries, i, j);
        }
        return Some(s.entries[i]);
      }
      assert s.entries[..i + 1][..i] == s.entries[..i];
      at := at + len(s.entries[i]);
    }
    r := None;
  }

  /** segmentByPathLocked */
  method SegmentByNumber(sealed: seq<Segment>, active: Segment, num: nat) returns (r: Option<Segment>)
    requires Ascending(sealed + [active])
    ensures forall s | s in sealed + [active] && s.num == num :: r == Some(s)
  {
    ghost var segs := sealed + [active];
    assert forall i | 0 <= i < |sealed| :: segs[i] == sealed[i];
    assert segs[|sealed|] == active;
    for i := 0 to |sealed|
      invariant forall j | 0 <= j < i :: sealed[j].num != num
    {
      if sealed[i].num == num {
        return Some(sealed[i]);
      }
    }
    r := if active.num == num then Some(active) else None;
  }

  /** The entry's effect is already in the view. */
  predicate Present(v: View, e: Entry) {
    if e.op.Delete? then e.id !in v else e.id in v && v[e.id].rev >= e.rev
  }

  function ExpiredIds(v: View, now: int): set<nat> {
    set id | id in v && Expired(v[id].expiresAt, now)
  }

  lemma DueIds(v: View, now: int)
    ensures forall id :: id in ExpiredIds(v, now) <==> id in v && v[id].expiresAt != 0 && v[id].expiresAt <= now
  {
  }

  /** What the indexes hold without these ids. */
  function DropAll(h: Held, ids: set<nat>): Held {
    map f | f in h :: h[f] - ids
  }

  /** One tombstone for each of these records, in some order. */
  ghost predicate TombstonesOf(drops: seq<Entry>, ids: set<nat>, now: int) {
    && |drops| == |ids| && (forall e | e in drops :: e.id in ids && e == Tombstone(e.id, now))
    && forall id | id in ids :: Tombstone(id, now) in drops
  }

  /** View and index contents once the expired records not in `todo` have been tombstoned. */
  ghost function Reaped(v: View, all: set<nat>, todo: set<nat>): View {
    v - (all - todo)
  }

  ghost function ReapedHeld(h: Held, all: set<nat>, todo: set<nat>): Held {
    DropAll(h, all - todo)
  }

  lemma ReapBounds(v: View, h: Held, all: set<nat>)
    ensures Reaped(v, all, all) == v && Reaped(v, all, {}) == v - all
    ensures ReapedHeld(h, all, all) == h && ReapedHeld(h, all, {}) == DropAll(h, all)
  {
    assert all - {} == all && all - all == {};
    assert forall f | f in h :: h[f] - {} == h[f];
  }

  lemma ReapStep(v: View, all: set<nat>, todo: set<nat>, id: nat, ts: int)
    requires id in todo && todo <= all && all <= v.Keys
    ensures id in Reaped(v, all, todo)
    ensures Apply(Reaped(v, all, todo), Tombstone(id, ts)) == Reaped(v, all, todo - {id})
  {
  }

  lemma OneTombstone(drops: seq<Entry>, ids: set<nat>, todo: set<nat>, id: nat, now: int)
    requires id in todo && todo <= ids && TombstonesOf(drops, ids - todo, now)
    ensures TombstonesOf(drops + [Tombstone(id, now)], ids - (todo - {id}), now)
  {
    assert ids - (todo - {id}) == (ids - todo) + {id};
    assert |(ids - todo) + {id}| == |ids - todo| + 1;
  }

  lemma NoTombstones(ids: set<nat>, now: int)
    ensures TombstonesOf([], ids - ids, now) && ids - {} == ids
  {
    assert ids - ids == {};
  }

  lemma TombstonesDelete(drops: seq<Entry>, ids: set<nat>, now: int)
    requires TombstonesOf(drops, ids, now)
    ensures AllDeletes(drops) && (ids == {} <==> drops == [])
  {
    assert ids == {} <==> |ids| == 0;
  }

  lemma ReapHeldStep(h: Held, all: set<nat>, todo: set<nat>, id: nat)
    requires id in todo && todo <= all
    ensures DropHeld(ReapedHeld(h, all, todo), id) == ReapedHeld(h, all, todo - {id})
  {
    forall f | f in h ensures (h[f] - (all - todo)) - {id} == h[f] - (all - (todo - {id})) {
    }
  }

  method RebuildOne(s: SecondaryIndex, segs: seq<Segment>)
    modifies s
    ensures Tracks(s, s.fmt, s.field, FieldVals(s.field, Replay(Entries(segs))))
  {
    s.Rebuild(segs);
  }

  /** activeMaxID, starting from the persisted counter. */
  method MaxId(es: seq<Entry>, counter: nat) returns (m: nat)
    ensures counter <= m && IdsBelow(es, m)
  {
    m := counter;
    for i := 0 to |es|
      invariant counter <= m && forall j | 0 <= j < i :: es[j].id <= m
    {
      if es[i].id > m { m := es[i].id; }
    }
  }

  lemma OneLine(len: LineLen, e: Entry)
    ensures Bytes(len, [e]) == len(e)
  {
    assert [e][..0] == [];
  }

  lemma LandedNone(cfg: Config, sealed: seq<Segment>, active: Segment)
    ensures Landed(cfg, sealed, active, []) == (sealed, active) && Extended(active, []) == active
  {
    assert active.entries + [] == active.entries;
  }

  /** An empty batch of lines adds nothing. */
  lemma NoOps(len: LineLen, v: View, h: Held, ops: seq<TxOp>)
    ensures TxEntries(v, ops, 0) == [] && TxView(v, ops, 0) == v && TxHeld(h, ops, 0) == h && Bytes(len, []) == 0
  {
  }

  /** The two answers of an upsert that found the key, and the answer of one that did not. */
  lemma Replaces(cfg: Config, uniq: set<string>, h: Held, count: nat, size: nat, idSeq: nat,
                 key: string, doc: Doc, ts: int, exp: int, id: nat, r: Outcome)
    requires Keyed(cfg.fmt, h, id, key)
    requires r == ReviseVerdict(cfg.fmt, uniq, h, id, doc)
    ensures AnyKeyed(cfg.fmt, h, key) && UpsertAllowed(cfg, uniq, h, count, size, idSeq, key, doc, ts, exp, r)
  {
  }

  lemma Inserts(cfg: Config, uniq: set<string>, h: Held, count: nat, size: nat, idSeq: nat,
                key: string, doc: Doc, ts: int, exp: int, r: Outcome)
    requires forall id :: !Keyed(cfg.fmt, h, id, key)
    requires r == NewKeyedVerdict(cfg, uniq, h, count, size, NewRecord(idSeq + 1, ts, Unsealed(doc), exp), doc)
    ensures !AnyKeyed(cfg.fmt, h, key) && UpsertAllowed(cfg, uniq, h, count, size, idSeq, key, doc, ts, exp, r)
  {
  }

  /** Upserts measure the line before sealing. For any encoding of lines, any collection and any
      record: where the plaintext line fits under the byte limit and the sealed one does not,
      an upsert that inserts the record has to be accepted and takes the collection past it. */
  lemma UpsertOverfills(cfg: Config, uniq: set<string>, h: Held, v: View, size: nat, n: nat, key: string, doc: Doc, ts: int,
                        exp: int,
                        r: Outcome)
    requires !AnyKeyed(cfg.fmt, h, key) && doc.sealable && !Clash(cfg.fmt, uniq, h, n + 1, doc.plain) && n + 1 !in v
    requires cfg.maxRecords == 0 || |v| < cfg.maxRecords
    requires size + cfg.len(Entry(n + 1, Op.Insert, ts, 1, doc.plain, 0, exp)) <= cfg.maxBytes
    requires size + cfg.len(Entry(n + 1, Op.Insert, ts, 1, doc.stored, doc.epoch, exp)) > cfg.maxBytes
    requires UpsertAllowed(cfg, uniq, h, |v|, size, n, key, doc, ts, exp, r)
    ensures r == Done(n + 1) && size + Bytes(cfg.len, [UpsertLine(v, n + 1, doc, ts, exp)]) > cfg.maxBytes
  {
    OneLine(cfg.len, UpsertLine(v, n + 1, doc, ts, exp));
  }

  lemma NotAscending(cut: seq<Segment>, num: nat, over: seq<Entry>)
    requires exists s | s in cut :: s.num == num
    ensures !Ascending(cut + [Segment(num, over)])
  {
    var segs := cut + [Segment(num, over)];
    var s :| s in cut && s.num == num;
    var i :| 0 <= i < |cut| && cut[i] == s;
    assert segs[i].num == num && segs[|cut|].num == num;
  }

  lemma AddedLive(h: Held, v: View, f: string)
    requires HeldLive(h, v)
    ensures HeldLive(h[f := FieldVals(f, v)], v)
  {
  }

  lemma HasIndex(h: Held, f: string, v: View)
    ensures f in WithIndex(h, f, v)
  {
  }

  lemma HeldOfAdd(fields: set<string>, f: string, v: View)
    ensures HeldOf(fields, v)[f := FieldVals(f, v)] == HeldOf(fields + {f}, v) && HeldOf({}, v) == map[]
    ensures f !in fields ==> WithIndex(HeldOf(fields, v), f, v) == HeldOf(fields + {f}, v)
  {
  }

  /** The highest id of any segment. */
  method MaxIdOf(segs: seq<Segment>) returns (m: nat)
    ensures IdsBelow(Entries(segs), m)
  {
    m := 0;
    for i := 0 to |segs|
      invariant IdsBelow(Entries(segs[..i]), m)
    {
      assert segs[..i + 1][..i] == segs[..i];
      m := MaxId(segs[i].entries, m);
    }
    TakeAll(segs);
  }

  class Collection {
    const cfg: Config
    var sealed: seq<Segment>
    var active: Segment
    var index: Index
    var idSeq: nat
    var sidx: map<string, SecondaryIndex>
    /** What publishCommit handed to the replication broker since the collection was opened. */
    var published: seq<Entry>
    /** The log of the segments, everything ever committed, the live view, what the secondary
        indexes hold, and the bytes on disk. */
    ghost var log: seq<Entry>
    ghost var hist: seq<Entry>
    ghost var view: View
    ghost var held: Held
    ghost var size: nat

    ghost predicate CoreOk() reads `sealed, `active, `index, `idSeq, `log, `hist, `view, `size {
      && Core(cfg.len, sealed + [active], log, index, idSeq, hist, view)
      && size == TotalBytes(cfg.len, sealed, active)
    }

    ghost predicate SidxOk(h: Held) reads `sidx, sidx.Values {
      sidx.Keys == h.Keys && forall f | f in sidx :: Tracks(sidx[f], cfg.fmt, f, h[f])
    }

    /** The index is what Rebuild computes from the segments, the active segment is the
        highest numbered, and every secondary index is in order and files live records only. */
    ghost predicate Valid()
      reads `sealed, `active, `index, `idSeq, `log, `hist, `view, `size, `held, `sidx, sidx.Values
    {
      CoreOk() && SidxOk(held) && HeldLive(held, view)
    }

    /** Exactly these lines were appended; the live view is now `w` and the secondary indexes
        hold `h`. */
    twostate predicate Logged(new es: seq<Entry>, new w: View, new h: Held) reads this {
      && log == old(log) + es && hist == old(hist) + es && view == w && held == h
      && size == old(size) + Bytes(cfg.len, es)
    }

    /** They were also published. */
    twostate predicate Shipped(new es: seq<Entry>, new w: View, new h: Held) reads this {
      Logged(es, w, h) && published == old(published) + es
    }

    /** A commit: the lines landed in the active segment, which was rotated if it got full. */
    twostate predicate Wrote(new es: seq<Entry>, new w: View, new h: Held) reads this {
      Shipped(es, w, h) && (sealed, active) == Landed(cfg, old(sealed), old(active), es)
    }

    /** Segments and indexes are as they were. */
    twostate predicate Untouched(indexes: set<SecondaryIndex>) reads this, indexes {
      unchanged(`sealed, `active, `index, `log, `hist, `view, `size, `published) && unchanged(indexes)
    }

    // ---- Appending ---------------------------------------------------------------------

    /** Append an entry to the active segment and set or delete its index entry. */
    method AppendEntry(e: Entry)
      requires CoreOk() && Sound(view, e) && e.id <= idSeq
      modifies `active, `index, `log, `hist, `view, `size
      ensures CoreOk() && Logged([e], Apply(old(view), e), held) && active == Appended(old(active), e)
    {
      hide Core, Bytes, TotalBytes, Apply, Sound;
      AppendKeepsCore(cfg.len, sealed, active, log, index, idSeq, hist, view, e);
      AppendedBytes(cfg.len, sealed, active, e);
      OneLine(cfg.len, e);
      var offset := Bytes(cfg.len, active.entries);
      active := Appended(active, e);
      if e.op.Delete? {
        index := index - {e.id};
      } else {
        index := index[e.id := IndexEntry(active.num, offset, e.rev, e.expiresAt, e.epoch)];
      }
      log, hist, view, size := log + [e], hist + [e], Apply(view, e), size + cfg.len(e);
    }

    lemma OwnFields(h: Held)
      requires SidxOk(h)
      ensures forall f | f in sidx :: sidx[f].field == f && sidx[f].fmt == cfg.fmt
    {
    }

    /** sidxIndexEntry and sidxUpdateEntry: file the record under its new field values. */
    method SidxPut(id: nat, data: Data, isNew: bool, ghost h: Held)
      requires SidxOk(h) && (isNew ==> forall f | f in h :: id !in h[f])
      modifies sidx.Values
      ensures SidxOk(PutHeld(h, id, data))
    {
      hide SetField, Tracks;
      OwnFields(h);
      var todo := sidx.Keys;
      while todo != {}
        invariant todo <= sidx.Keys
        invariant forall f | f in todo :: Tracks(sidx[f], cfg.fmt, f, h[f])
        invariant forall f | f in sidx && f !in todo :: Tracks(sidx[f], cfg.fmt, f, SetField(h[f], f, id, data))
        decreases todo
      {
        var f :| f in todo;
        todo := todo - {f};
        var s := sidx[f];
        PutField(s, f, id, data, isNew, h[f]);
      }
    }

    /** sidxRemoveEntry */
    method SidxRemove(id: nat, ghost h: Held)
      requires SidxOk(h)
      modifies sidx.Values
      ensures SidxOk(DropHeld(h, id))
    {
      hide Tracks;
      OwnFields(h);
      var todo := sidx.Keys;
      while todo != {}
        invariant todo <= sidx.Keys
        invariant forall f | f in todo :: Tracks(sidx[f], cfg.fmt, f, h[f])
        invariant forall f | f in sidx && f !in todo :: Tracks(sidx[f], cfg.fmt, f, h[f] - {id})
        decreases todo
      {
        var f :| f in todo;
        todo := todo - {f};
        var s := sidx[f];
        RemoveField(s, f, id, h[f]);
      }
    }

    /** Commit a write: segment, primary index and secondary indexes. The indexes are given
        the plaintext, the segment the stored form. */
    method CommitWrite(e: Entry, plain: Data, isNew: bool)
      requires Valid() && Sound(view, e) && e.id <= idSeq && !e.op.Delete? && (isNew ==> e.id !in view)
      modifies `active, `index, `log, `hist, `view, `held, `size, sidx.Values
      ensures Valid() && Logged([e], Apply(old(view), e), PutHeld(old(held), e.id, plain))
      ensures active == Appended(old(active), e)
    {
      hide Core, Bytes, TotalBytes, Apply, Sound, PutHeld, Tracks;
      ghost var v, h := view, held;
      AppendEntry(e);
      SidxPut(e.id, plain, isNew, h);
      PutLive(h, v, e, plain);
      held := PutHeld(h, e.id, plain);
    }

    method CommitDelete(e: Entry)
      requires Valid() && e.id <= idSeq && e.op.Delete?
      modifies `active, `index, `log, `hist, `view, `held, `size, sidx.Values
      ensures Valid() && Logged([e], Apply(old(view), e), DropHeld(old(held), e.id))
      ensures active == Appended(old(active), e)
    {
      hide Core, Bytes, TotalBytes, Apply, DropHeld, Tracks;
      ghost var v, h := view, held;
      AppendEntry(e);
      SidxRemove(e.id, h);
      DropLive(h, v, e);
      held := DropHeld(h, e.id);
    }

    /** rotateSegment: seal the active segment and open one numbered past every other. */
    method Rotate()
      requires CoreOk()
      modifies `sealed, `active
      ensures CoreOk()
      ensures sealed == old(sealed) + [old(active)] && active == Segment(old(active).num + 1, [])
    {
      hide Core, TotalBytes;
      CoreAscends(cfg.len, sealed + [active], log, index, idSeq, hist, view);
      sealed := sealed + [active];
      var maxSeg := HighestNumber(sealed);
      HighestIsLast(sealed, maxSeg);
      RotateKeepsCore(cfg.len, sealed, log, index, idSeq, hist, view, maxSeg + 1);
      RotatedBytes(cfg.len, old(sealed), active, maxSeg + 1);
      active := Segment(maxSeg + 1, []);
    }

    method RotateIfFull()
      requires Valid()
      modifies `sealed, `active
      ensures Valid()
      ensures (sealed, active) == Rotated(cfg, old(sealed), old(active))
    {
      hide Core, Tracks, Bytes, TotalBytes, HeldLive;
      if Bytes(cfg.len, active.entries) >= cfg.segmentMax {
        Rotate();
      }
    }

    /** Commit a write and rotate when the active segment is full. */
    method Write(e: Entry, plain: Data, isNew: bool)
      requires Valid() && Sound(view, e) && e.id <= idSeq && !e.op.Delete? && (isNew ==> e.id !in view)
      modifies `sealed, `active, `index, `log, `hist, `view, `held, `size, `published, sidx.Values
      ensures Valid() && Wrote([e], Apply(old(view), e), PutHeld(old(held), e.id, plain))
    {
      hide Core, Bytes, TotalBytes, Tracks, Apply, Sound, PutHeld, HeldLive, Rotated;
      CommitWrite(e, plain, isNew);
      published := published + [e];
      RotateIfFull();
    }

    // ---- Checks before a write -----------------------------------------------------------

    function UniqueFields(): set<string> reads `sidx {
      set f | f in sidx && sidx[f].unique
    }

    /** sidxCheckUnique */
    method CheckUnique(id: nat, data: Data) returns (dup: bool)
      requires SidxOk(held)
      ensures dup <==> Clash(cfg.fmt, UniqueFields(), held, id, data)
    {
      ghost var uniq := UniqueFields();
      var todo := set f | f in sidx && sidx[f].unique && f in data;
      while todo != {}
        invariant todo <= sidx.Keys
        invariant forall f | f in todo :: f in uniq && f in data
        invariant forall f | f in uniq && f in data && f !in todo ::
                    !Taken(cfg.fmt, held[f], Render(cfg.fmt, data[f]), id)
        decreases todo
      {
        var f :| f in todo;
        todo := todo - {f};
        assert Tracks(sidx[f], cfg.fmt, f, held[f]);
        var clash := sidx[f].Conflict(Render(cfg.fmt, data[f]), id);
        if clash {
          return true;
        }
      }
      dup := false;
    }

    method SizeBytes() returns (total: nat)
      ensures total == TotalBytes(cfg.len, sealed, active)
    {
      total := 0;
      for i := 0 to |sealed|
        invariant total == SealedBytes(cfg.len, sealed, i)
      {
        total := total + Bytes(cfg.len, sealed[i].entries);
      }
      total := total + Bytes(cfg.len, active.entries);
    }

    /** checkQuotaLocked */
    method CheckQuota(records: nat, bytes: nat) returns (ok: bool)
      requires CoreOk()
      ensures ok <==> WithinQuota(cfg, |view|, size, records, bytes)
    {
      hide Core, TotalBytes;
      CoreMirrors(cfg.len, sealed + [active], log, index, idSeq, hist, view);
      if cfg.maxRecords > 0 && |index| + records > cfg.maxRecords {
        return false;
      }
      if cfg.maxBytes > 0 {
        var total := SizeBytes();
        if total + bytes > cfg.maxBytes {
          return false;
        }
      }
      ok := true;
    }

    /** May a new record be created? The quota is asked first, then the unique indexes. */
    method Admit(measured: Entry, plain: Data) returns (r: Outcome)
      requires Valid()
      ensures r == Admitted(cfg, UniqueFields(), held, |view|, size, measured, plain)
    {
      hide Core, Tracks, TotalBytes, Clash, WithinQuota, HeldLive;
      var fits := CheckQuota(1, QuotaBytes(cfg, measured));
      if !fits {
        return Refused(QuotaExceeded);
      }
      var dup := CheckUnique(measured.id, plain);
      r := if dup then Refused(Duplicate) else Done(measured.id);
    }

    // ---- Single-record writes ---------------------------------------------------------------

    /** Take the next id of the counter. */
    method ReserveID() returns (id: nat)
      requires Valid()
      modifies `idSeq
      ensures Valid() && idSeq == old(idSeq) + 1 && id == idSeq && id !in view
    {
      hide Core, Tracks, TotalBytes, HeldLive;
      CoreGrows(cfg.len, sealed + [active], log, index, idSeq, hist, view);
      idSeq := idSeq + 1;
      id := idSeq;
    }

    /** insert: a fresh record at revision 1, refused whole when it cannot be sealed or on a
        quota or unique breach. The byte limit is asked about the sealed line, so it holds
        afterwards. */
    method Insert(doc: Doc, ts: int, exp: int) returns (r: Outcome)
      requires Valid()
      modifies `sealed, `active, `index, `log, `hist, `view, `held, `size, `published, `idSeq, sidx.Values
      ensures Valid() && idSeq == old(idSeq) + 1 && idSeq !in old(view)
      ensures r == InsertVerdict(cfg, old(UniqueFields()), old(held), |old(view)|, old(size), NewRecord(idSeq, ts, doc, exp), doc)
      ensures var e := NewRecord(idSeq, ts, doc, exp);
              if r.Done? then Wrote([e], old(view)[idSeq := e], PutHeld(old(held), idSeq, doc.plain))
              else Untouched(old(sidx.Values)) && held == old(held)
      ensures Keeps(cfg, UniqueFields(), old(held), held, old(view), view)
      ensures r.Done? && cfg.maxBytes > 0 ==> size <= cfg.maxBytes
      ensures var line := cfg.len(Entry(idSeq, Op.Insert, ts, 1, doc.stored, doc.epoch, exp));
              && (r.Done? <==> && doc.sealable && !Clash(cfg.fmt, old(UniqueFields()), old(held), idSeq, doc.plain)
                               && (cfg.maxRecords == 0 || |old(view)| < cfg.maxRecords)
                               && (cfg.maxBytes == 0 || old(size) + line <= cfg.maxBytes))
              && (r == Refused(Unsealable) <==> !doc.sealable)
      ensures r.Done? ==>
                && r.id == idSeq && idSeq in view && view[idSeq] == Entry(idSeq, Op.Insert, ts, 1, doc.stored, doc.epoch, exp)
                && forall f | f in held :: if f in doc.plain then idSeq in held[f] && held[f][idSeq] == doc.plain[f]
                                           else idSeq !in held[f]
    {
      hide Core, Bytes, TotalBytes, Tracks, Clash, Keeps, HeldLive, PutHeld, Admitted, Landed, UniqueFields, SidxOk, CoreOk;
      PutFiles(held, idSeq + 1, doc.plain);
      var id := ReserveID();
      var e := NewRecord(id, ts, doc, exp);
      OneLine(cfg.len, e);
      InsertSays(cfg, UniqueFields(), held, |view|, size, e, doc);
      if !doc.sealable {
        NothingKept(cfg, UniqueFields(), held, view);
        return Refused(Unsealable);
      }
      r := Admit(e, doc.plain);
      CommitAdmitted(r, e, e, doc.plain);
    }

    /** The tail every inserting path shares: the write, if the record was admitted. */
    method CommitAdmitted(r: Outcome, measured: Entry, e: Entry, plain: Data)
      requires Valid() && e.id == measured.id && e.id !in view && e.id <= idSeq && e.rev == 1 && e.op.Insert?
      requires r.Done? ==> Admitted(cfg, UniqueFields(), held, |view|, size, measured, plain).Done?
      modifies `sealed, `active, `index, `log, `hist, `view, `held, `size, `published, sidx.Values
      ensures Valid()
      ensures if r.Done? then Wrote([e], old(view)[e.id := e], PutHeld(old(held), e.id, plain))
              else Untouched(old(sidx.Values)) && held == old(held)
      ensures Keeps(cfg, UniqueFields(), old(held), held, old(view), view)
    {
      hide Core, Bytes, TotalBytes, Tracks, Clash, Admitted, Keeps, HeldLive, PutHeld, Landed;
      if r.Done? {
        InsertKeeps(cfg, UniqueFields(), held, view, size, measured, e, plain);
        Write(e, plain, true);
      } else {
        NothingKept(cfg, UniqueFields(), held, view);
      }
    }

    /** update: refused when the data cannot be sealed, the record is not live or the data would
        repeat a unique value; otherwise the next revision, under the kept or given deadline. */
    method Update(id: nat, doc: Doc, ts: int, exp: int, keepExpiry: bool) returns (r: Outcome)
      requires Valid()
      modifies `sealed, `active, `index, `log, `hist, `view, `held, `size, `published, sidx.Values
      ensures Valid()
      ensures r == UpdateVerdict(cfg.fmt, old(UniqueFields()), old(held), old(view), id, doc)
      ensures if r.Done? then
                var e := Revised(id, old(view)[id], ts, doc, if keepExpiry then old(view)[id].expiresAt else exp);
                Wrote([e], old(view)[id := e], PutHeld(old(held), id, doc.plain))
              else Untouched(old(sidx.Values)) && held == old(held)
      ensures Keeps(cfg, UniqueFields(), old(held), held, old(view), view)
      ensures doc.sealable && id in old(view) && !Clash(cfg.fmt, old(UniqueFields()), old(held), id, doc.plain) <==> r == Done(id)
      ensures !doc.sealable <==> r == Refused(Unsealable)
      ensures doc.sealable && id !in old(view) <==> r == Refused(NotFound)
      ensures r.Done? ==>
                && id in view && id in old(view)
                && view[id] == Entry(id, Op.Update, ts, old(view)[id].rev + 1, doc.stored, doc.epoch,
                                     if keepExpiry then old(view)[id].expiresAt else exp)
                && forall f | f in held :: if f in doc.plain then id in held[f] && held[f][id] == doc.plain[f] else id !in held[f]
    {
      hide Core, Bytes, TotalBytes, Tracks, Clash, Keeps, HeldLive, PutHeld, Landed;
      CoreMirrors(cfg.len, sealed + [active], log, index, idSeq, hist, view);
      NothingKept(cfg, UniqueFields(), held, view);
      PutFiles(held, id, doc.plain);
      if !doc.sealable {
        return Refused(Unsealable);
      }
      if id !in index {
        return Refused(NotFound);
      }
      r := Revise(id, doc, ts, if keepExpiry then index[id].expiresAt else exp);
    }

    /** The tail every revising path shares: the unique indexes, sealing, and the write. */
    method Revise(id: nat, doc: Doc, ts: int, exp: int) returns (r: Outcome)
      requires Valid() && id in view
      modifies `sealed, `active, `index, `log, `hist, `view, `held, `size, `published, sidx.Values
      ensures Valid()
      ensures r == ReviseVerdict(cfg.fmt, old(UniqueFields()), old(held), id, doc)
      ensures if r.Done? then
                var e := Revised(id, old(view)[id], ts, doc, exp);
                Wrote([e], old(view)[id := e], PutHeld(old(held), id, doc.plain))
              else Untouched(old(sidx.Values)) && held == old(held)
      ensures Keeps(cfg, UniqueFields(), old(held), held, old(view), view)
    {
      hide Core, Bytes, TotalBytes, Tracks, Clash, Keeps, HeldLive, PutHeld, Landed;
      CoreMirrors(cfg.len, sealed + [active], log, index, idSeq, hist, view);
      CoreIds(cfg.len, sealed + [active], log, index, idSeq, hist, view);
      NothingKept(cfg, UniqueFields(), held, view);
      var dup := CheckUnique(id, doc.plain);
      if dup {
        return Refused(Duplicate);
      }
      if !doc.sealable {
        return Refused(Unsealable);
      }
      var e := Entry(id, Op.Update, ts, index[id].rev + 1, doc.stored, doc.epoch, exp);
      UpdateKeeps(cfg, UniqueFields(), held, view, e, doc.plain);
      Write(e, doc.plain, false);
      r := Done(id);
    }

    /** Delete: a tombstone, if the record is live. It never rotates. */
    method Delete(id: nat, ts: int) returns (ok: bool)
      requires Valid()
      modifies `active, `index, `log, `hist, `view, `held, `size, `published, sidx.Values
      ensures Valid() && (ok <==> id in old(view))
      ensures ok ==> id !in view && published == old(published) + [Entry(id, Op.Delete, ts, 0, map[], 0, 0)]
      ensures if ok then
                && Shipped([Tombstone(id, ts)], old(view) - {id}, DropHeld(old(held), id))
                && active == Extended(old(active), [Tombstone(id, ts)])
              else Untouched(old(sidx.Values)) && held == old(held)
      ensures Keeps(cfg, UniqueFields(), old(held), held, old(view), view)
    {
      hide Core, Bytes, TotalBytes, Tracks, Keeps, HeldLive, DropHeld;
      CoreMirrors(cfg.len, sealed + [active], log, index, idSeq, hist, view);
      CoreIds(cfg.len, sealed + [active], log, index, idSeq, hist, view);
      ok := id in index;
      if ok {
        DeleteKeeps(cfg, UniqueFields(), held, view, id);
        CommitDelete(Tombstone(id, ts));
        published := published + [Tombstone(id, ts)];
      } else {
        NothingKept(cfg, UniqueFields(), held, view);
      }
    }

    // ---- Reads ----------------------------------------------------------------------------

    /** Read the current line of a live record through its index entry. */
    method ReadRecord(id: nat) returns (r: Option<Entry>)
      requires CoreOk() && id in index
      ensures id in view && r == Some(view[id])
    {
      hide Core, Bytes, TotalBytes;
      CoreAscends(cfg.len, sealed + [active], log, index, idSeq, hist, view);
      ghost var i, j := Located(cfg.len, sealed + [active], log, index, idSeq, hist, view, id);
      var s := SegmentByNumber(sealed, active, index[id].seg);
      assert s == Some((sealed + [active])[i]);
      r := ReadAt(cfg.len, s.value, index[id].off);
    }

    /** Get: the current version of a record, unless its deadline has passed. */
    method Get(id: nat, now: int) returns (r: Option<Entry>)
      requires CoreOk()
      ensures r == if id in view && !Expired(view[id].expiresAt, now) then Some(view[id]) else None
      ensures id in view && (view[id].expiresAt == 0 || now < view[id].expiresAt) ==> r == Some(view[id])
      ensures id in view && view[id].expiresAt != 0 && view[id].expiresAt <= now ==> r.None?
    {
      hide Core, TotalBytes;
      CoreMirrors(cfg.len, sealed + [active], log, index, idSeq, hist, view);
      if id !in index || Expired(index[id].expiresAt, now) {
        return None;
      }
      r := ReadRecord(id);
    }

    // ---- Keyed writes ------------------------------------------------------------------------

    /** ensureIndex: refused on a field the policy encrypts; an existing index is kept; a new
        one starts as what rebuild computes from the segments. */
    method EnsureIndex(field: string, unique: bool, encrypted: bool) returns (ok: bool)
      requires Valid()
      modifies `sidx, `held
      ensures Valid() && (ok <==> !encrypted)
      ensures if ok then held == WithIndex(old(held), field, view) else held == old(held)
      ensures if !ok || field in old(sidx) then sidx == old(sidx)
              else sidx == old(sidx)[field := sidx[field]] && fresh(sidx[field]) && sidx[field].unique == unique
      ensures UniqueFields() == old(UniqueFields()) + (if ok && unique && field !in old(sidx) then {field} else {})
      ensures fresh(sidx.Values - old(sidx.Values))
    {
      hide Core, Tracks, TotalBytes, HeldLive, FieldVals;
      if encrypted {
        return false;
      }
      ok := true;
      if field !in sidx {
        AddIndex(field, unique);
      }
    }

    method AddIndex(field: string, unique: bool)
      requires Valid() && field !in sidx
      modifies `sidx, `held
      ensures Valid() && held == old(held)[field := FieldVals(field, view)]
      ensures field in sidx && sidx == old(sidx)[field := sidx[field]]
      ensures fresh(sidx[field]) && sidx[field].unique == unique
    {
      hide Core, Tracks, TotalBytes, HeldLive, FieldVals, Replay, Entries;
      CoreView(cfg.len, sealed + [active], log, index, idSeq, hist, view);
      var s := NewIndex(cfg.fmt, field, unique, sealed + [active]);
      AddedLive(held, view, field);
      sidx := sidx[field := s];
      held := held[field := FieldVals(field, view)];
    }

    /** The live records that carry a key; none if no keyed write ever made the index. */
    method ResolveKey(key: string) returns (ids: seq<nat>)
      requires Valid()
      ensures forall id :: id in ids <==> Keyed(cfg.fmt, held, id, key)
    {
      hide Core, TotalBytes;
      if KEY !in sidx {
        return [];
      }
      assert Tracks(sidx[KEY], cfg.fmt, KEY, held[KEY]);
      ids := sidx[KEY].Lookup(key);
    }

    /** Upsert: insert under the key if no live record carries it, else replace that record's
        data, keeping its deadline. */
    method Upsert(key: string, doc: Doc, ts: int, exp: int) returns (r: Outcome)
      requires Valid()
      modifies this, sidx.Values
      ensures Valid()
      ensures KEY in doc.plain ==> r == Refused(Reserved) && sidx == old(sidx) && held == old(held) && idSeq == old(idSeq)
      ensures KEY !in doc.plain ==>
                && var h := WithIndex(old(held), KEY, old(view));
                && var keyed := Stamped(doc, key);
                && UniqueFields() == old(UniqueFields()) + (if KEY in old(sidx) then {} else {KEY})
                && UpsertAllowed(cfg, UniqueFields(), h, |old(view)|, old(size), old(idSeq), key, keyed, ts, exp, r)
                && idSeq == old(idSeq) + (if AnyKeyed(cfg.fmt, h, key) then 0 else 1)
                && Keeps(cfg, UniqueFields(), h, held, old(view), view)
                && if r.Done? then
                     var e := UpsertLine(old(view), r.id, keyed, ts, exp);
                     Wrote([e], old(view)[r.id := e], PutHeld(h, r.id, keyed.plain))
                   else held == h
      ensures !r.Done? ==> Untouched(old(sidx.Values))
      ensures r.Done? ==> r.id in old(view) || r.id == idSeq == old(idSeq) + 1
      ensures r.Done? ==>
                var e := UpsertLine(old(view), r.id, Stamped(doc, key), ts, exp);
                size <= cfg.maxBytes <==> old(size) + cfg.len(e) <= cfg.maxBytes
      ensures r.Done? ==> Keyed(cfg.fmt, held, r.id, key) && FiledUnder(held, r.id, doc.plain)
      ensures r.Done? ==>
                && r.id in view && view[r.id].data == doc.stored && view[r.id].epoch == doc.epoch && view[r.id].ts == ts
                && if r.id in old(view)
                   then view[r.id].rev == old(view)[r.id].rev + 1 && view[r.id].expiresAt == old(view)[r.id].expiresAt
                   else view[r.id].rev == 1 && view[r.id].expiresAt == exp
      ensures fresh(sidx.Values - old(sidx.Values)) && idSeq >= old(idSeq)
    {
      hide Core, Bytes, TotalBytes, Tracks, Keeps, HeldLive, UpsertAllowed, UpsertLine, AnyKeyed, WithIndex, PutHeld, Landed,
           Stamped, Keyed, FiledUnder, UniqueFields, SidxOk, CoreOk;
      if KEY in doc.plain {
        return Refused(Reserved);
      }
      HasIndex(held, KEY, view);
      r := UpsertIndexed(key, Stamped(doc, key), ts, exp);
      if r.Done? {
        OneLine(cfg.len, UpsertLine(old(view), r.id, Stamped(doc, key), ts, exp));
        UpsertLineIs(old(view), r.id, doc, key, ts, exp);
        StampedFiles(cfg.fmt, WithIndex(old(held), KEY, old(view)), r.id, doc, key);
      }
    }

    /** Make sure of the index on the key, then upsert. */
    method UpsertIndexed(key: string, doc: Doc, ts: int, exp: int) returns (r: Outcome)
      requires Valid()
      modifies this, sidx.Values
      ensures Valid() && fresh(sidx.Values - old(sidx.Values)) && idSeq >= old(idSeq)
      ensures var h := WithIndex(old(held), KEY, old(view));
              && UniqueFields() == old(UniqueFields()) + (if KEY in old(sidx) then {} else {KEY})
              && UpsertAllowed(cfg, UniqueFields(), h, |old(view)|, old(size), old(idSeq), key, doc, ts, exp, r)
              && idSeq == old(idSeq) + (if AnyKeyed(cfg.fmt, h, key) then 0 else 1)
              && Keeps(cfg, UniqueFields(), h, held, old(view), view)
              && if r.Done? then
                   var e := UpsertLine(old(view), r.id, doc, ts, exp);
                   Wrote([e], old(view)[r.id := e], PutHeld(h, r.id, doc.plain))
                 else held == h
      ensures !r.Done? ==> Untouched(old(sidx.Values))
      ensures r.Done? ==> r.id in old(view) || r.id == idSeq == old(idSeq) + 1
    {
      hide Core, Bytes, TotalBytes, Tracks, Keeps, HeldLive, UpsertAllowed, UpsertLine, AnyKeyed, WithIndex, PutHeld, Landed,
           Keyed, UniqueFields, SidxOk, CoreOk;
      var ok := EnsureIndex(KEY, true, false);
      r := UpsertKeyed(key, doc, ts, exp);
    }

    /** What an upsert did, given that there is an index on the key. */
    twostate predicate Upserted(new key: string, new doc: Doc, new ts: int, new exp: int, new r: Outcome) reads this {
      && UpsertAllowed(cfg, old(UniqueFields()), old(held), |old(view)|, old(size), old(idSeq), key, doc, ts, exp, r)
      && idSeq == old(idSeq) + (if AnyKeyed(cfg.fmt, old(held), key) then 0 else 1)
      && (r.Done? ==> r.id in old(view) || r.id == idSeq == old(idSeq) + 1)
      && if r.Done? then
           var e := UpsertLine(old(view), r.id, doc, ts, exp);
           Wrote([e], old(view)[r.id := e], PutHeld(old(held), r.id, doc.plain))
         else held == old(held)
    }

    method UpsertKeyed(key: string, doc: Doc, ts: int, exp: int) returns (r: Outcome)
      requires Valid()
      modifies `sealed, `active, `index, `log, `hist, `view, `held, `size, `published, `idSeq, sidx.Values
      ensures Valid() && Keeps(cfg, UniqueFields(), old(held), held, old(view), view)
      ensures Upserted(key, doc, ts, exp, r) && (!r.Done? ==> Untouched(old(sidx.Values)))
    {
      hide Core, Bytes, TotalBytes, Tracks, Keeps, HeldLive, Keyed, AnyKeyed, UpsertAllowed, UpsertLine, PutHeld, Landed;
      var ids := ResolveKey(key);
      if |ids| > 0 {
        r := ReplaceKeyed(ids[0], key, doc, ts, exp);
      } else {
        r := InsertKeyed(key, doc, ts, exp);
      }
    }

    method ReplaceKeyed(id: nat, key: string, doc: Doc, ts: int, ghost exp: int) returns (r: Outcome)
      requires Valid() && Keyed(cfg.fmt, held, id, key)
      modifies `sealed, `active, `index, `log, `hist, `view, `held, `size, `published, sidx.Values
      ensures Valid() && Keeps(cfg, UniqueFields(), old(held), held, old(view), view)
      ensures Upserted(key, doc, ts, exp, r) && (!r.Done? ==> Untouched(old(sidx.Values)))
    {
      hide Core, Bytes, TotalBytes, Tracks, Keeps, HeldLive, UpsertAllowed, AnyKeyed, PutHeld, Clash, Keyed, Landed;
      KeyedIsLive(id, key);
      CoreMirrors(cfg.len, sealed + [active], log, index, idSeq, hist, view);
      r := Revise(id, doc, ts, index[id].expiresAt);
      Replaces(cfg, old(UniqueFields()), old(held), |old(view)|, old(size), old(idSeq), key, doc, ts, exp, id, r);
    }

    method InsertKeyed(key: string, doc: Doc, ts: int, exp: int) returns (r: Outcome)
      requires Valid() && forall id :: !Keyed(cfg.fmt, held, id, key)
      modifies `sealed, `active, `index, `log, `hist, `view, `held, `size, `published, `idSeq, sidx.Values
      ensures Valid() && Keeps(cfg, UniqueFields(), old(held), held, old(view), view)
      ensures Upserted(key, doc, ts, exp, r) && (!r.Done? ==> Untouched(old(sidx.Values)))
    {
      hide Core, Bytes, TotalBytes, Tracks, Keeps, HeldLive, UpsertAllowed, AnyKeyed, PutHeld, Clash, Keyed, Landed,
           WithinQuota;
      var id := ReserveID();
      var measured := NewRecord(id, ts, Unsealed(doc), exp);
      r := Admit(measured, doc.plain);
      if r.Done? && !doc.sealable {
        r := Refused(Unsealable);
      }
      CommitAdmitted(r, measured, NewRecord(id, ts, doc, exp), doc.plain);
      Inserts(cfg, old(UniqueFields()), old(held), |old(view)|, old(size), old(idSeq), key, doc, ts, exp, r);
    }

    lemma KeyedIsLive(id: nat, key: string)
      requires HeldLive(held, view) && Keyed(cfg.fmt, held, id, key)
      ensures id in view
    {
    }

    /** compareAndSwap: revise the record that carries the key, if its committed version can be
        decrypted and the condition holds of it. The losing call changes nothing. */
    method CompareAndSwap(key: string, readable: Entry -> bool, cond: Entry -> bool, doc: Doc, ts: int) returns (r: Outcome)
      requires Valid()
      modifies `sealed, `active, `index, `log, `hist, `view, `held, `size, `published, sidx.Values
      ensures Valid() && Keeps(cfg, UniqueFields(), old(held), held, old(view), view)
      ensures SwapAllowed(cfg.fmt, old(UniqueFields()), old(held), old(view), key, readable, cond, doc, r)
      ensures if r.Done? then
                && r.id in old(view)
                && var keyed := Stamped(doc, key);
                   var e := Revised(r.id, old(view)[r.id], ts, keyed, old(view)[r.id].expiresAt);
                   Wrote([e], old(view)[r.id := e], PutHeld(old(held), r.id, keyed.plain))
              else Untouched(old(sidx.Values)) && held == old(held)
      ensures r.Done? ==>
                && Keyed(cfg.fmt, old(held), r.id, key) && Keyed(cfg.fmt, held, r.id, key) && FiledUnder(held, r.id, doc.plain)
                && r.id in old(view) && readable(old(view)[r.id]) && cond(old(view)[r.id])
                && r.id in view && view[r.id].data == doc.stored && view[r.id].epoch == doc.epoch && view[r.id].ts == ts
                && view[r.id].rev == old(view)[r.id].rev + 1 && view[r.id].expiresAt == old(view)[r.id].expiresAt
    {
      hide Core, Bytes, TotalBytes, Tracks, Keeps, HeldLive, PutHeld, Keyed, Landed, Stamped, SwapAllowed, FiledUnder,
           UniqueFields, SidxOk, CoreOk;
      ghost var uniq, h, v := UniqueFields(), held, view;
      r := SwapKeyed(key, readable, cond, doc, ts);
      if r.Done? {
        SwapDone(cfg.fmt, uniq, h, v, key, readable, cond, doc, r);
        KeyedMeans(cfg.fmt, h, r.id, key);
        StampedFiles(cfg.fmt, h, r.id, doc, key);
        RevisedIs(r.id, v[r.id], ts, doc, key, v[r.id].expiresAt);
      }
    }

    method SwapKeyed(key: string, readable: Entry -> bool, cond: Entry -> bool, doc: Doc, ts: int) returns (r: Outcome)
      requires Valid()
      modifies `sealed, `active, `index, `log, `hist, `view, `held, `size, `published, sidx.Values
      ensures Valid() && Keeps(cfg, UniqueFields(), old(held), held, old(view), view)
      ensures SwapAllowed(cfg.fmt, old(UniqueFields()), old(held), old(view), key, readable, cond, doc, r)
      ensures if r.Done? then
                && r.id in old(view)
                && var keyed := Stamped(doc, key);
                   var e := Revised(r.id, old(view)[r.id], ts, keyed, old(view)[r.id].expiresAt);
                   Wrote([e], old(view)[r.id := e], PutHeld(old(held), r.id, keyed.plain))
              else Untouched(old(sidx.Values)) && held == old(held)
    {
      hide Core, Bytes, TotalBytes, Tracks, Keeps, HeldLive, PutHeld, Clash, Keyed, Landed, Stamped, SwapAllowed, SwapVerdict;
      NothingKept(cfg, UniqueFields(), held, view);
      ghost var uniq, h, v := UniqueFields(), held, view;
      if KEY in doc.plain {
        SwapRefused(cfg.fmt, uniq, h, v, key, readable, cond, doc);
        return Refused(Reserved);
      }
      var ids := ResolveKey(key);
      if |ids| == 0 {
        SwapRefused(cfg.fmt, uniq, h, v, key, readable, cond, doc);
        return Refused(NotFound);
      }
      var id := ids[0];
      KeyedIsLive(id, key);
      CoreMirrors(cfg.len, sealed + [active], log, index, idSeq, hist, view);
      var cur := ReadRecord(id);
      SwapAnswer(cfg.fmt, uniq, h, v, key, readable, cond, doc, id);
      if !readable(cur.value) {
        return Refused(Unreadable);
      }
      if !cond(cur.value) {
        return Refused(NotFound);
      }
      r := Revise(id, Stamped(doc, key), ts, index[id].expiresAt);
    }

    // ---- Batches ------------------------------------------------------------------------------

    method CheckTargets(ops: seq<TxOp>) returns (missing: bool)
      requires CoreOk()
      ensures missing <==> TargetMissing(view, ops)
    {
      hide Core, TotalBytes;
      CoreMirrors(cfg.len, sealed + [active], log, index, idSeq, hist, view);
      for i := 0 to |ops|
        invariant forall j | 0 <= j < i :: ops[j].TxInsert? || ops[j].id in view
      {
        if !ops[i].TxInsert? && ops[i].id !in index {
          return true;
        }
      }
      missing := false;
    }

    /** txCheckUnique: against committed data and against the claims of earlier operations. */
    method CheckBatchUnique(ops: seq<TxOp>) returns (dup: bool)
      requires SidxOk(held)
      ensures dup <==> BatchClash(cfg.fmt, UniqueFields(), held, ops)
    {
      hide Tracks, ClaimsUpTo, OpClash;
      NoClaims(cfg.fmt, ops);
      var claimed: ClaimMap := map[];
      for k := 0 to |ops|
        invariant forall j | 0 <= j < k :: !OpClash(cfg.fmt, UniqueFields(), held, ops, j)
        invariant forall f | f in UniqueFields() :: ClaimsUpTo(cfg.fmt, claimed, ops, k, f)
      {
        dup, claimed := CheckOp(ops, k, claimed);
        if dup {
          return true;
        }
      }
      dup := false;
    }

    method CheckOp(ops: seq<TxOp>, k: nat, claimed0: ClaimMap) returns (dup: bool, claimed: ClaimMap)
      requires SidxOk(held) && k < |ops|
      requires forall j | 0 <= j < k :: !OpClash(cfg.fmt, UniqueFields(), held, ops, j)
      requires forall f | f in UniqueFields() :: ClaimsUpTo(cfg.fmt, claimed0, ops, k, f)
      ensures dup <==> OpClash(cfg.fmt, UniqueFields(), held, ops, k)
      ensures !dup ==> forall f | f in UniqueFields() :: ClaimsUpTo(cfg.fmt, claimed, ops, k + 1, f)
    {
      hide ClaimsUpTo, Taken, Contested, Claims, Tracks, Render;
      claimed := claimed0;
      ghost var uniq := UniqueFields();
      var todo := if ops[k].TxDelete? then {} else set f | f in sidx && sidx[f].unique && f in ops[k].doc.plain;
      forall f | f in uniq && f !in todo ensures ClaimsUpTo(cfg.fmt, claimed, ops, k + 1, f) {
        ClaimSkip(cfg.fmt, claimed, ops, k, f);
      }
      while todo != {}
        invariant todo <= uniq && forall f | f in todo :: IsWrite(ops[k]) && f in ops[k].doc.plain
        invariant forall f | f in uniq :: ClaimsUpTo(cfg.fmt, claimed, ops, if f in todo then k else k + 1, f)
        invariant IsWrite(ops[k]) ==> forall f | f in uniq && f in ops[k].doc.plain && f !in todo ::
                    FreeFor(cfg.fmt, held, ops, k, f)
        decreases todo
      {
        var f :| f in todo;
        var key := Render(cfg.fmt, ops[k].doc.plain[f]);
        var clash := CheckField(ops, k, f, claimed);
        if clash {
          return true, claimed;
        }
        ClaimAdd(cfg.fmt, claimed, ops, k, f);
        forall g | g in uniq && g != f
          ensures ClaimsUpTo(cfg.fmt, claimed[(f, key) := ops[k].id], ops, if g in todo then k else k + 1, g)
        {
          ClaimOther(cfg.fmt, claimed, ops, if g in todo then k else k + 1, f, key, ops[k].id, g);
        }
        claimed := claimed[(f, key) := ops[k].id];
        todo := todo - {f};
      }
      dup := false;
    }

    method CheckField(ops: seq<TxOp>, k: nat, f: string, claimed: ClaimMap) returns (clash: bool)
      requires SidxOk(held) && k < |ops| && f in UniqueFields()
      requires forall j | 0 <= j < k :: !OpClash(cfg.fmt, UniqueFields(), held, ops, j)
      requires ClaimsUpTo(cfg.fmt, claimed, ops, k, f) && IsWrite(ops[k]) && f in ops[k].doc.plain
      ensures clash <==> !FreeFor(cfg.fmt, held, ops, k, f)
    {
      hide Claims, OpClash;
      var key := Render(cfg.fmt, ops[k].doc.plain[f]);
      assert Tracks(sidx[f], cfg.fmt, f, held[f]);
      clash := sidx[f].Conflict(key, ops[k].id);
      ClaimMeans(cfg.fmt, UniqueFields(), held, ops, k, f, key);
      assert Look(claimed, f, key) == ClaimOf(cfg.fmt, ops, k, f, key);
      if (f, key) in claimed && claimed[(f, key)] != ops[k].id {
        clash := true;
      }
    }

    /** The line an operation appends, its revision and deadline taken from the index. */
    method NextEntry(op: TxOp) returns (e: Entry)
      requires CoreOk()
      ensures e == TxEntry(view, op)
    {
      hide Core, TotalBytes;
      CoreMirrors(cfg.len, sealed + [active], log, index, idSeq, hist, view);
      match op {
        case TxInsert(id, doc, ts, exp) =>
          e := Entry(id, Op.Insert, ts, 1, doc.stored, doc.epoch, exp);
        case TxUpdate(id, doc, ts) =>
          var rev, exp := 1, 0;
          if id in index {
            rev, exp := index[id].rev + 1, index[id].expiresAt;
          }
          e := Entry(id, Op.Update, ts, rev, doc.stored, doc.epoch, exp);
        case TxDelete(id, ts) =>
          e := Tombstone(id, ts);
      }
    }

    /** Apply every operation in order and rotate once at the end. */
    method ApplyOps(ops: seq<TxOp>)
      requires Valid() && FreshInserts(view, ops) && !TargetMissing(view, ops) && Issued(ops, idSeq) && ops != []
      modifies `sealed, `active, `index, `log, `hist, `view, `held, `size, `published, sidx.Values
      ensures Valid()
      ensures Wrote(TxEntries(old(view), ops, |ops|), TxView(old(view), ops, |ops|), TxHeld(old(held), ops, |ops|))
    {
      hide Core, Bytes, TotalBytes, Tracks, HeldLive, FreshInserts, TxEntry, Sound, Apply, TxHeld, PutHeld, DropHeld, Rotated;
      CoreIds(cfg.len, sealed + [active], log, index, idSeq, hist, view);
      ghost var v, h := view, held;
      NoOps(cfg.len, v, h, ops);
      for i := 0 to |ops|
        invariant Valid() && Shipped(TxEntries(v, ops, i), TxView(v, ops, i), TxHeld(h, ops, i))
        invariant sealed == old(sealed) && active == Extended(old(active), TxEntries(v, ops, i))
      {
        OpIsSound(v, ops, i);
        TxHeldStep(h, ops, i);
        ApplyOp(ops[i]);
        BytesConcat(cfg.len, TxEntries(v, ops, i), [TxEntry(TxView(v, ops, i), ops[i])]);
        ghost var es, e := TxEntries(v, ops, i), TxEntry(TxView(v, ops, i), ops[i]);
        Regroup(old(log), es, [e]);
        Regroup(old(hist), es, [e]);
        Regroup(old(published), es, [e]);
        Regroup(old(active).entries, es, [e]);
      }
      RotateIfFull();
    }

    method ApplyOp(op: TxOp)
      requires Valid() && Sound(view, TxEntry(view, op)) && op.id <= idSeq && (op.TxInsert? ==> op.id !in view)
      modifies `active, `index, `log, `hist, `view, `held, `size, `published, sidx.Values
      ensures Valid()
      ensures Shipped([TxEntry(old(view), op)], Apply(old(view), TxEntry(old(view), op)),
                      if op.TxDelete? then DropHeld(old(held), op.id) else PutHeld(old(held), op.id, op.doc.plain))
      ensures active == Appended(old(active), TxEntry(old(view), op))
    {
      hide Core, Bytes, TotalBytes, Tracks, HeldLive, Sound, Apply, PutHeld, DropHeld;
      var e := NextEntry(op);
      if op.TxDelete? {
        CommitDelete(e);
      } else {
        CommitWrite(e, op.doc.plain, op.TxInsert?);
      }
      published := published + [e];
    }

    /** CommitTx: every check is made before the first append, so a refused batch changes
        nothing and an accepted one is its operations in order. */
    method CommitTx(ops: seq<TxOp>) returns (refused: Option<Refusal>)
      requires Valid() && FreshInserts(view, ops) && Issued(ops, idSeq)
      modifies `sealed, `active, `index, `log, `hist, `view, `held, `size, `published, sidx.Values
      ensures Valid() && Keeps(cfg, UniqueFields(), old(held), held, old(view), view)
      ensures refused == TxVerdict(cfg, UniqueFields(), old(held), old(view), old(size), ops)
      ensures if refused.None?
              then Wrote(TxEntries(old(view), ops, |ops|), TxView(old(view), ops, |ops|), TxHeld(old(held), ops, |ops|))
              else Untouched(old(sidx.Values)) && held == old(held)
      ensures refused.None? ==> TxLeaves(old(view), view, ops)
      ensures refused.None? ==>
                (size <= cfg.maxBytes <==> old(size) + Bytes(cfg.len, TxEntries(old(view), ops, |ops|)) <= cfg.maxBytes)
    {
      hide Core, Bytes, TotalBytes, Tracks, HeldLive, FreshInserts, Keeps, TargetMissing, BatchClash, WithinQuota,
           TxView, TxEntries, TxHeld, AnyUnsealable, TxLeaves, UniqueFields, SidxOk, CoreOk, InsertCount,
           InsertBytes, Landed;
      BatchLeaves(view, ops);
      NothingKept(cfg, UniqueFields(), held, view);
      if ops == [] {
        EmptyBatch(cfg, UniqueFields(), held, view, size);
        NoOps(cfg.len, view, held, ops);
        LandedNone(cfg, sealed, active);
        return None;
      }
      var missing := CheckTargets(ops);
      if missing {
        return Some(NotFound);
      }
      var dup := CheckBatchUnique(ops);
      if dup {
        return Some(Duplicate);
      }
      var fits := CheckInserts(ops);
      if !fits {
        return Some(QuotaExceeded);
      }
      var unsealable := FindUnsealable(ops);
      if unsealable < |ops| {
        return Some(Unsealable);
      }
      AcceptedKeeps(cfg, UniqueFields(), held, view, size, ops, InsertBytes(cfg, ops, |ops|, false));
      ApplyOps(ops);
      refused := None;
    }

    method CheckInserts(ops: seq<TxOp>) returns (ok: bool)
      requires CoreOk()
      ensures ok <==> InsertCount(ops, |ops|) == 0 ||
                      WithinQuota(cfg, |view|, size, InsertCount(ops, |ops|), InsertBytes(cfg, ops, |ops|, false))
    {
      hide Core, TotalBytes, OpBytes, WithinQuota;
      var newRecords, newBytes := 0, 0;
      for i := 0 to |ops|
        invariant newRecords == InsertCount(ops, i) && newBytes == InsertBytes(cfg, ops, i, false)
      {
        if ops[i].TxInsert? {
          newRecords := newRecords + 1;
          newBytes := newBytes + OpBytes(cfg, ops[i], false);
        }
      }
      if newRecords == 0 {
        return true;
      }
      ok := CheckQuota(newRecords, newBytes);
    }

    /** InsertMany: fresh ids in input order, taken up to the first record that cannot be sealed;
        one quota and uniqueness check for the batch. The byte limit is asked about the sealed
        lines, so it holds afterwards. */
    method InsertMany(docs: seq<Doc>, ts: int, exp: int) returns (refused: Option<Refusal>, ids: seq<nat>)
      requires Valid()
      modifies `sealed, `active, `index, `log, `hist, `view, `held, `size, `published, `idSeq, sidx.Values
      ensures Valid() && Keeps(cfg, UniqueFields(), old(held), held, old(view), view)
      ensures idSeq == old(idSeq) + if refused == Some(Reserved) then 0 else TakenIds(docs)
      ensures refused == Some(Reserved) <==> exists i | 0 <= i < |docs| :: KEY in docs[i].plain
      ensures refused != Some(Reserved) ==>
                && var ops := InsertOps(docs, ts, exp, old(idSeq));
                && refused == ManyVerdict(cfg, UniqueFields(), old(held), old(view), old(size), ops)
                && (refused.None? ==>
                      && ids == OpIds(ops)
                      && Wrote(TxEntries(old(view), ops, |ops|), TxView(old(view), ops, |ops|), TxHeld(old(held), ops, |ops|)))
      ensures refused.Some? ==> Untouched(old(sidx.Values)) && held == old(held)
      ensures refused.None? ==>
                && |ids| == |docs|
                && forall i | 0 <= i < |docs| ::
                     && ids[i] == old(idSeq) + 1 + i && ids[i] in view
                     && view[ids[i]] == Entry(ids[i], Op.Insert, ts, 1, docs[i].stored, docs[i].epoch, exp)
      ensures refused.None? && docs != [] && cfg.maxBytes > 0 ==> size <= cfg.maxBytes
    {
      hide Core, Bytes, TotalBytes, Tracks, HeldLive, Keeps, BatchClash, WithinQuota, TxView, TxEntries, TxHeld,
           FreshInserts, Issued, ManyVerdict, Landed, TakenIds, OpIds;
      NothingKept(cfg, UniqueFields(), held, view);
      ids := [];
      if docs == [] {
        EmptyBatch(cfg, UniqueFields(), held, view, size);
        NoOps(cfg.len, view, held, []);
        TakenAt(docs, 0);
        LandedNone(cfg, sealed, active);
        ManyLands(view, docs, ts, exp, idSeq);
        return None, ids;
      }
      var reserved := AnyReserved(docs);
      if reserved {
        return Some(Reserved), ids;
      }
      var ops, ok;
      ok, ops, ids := ReserveMany(docs, ts, exp);
      if !ok {
        UnsealableMany(cfg, UniqueFields(), held, view, size, docs, ts, exp, old(idSeq));
        return Some(Unsealable), [];
      }
      refused := InsertReserved(ops);
      ManyLands(old(view), docs, ts, exp, old(idSeq));
    }

    /** One quota and one uniqueness check for a batch of insertions, then all of them. */
    method InsertReserved(ops: seq<TxOp>) returns (refused: Option<Refusal>)
      requires Valid() && FreshInserts(view, ops) && Issued(ops, idSeq) && |ops| > 0
      requires (forall i | 0 <= i < |ops| :: ops[i].TxInsert?) && !AnyUnsealable(ops)
      modifies `sealed, `active, `index, `log, `hist, `view, `held, `size, `published, sidx.Values
      ensures Valid() && Keeps(cfg, UniqueFields(), old(held), held, old(view), view)
      ensures refused == ManyVerdict(cfg, UniqueFields(), old(held), old(view), old(size), ops) && refused != Some(Reserved)
      ensures if refused.None?
              then Wrote(TxEntries(old(view), ops, |ops|), TxView(old(view), ops, |ops|), TxHeld(old(held), ops, |ops|))
              else Untouched(old(sidx.Values)) && held == old(held)
      ensures refused.None? && cfg.maxBytes > 0 ==> size <= cfg.maxBytes
    {
      hide Core, Bytes, TotalBytes, Tracks, HeldLive, Keeps, FreshInserts, BatchClash, WithinQuota, TxView, TxEntries, TxHeld,
           AnyUnsealable;
      NothingKept(cfg, UniqueFields(), held, view);
      var fits := CheckQuota(|ops|, InsertBytes(cfg, ops, |ops|, true));
      if !fits {
        return Some(QuotaExceeded);
      }
      var dup := CheckBatchUnique(ops);
      if dup {
        return Some(Duplicate);
      }
      EveryInsert(ops, |ops|);
      ManyFits(cfg, UniqueFields(), held, view, size, ops);
      AcceptedKeeps(cfg, UniqueFields(), held, view, size, ops, InsertBytes(cfg, ops, |ops|, true));
      ApplyOps(ops);
      refused := None;
    }

    /** Take the ids of a batch from the counter and seal its records; stops at the first one
        that cannot be sealed. */
    method ReserveMany(docs: seq<Doc>, ts: int, exp: int) returns (ok: bool, ops: seq<TxOp>, ids: seq<nat>)
      requires Valid()
      modifies `idSeq
      ensures Valid() && idSeq == old(idSeq) + TakenIds(docs) && (ok <==> forall i | 0 <= i < |docs| :: docs[i].sealable)
      ensures ok ==>
                && ops == InsertOps(docs, ts, exp, old(idSeq)) && ids == OpIds(ops)
                && FreshInserts(view, ops) && Issued(ops, idSeq) && |ops| == |docs|
                && (forall i | 0 <= i < |ops| :: ops[i].TxInsert?) && !AnyUnsealable(ops)
    {
      hide Core, Tracks, TotalBytes, HeldLive, TakenIds;
      ops, ids := [], [];
      for i := 0 to |docs|
        invariant Valid() && idSeq == old(idSeq) + i && |ops| == i && |ids| == i
        invariant forall j | 0 <= j < i :: docs[j].sealable
        invariant forall j | 0 <= j < i :: ops[j] == TxInsert(old(idSeq) + 1 + j, docs[j], ts, exp) && ids[j] == ops[j].id
        invariant forall j | 0 <= j < i :: ops[j].id !in view
      {
        var id := ReserveID();
        if !docs[i].sealable {
          TakenAt(docs, i);
          return false, [], [];
        }
        ops, ids := ops + [TxInsert(id, docs[i], ts, exp)], ids + [id];
      }
      TakenAt(docs, |docs|);
      ok := true;
    }

    // ---- Replicated apply, reaping, compaction and opening ---------------------------------

    /** applyEntry: write a replicated entry verbatim unless its effect is already present. */
    method ApplyEntry(e: Entry)
      requires Valid() && (e.op.Delete? || e.rev >= 1)
      modifies this, sidx.Values
      ensures Valid() && view == Replicate(old(view), e)
      ensures var h := if KEY in e.data then WithIndex(old(held), KEY, old(view)) else old(held);
              if Present(old(view), e) then Untouched(old(sidx.Values)) && held == h && idSeq == old(idSeq)
              else
                && Logged([e], Apply(old(view), e), if e.op.Delete? then DropHeld(h, e.id) else PutHeld(h, e.id, e.data))
                && (sealed, active) == Landed(cfg, old(sealed), old(active), [e])
                && idSeq == if e.id > old(idSeq) then e.id else old(idSeq)
      ensures fresh(sidx.Values - old(sidx.Values)) && published == old(published)
      ensures UniqueFields() == old(UniqueFields()) + (if KEY in e.data && KEY !in old(sidx) then {KEY} else {})
    {
      hide Core, Bytes, TotalBytes, Tracks, HeldLive, PutHeld, DropHeld, WithIndex, Replicate, Apply, Present, Landed,
           UniqueFields, SidxOk, CoreOk;
      if KEY in e.data {
        var ok := EnsureIndex(KEY, true, false);
      }
      ApplyReplicated(e);
    }

    method ApplyReplicated(e: Entry)
      requires Valid() && (e.op.Delete? || e.rev >= 1)
      modifies `sealed, `active, `index, `log, `hist, `view, `held, `size, `idSeq, sidx.Values
      ensures Valid() && view == Replicate(old(view), e)
      ensures if Present(old(view), e) then Untouched(old(sidx.Values)) && held == old(held) && idSeq == old(idSeq)
              else
                && Logged([e], Apply(old(view), e),
                          if e.op.Delete? then DropHeld(old(held), e.id) else PutHeld(old(held), e.id, e.data))
                && (sealed, active) == Landed(cfg, old(sealed), old(active), [e])
                && idSeq == if e.id > old(idSeq) then e.id else old(idSeq)
    {
      hide Core, Bytes, TotalBytes, Tracks, HeldLive, PutHeld, DropHeld, Rotated;
      CoreMirrors(cfg.len, sealed + [active], log, index, idSeq, hist, view);
      var isLive := e.id in index;
      if e.op.Delete? && !isLive {
        return;
      }
      if !e.op.Delete? && isLive && index[e.id].rev >= e.rev {
        return;
      }
      RaiseIdSeq(e.id);
      if e.op.Delete? {
        CommitDelete(e);
      } else {
        CommitWrite(e, e.data, !isLive);
      }
      RotateIfFull();
    }

    /** Keep the id counter ahead of every applied id. */
    method RaiseIdSeq(id: nat)
      requires Valid()
      modifies `idSeq
      ensures Valid() && idSeq == if id > old(idSeq) then id else old(idSeq)
    {
      hide Core, Tracks, TotalBytes, HeldLive;
      if id > idSeq {
        CoreRaises(cfg.len, sealed + [active], log, index, idSeq, hist, view, id);
        idSeq := id;
      }
    }

    method CollectExpired(now: int) returns (ids: set<nat>)
      requires CoreOk()
      ensures ids == ExpiredIds(view, now) && ids <= view.Keys
    {
      hide Core, TotalBytes;
      CoreMirrors(cfg.len, sealed + [active], log, index, idSeq, hist, view);
      ids := set id | id in index && Expired(index[id].expiresAt, now);
    }

    /** reapExpired: tombstone every record whose deadline has passed. */
    method Reap(now: int) returns (ghost drops: seq<Entry>)
      requires Valid()
      modifies `sealed, `active, `index, `log, `hist, `view, `held, `size, sidx.Values
      ensures Valid() && TombstonesOf(drops, ExpiredIds(old(view), now), now)
      ensures Logged(drops, old(view) - ExpiredIds(old(view), now), DropAll(old(held), ExpiredIds(old(view), now)))
      ensures (sealed, active) == Landed(cfg, old(sealed), old(active), drops)
      ensures forall id | id in old(view) :: id in view <==> old(view)[id].expiresAt == 0 || now < old(view)[id].expiresAt
      ensures forall id | id in view :: id in old(view) && view[id] == old(view)[id]
    {
      hide Core, Bytes, TotalBytes, Tracks, HeldLive, ExpiredIds, Expired, DropAll, AllDeletes, Rotated, TombstonesOf;
      DueIds(view, now);
      var expired := CollectExpired(now);
      drops := TombstoneAll(expired, now);
      TombstonesDelete(drops, expired, now);
      if expired != {} {
        RotateIfFull();
      } else {
        LandedNone(cfg, old(sealed), old(active));
      }
    }

    method TombstoneAll(ids: set<nat>, now: int) returns (ghost drops: seq<Entry>)
      requires Valid() && ids <= view.Keys
      modifies `active, `index, `log, `hist, `view, `held, `size, sidx.Values
      ensures Valid() && TombstonesOf(drops, ids, now)
      ensures Logged(drops, old(view) - ids, DropAll(old(held), ids)) && active == Extended(old(active), drops)
    {
      hide Core, Bytes, TotalBytes, Tracks, HeldLive, Reaped, ReapedHeld, DropAll, DropHeld, Apply, TombstonesOf;
      NoTombstones(ids, now);
      LandedNone(cfg, sealed, active);
      ghost var log0, hist0, size0, view0, held0, active0 := log, hist, size, view, held, active;
      CoreIds(cfg.len, sealed + [active], log, index, idSeq, hist, view);
      drops := [];
      NoOps(cfg.len, view, held, []);
      ReapBounds(view, held, ids);
      var todo := ids;
      while todo != {}
        invariant Valid() && todo <= ids && TombstonesOf(drops, ids - todo, now)
        invariant log == log0 + drops && hist == hist0 + drops && size == size0 + Bytes(cfg.len, drops)
        invariant view == Reaped(view0, ids, todo) && held == ReapedHeld(held0, ids, todo)
        invariant active == Segment(active0.num, active0.entries + drops)
        decreases todo
      {
        var id :| id in todo;
        ReapStep(view0, ids, todo, id, now);
        ReapHeldStep(held0, ids, todo, id);
        CommitDelete(Tombstone(id, now));
        BytesConcat(cfg.len, drops, [Tombstone(id, now)]);
        OneTombstone(drops, ids, todo, id, now);
        Regroup(log0, drops, [Tombstone(id, now)]);
        Regroup(hist0, drops, [Tombstone(id, now)]);
        Regroup(active0.entries, drops, [Tombstone(id, now)]);
        drops := drops + [Tombstone(id, now)];
        todo := todo - {id};
      }
    }

    /** The end of a compaction pass: the compacted segments replace the sealed ones, and the
        primary index and every secondary index are rebuilt. */
    method InstallCompacted(cut: seq<Segment>, now: int, ghost out: seq<Entry>) returns (ghost drops: seq<Entry>)
      requires Valid() && Ascending(cut + [active])
      requires Survivors(out, Entries(sealed), now) && Resealed(out, Entries(cut))
      modifies `sealed, `index, `log, `hist, `view, `held, `size, sidx.Values
      ensures Valid() && sealed == cut && log == Entries(cut) + active.entries && view == Replay(log)
      ensures Compacted(old(view), view, ReclaimedIds(old(Entries(sealed)), active.entries, now))
      ensures out == Entries(cut) ==> view == old(view) - ReclaimedIds(old(Entries(sealed)), active.entries, now)
      ensures OnlyDueGone(old(view), view, active.entries, now)
      ensures AllDeletes(drops) && hist == old(hist) + drops
      ensures ReclaimedIds(old(Entries(sealed)), active.entries, now) == {} ==> drops == []
      ensures held == HeldOf(sidx.Keys, view)
    {
      hide Core, TotalBytes, Tracks, HeldLive, FieldVals, Survivors, Resealed, Entries, Ascending, Rebuild, Compacted,
           ReclaimedIds, Replay, HeldOf, OnlyDueGone;
      OwnFields(held);
      ghost var v := view;
      CoreView(cfg.len, sealed + [active], log, index, idSeq, hist, view);
      EntriesSnoc(sealed, active);
      ghost var past := Entries(sealed);
      drops := InstallSegments(cut, now, out);
      DueGone(past, active.entries, now, v, view);
      CoreView(cfg.len, sealed + [active], log, index, idSeq, hist, view);
      RebuildSidx(sealed + [active]);
      HeldOfLive(sidx.Keys, view);
    }

    method InstallSegments(cut: seq<Segment>, now: int, ghost out: seq<Entry>) returns (ghost drops: seq<Entry>)
      requires CoreOk() && Ascending(cut + [active])
      requires Survivors(out, Entries(sealed), now) && Resealed(out, Entries(cut))
      modifies `sealed, `index, `log, `hist, `view, `size
      ensures CoreOk() && sealed == cut && log == Entries(cut) + active.entries && view == Replay(log)
      ensures Compacted(old(view), view, ReclaimedIds(old(Entries(sealed)), active.entries, now))
      ensures out == Entries(cut) ==> view == old(view) - ReclaimedIds(old(Entries(sealed)), active.entries, now)
      ensures AllDeletes(drops) && hist == old(hist) + drops
      ensures ReclaimedIds(old(Entries(sealed)), active.entries, now) == {} ==> drops == []
    {
      hide Core, TotalBytes, Survivors, Resealed, Entries, Ascending, Rebuild, Compacted, ReclaimedIds, Replay;
      drops := CompactKeepsCore(cfg.len, sealed, active, log, index, idSeq, hist, view, out, cut, now);
      sealed := cut;
      index := RebuildIndex(cfg.len, sealed + [active]);
      log := Entries(cut) + active.entries;
      hist := hist + drops;
      view := Replay(log);
      size := TotalBytes(cfg.len, sealed, active);
    }

    /** Rebuild every secondary index from the segments as they read. */
    method RebuildSidx(segs: seq<Segment>)
      requires forall f | f in sidx :: sidx[f].field == f && sidx[f].fmt == cfg.fmt
      modifies `held, sidx.Values
      ensures held == HeldOf(sidx.Keys, Replay(Entries(segs))) && SidxOk(held)
    {
      hide FieldVals, Tracks, Entries, Replay;
      ghost var v := Replay(Entries(segs));
      var todo := sidx.Keys;
      while todo != {}
        invariant todo <= sidx.Keys
        invariant forall f | f in sidx && f !in todo :: Tracks(sidx[f], cfg.fmt, f, FieldVals(f, v))
        decreases todo
      {
        var f :| f in todo;
        todo := todo - {f};
        RebuildOne(sidx[f], segs);
      }
      held := HeldOf(sidx.Keys, v);
    }

    /** The same install as the code performs it when the new list is not one of the cases above:
        the sealed list is replaced and everything is rebuilt through the segments' paths, the
        active one's now reading `over`. If its own number is among the new ones, the numbers
        no longer ascend. */
    method InstallOver(cut: seq<Segment>, over: seq<Entry>)
      requires Valid()
      modifies `sealed, `active, `index, `view, `held, sidx.Values
      ensures sealed == cut && active == Segment(old(active).num, over)
      ensures (exists s | s in cut :: s.num == active.num) ==> !Ascending(sealed + [active])
      ensures index == Rebuild(AllLines(cfg.len, cut + [active]))
      ensures view == Replay(Entries(cut) + over) && held == HeldOf(sidx.Keys, view) && SidxOk(held)
    {
      hide Core, TotalBytes, Tracks, HeldLive, FieldVals, Entries, Replay, Rebuild, HeldOf;
      OwnFields(held);
      if exists s | s in cut :: s.num == active.num { NotAscending(cut, active.num, over); }
      EntriesSnoc(cut, Segment(active.num, over));
      sealed := cut;
      active := Segment(active.num, over);
      index := RebuildIndex(cfg.len, sealed + [active]);
      view := Replay(Entries(cut) + over);
      RebuildSidx(sealed + [active]);
    }

    /** Opening a collection whose index must be rebuilt. The persisted counter covers the
        sealed segments and the active one is scanned; without a counter every segment is. */
    constructor Open(cfg: Config, sealed: seq<Segment>, active: Segment, counter: Option<nat>)
      requires Ascending(sealed + [active]) && WellFormed(Entries(sealed + [active]))
      requires counter.Some? ==> IdsBelow(Entries(sealed), counter.value)
      ensures Valid() && this.cfg == cfg && this.sealed == sealed && this.active == active && sidx == map[] && held == map[]
      ensures published == []
      ensures log == Entries(sealed + [active]) && hist == log && view == Replay(log)
    {
      hide Core, TotalBytes, Entries, Replay, WellFormed, Ascending, IdsBelow, Rebuild, AllLines;
      this.cfg, this.sealed, this.active, this.sidx, published := cfg, sealed, active, map[], [];
      var floor := 0;
      if counter.Some? {
        floor := counter.value;
      } else {
        floor := MaxIdOf(sealed);
      }
      var maxId := MaxId(active.entries, floor);
      idSeq := maxId;
      var rebuilt := RebuildIndex(cfg.len, sealed + [active]);
      index := rebuilt;
      log := Entries(sealed + [active]);
      hist := Entries(sealed + [active]);
      view := Replay(Entries(sealed + [active]));
      held := map[];
      size := TotalBytes(cfg.len, sealed, active);
      OpenCore(cfg.len, sealed, active, floor, maxId);
    }

    /** Bring back every persisted secondary index under its unique flag, rebuilt. */
    method RestoreIndexes(indexes: map<string, bool>)
      requires Valid() && sidx == map[] && held == map[]
      modifies `sidx, `held
      ensures Valid() && fresh(sidx.Values) && held == HeldOf(indexes.Keys, view)
      ensures sidx.Keys == indexes.Keys && forall f | f in indexes :: sidx[f].unique == indexes[f]
    {
      hide Core, TotalBytes, Tracks, HeldLive, FieldVals, HeldOf, WithIndex;
      HeldOfAdd({}, "", view);
      var todo := indexes.Keys;
      ghost var done := {};
      while todo != {}
        invariant todo !! done && todo + done == indexes.Keys && Valid() && fresh(sidx.Values)
        invariant sidx.Keys == done && forall f | f in done :: sidx[f].unique == indexes[f]
        invariant held == HeldOf(done, view)
        decreases todo
      {
        var f :| f in todo;
        HeldOfAdd(done, f, view);
        var ok := EnsureIndex(f, indexes[f], false);
        todo, done := todo - {f}, done + {f};
      }
    }
  }

  /** load: open the segments and rebuild every persisted secondary index under its flag. */
  method OpenCollection(cfg: Config, sealed: seq<Segment>, active: Segment, counter: Option<nat>, indexes: map<string, bool>)
    returns (c: Collection)
    requires Ascending(sealed + [active]) && WellFormed(Entries(sealed + [active]))
    requires counter.Some? ==> IdsBelow(Entries(sealed), counter.value)
    ensures fresh(c) && c.Valid() && c.cfg == cfg && c.sealed == sealed && c.active == active
    ensures c.log == Entries(sealed + [active]) && c.view == Replay(c.log) && c.hist == c.log && c.published == []
    ensures c.sidx.Keys == indexes.Keys && forall f | f in indexes :: c.sidx[f].unique == indexes[f]
    ensures c.held == HeldOf(indexes.Keys, c.view)
  {
    hide Core, TotalBytes, Tracks, HeldLive, FieldVals, Entries, Replay, WellFormed, Ascending, IdsBelow, HeldOf;
    c := new Collection.Open(cfg, sealed, active, counter);
    c.RestoreIndexes(indexes);
  }
}
