/** What a write must satisfy before it is committed and what it then appends: uniqueness
    over live records, the quota, and the lines of inserts and updates. */
module Writes {
  import opened Common
  import opened Values
  import opened Log
  import opened SecondaryIndexes

  datatype Config = Config(fmt: NumFormat, len: LineLen, segmentMax: int, maxRecords: nat, maxBytes: nat)

  /** A record's data before and after sealing, with the policy epoch it was sealed under. A
      record that is not `sealable` is refused when it comes to sealing it. */
  datatype Doc = Doc(plain: Data, stored: Data, epoch: nat, sealable: bool := true)

  /** Sealing left these fields alone. */
  predicate Agrees(d: Doc, fields: set<string>) {
    forall f | f in fields :: SameField(d, f)
  }

  predicate SameField(d: Doc, f: string) {
    (f in d.plain <==> f in d.stored) && (f in d.plain ==> d.plain[f] == d.stored[f])
  }

  // ---- What the secondary indexes hold ------------------------------------------------

  /** Per indexed field, the value each id is filed under. Writes file plaintext values, a
      rebuild files stored ones. */
  type Held = map<string, map<nat, Value>>

  /** A field's indexed values once record `id` holds `data`. */
  function SetField(vals: map<nat, Value>, f: string, id: nat, data: Data): map<nat, Value> {
    if f in data then vals[id := data[f]] else vals - {id}
  }

  function PutHeld(h: Held, id: nat, data: Data): Held {
    map f | f in h :: SetField(h[f], f, id, data)
  }

  function DropHeld(h: Held, id: nat): Held {
    map f | f in h :: h[f] - {id}
  }

  /** What a rebuild of the given fields' indexes files. */
  function HeldOf(fields: set<string>, v: View): Held {
    map f | f in fields :: FieldVals(f, v)
  }

  /** The live indexes hold exactly what their rebuild would compute. */
  predicate Synced(h: Held, v: View) {
    h == HeldOf(h.Keys, v)
  }

  /** Only live records are filed. */
  predicate HeldLive(h: Held, v: View) {
    forall f | f in h :: h[f].Keys <= v.Keys
  }

  lemma PutLive(h: Held, v: View, e: Entry, plain: Data)
    requires HeldLive(h, v) && !e.op.Delete?
    ensures HeldLive(PutHeld(h, e.id, plain), Apply(v, e))
  {
    forall f | f in h ensures PutHeld(h, e.id, plain)[f].Keys <= Apply(v, e).Keys {
      assert h[f].Keys <= v.Keys;
    }
  }

  lemma DropLive(h: Held, v: View, e: Entry)
    requires HeldLive(h, v) && e.op.Delete?
    ensures HeldLive(DropHeld(h, e.id), Apply(v, e))
  {
    forall f | f in h ensures DropHeld(h, e.id)[f].Keys <= Apply(v, e).Keys {
      assert h[f].Keys <= v.Keys;
    }
  }

  lemma HeldOfLive(fields: set<string>, v: View)
    ensures HeldLive(HeldOf(fields, v), v) && Synced(HeldOf(fields, v), v)
  {
  }

  lemma SyncedMeans(h: Held, v: View)
    ensures Synced(h, v) <==> forall f | f in h :: h[f] == FieldVals(f, v)
  {
  }

  lemma FieldValsPut(f: string, v: View, e: Entry)
    requires !e.op.Delete?
    ensures FieldVals(f, Apply(v, e)) == SetField(FieldVals(f, v), f, e.id, e.data)
  {
  }

  lemma SameFieldIff(vals: map<nat, Value>, f: string, id: nat, d: Doc)
    ensures SetField(vals, f, id, d.plain) == SetField(vals, f, id, d.stored) <==> SameField(d, f)
  {
    var a, b := SetField(vals, f, id, d.plain), SetField(vals, f, id, d.stored);
    assert (id in a <==> f in d.plain) && (id in b <==> f in d.stored);
    assert f in d.plain ==> a[id] == d.plain[f];
    assert f in d.stored ==> b[id] == d.stored[f];
  }

  /** After a write the live indexes still hold what a rebuild computes if and only if sealing
      left every indexed field of the record alone. */
  lemma SyncedIff(h: Held, v: View, e: Entry, plain: Data)
    requires Synced(h, v) && !e.op.Delete?
    ensures Synced(PutHeld(h, e.id, plain), Apply(v, e)) <==> Agrees(Doc(plain, e.data, e.epoch), h.Keys)
  {
    hide Synced, FieldVals, SetField, SameField, Apply;
    var d, g, w := Doc(plain, e.data, e.epoch), PutHeld(h, e.id, plain), Apply(v, e);
    SyncedMeans(h, v);
    SyncedMeans(g, w);
    forall f | f in h ensures g[f] == FieldVals(f, w) <==> SameField(d, f) {
      FieldValsPut(f, v, e);
      SameFieldIff(h[f], f, e.id, d);
    }
  }

  lemma SyncedDrop(h: Held, v: View, e: Entry)
    requires Synced(h, v) && e.op.Delete?
    ensures Synced(DropHeld(h, e.id), Apply(v, e))
  {
    forall f | f in h ensures DropHeld(h, e.id)[f] == FieldVals(f, Apply(v, e)) {
      assert h[f] == FieldVals(f, v);
    }
  }

  /** The index on `f` is in order and holds the given values. */
  ghost predicate Tracks(s: SecondaryIndex, fmt: NumFormat, f: string, vals: map<nat, Value>)
    reads s
  {
    var ok := s.field == f && s.fmt == fmt && s.Valid() && s.vals == vals;
    ok
  }

  // ---- Uniqueness and quota -----------------------------------------------------------

  /** Some other record holds the key. */
  predicate Taken(fmt: RawFormat, vals: map<nat, Value>, key: string, id: nat) {
    exists other | other in vals :: other != id && Render(fmt, vals[other]) == key
  }

  /** Writing `data` to record `id` would repeat a value another live record is filed under on
      one of the unique fields. */
  predicate Clash(fmt: RawFormat, uniq: set<string>, h: Held, id: nat, data: Data) {
    exists f | f in uniq && f in h && f in data :: Taken(fmt, h[f], Render(fmt, data[f]), id)
  }

  /** A write clashes exactly when some other record is filed under the text of a unique value
      it carries. */
  lemma ClashIff(fmt: RawFormat, uniq: set<string>, h: Held, id: nat, data: Data)
    ensures Clash(fmt, uniq, h, id, data) <==>
            exists f, other | f in uniq && f in h && f in data && other in h[f] ::
              other != id && Render(fmt, h[f][other]) == Render(fmt, data[f])
  {
    hide Render;
    if Clash(fmt, uniq, h, id, data) {
      var f :| f in uniq && f in h && f in data && Taken(fmt, h[f], Render(fmt, data[f]), id);
      var other :| other in h[f] && other != id && Render(fmt, h[f][other]) == Render(fmt, data[f]);
    }
  }

  predicate OneEach(fmt: RawFormat, vals: map<nat, Value>) {
    forall a, b | a in vals && b in vals && a != b :: Render(fmt, vals[a]) != Render(fmt, vals[b])
  }

  /** No two live records are filed under one value of a unique field. */
  predicate UniqueHeld(fmt: RawFormat, uniq: set<string>, h: Held) {
    forall f | f in uniq && f in h :: OneEach(fmt, h[f])
  }

  lemma WriteKeepsUnique(fmt: RawFormat, uniq: set<string>, h: Held, id: nat, plain: Data)
    requires UniqueHeld(fmt, uniq, h) && !Clash(fmt, uniq, h, id, plain)
    ensures UniqueHeld(fmt, uniq, PutHeld(h, id, plain))
  {
    var g := PutHeld(h, id, plain);
    forall f | f in uniq && f in g ensures OneEach(fmt, g[f]) {
      assert OneEach(fmt, h[f]);
      assert f in plain ==> !Taken(fmt, h[f], Render(fmt, plain[f]), id);
    }
  }

  function SealedBytes(len: LineLen, segs: seq<Segment>, n: nat): nat
    requires n <= |segs|
  {
    if n == 0 then 0 else SealedBytes(len, segs, n - 1) + Bytes(len, segs[n - 1].entries)
  }

  function TotalBytes(len: LineLen, sealed: seq<Segment>, active: Segment): nat {
    SealedBytes(len, sealed, |sealed|) + Bytes(len, active.entries)
  }

  lemma {:induction false} SealedBytesPrefix(len: LineLen, segs: seq<Segment>, more: seq<Segment>, n: nat)
    requires n <= |segs| && segs <= more
    ensures SealedBytes(len, more, n) == SealedBytes(len, segs, n)
  {
    if n > 0 { SealedBytesPrefix(len, segs, more, n - 1); }
  }

  /** Rotation moves bytes, it does not add any. */
  lemma RotatedBytes(len: LineLen, sealed: seq<Segment>, active: Segment, num: nat)
    ensures TotalBytes(len, sealed + [active], Segment(num, [])) == TotalBytes(len, sealed, active)
  {
    SealedBytesPrefix(len, sealed, sealed + [active], |sealed|);
  }

  lemma AppendedBytes(len: LineLen, sealed: seq<Segment>, active: Segment, e: Entry)
    ensures TotalBytes(len, sealed, active.(entries := active.entries + [e])) == TotalBytes(len, sealed, active) + len(e)
  {
    assert (active.entries + [e])[..|active.entries|] == active.entries;
  }

  /** The quota leaves room for `records` more records of `bytes` bytes in all. */
  predicate WithinQuota(cfg: Config, count: nat, size: nat, records: nat, bytes: nat) {
    && (cfg.maxRecords > 0 ==> count + records <= cfg.maxRecords)
    && (cfg.maxBytes > 0 ==> size + bytes <= cfg.maxBytes)
  }

  /** entryQuotaBytes: what an entry will occupy, computed only under a byte quota. */
  function QuotaBytes(cfg: Config, e: Entry): nat {
    if cfg.maxBytes == 0 then 0 else cfg.len(e)
  }

  /** Why a write was refused. A compare-and-swap that finds no record or a false
      condition reports NotFound, and one that cannot decrypt the record Unreadable. */
  datatype Refusal = NotFound | Duplicate | QuotaExceeded | Reserved | Unsealable | Unreadable

  datatype Outcome = Done(id: nat) | Refused(why: Refusal)

  /** The line an insert appends. */
  function NewRecord(id: nat, ts: int, doc: Doc, exp: int): Entry {
    Entry(id, Op.Insert, ts, 1, doc.stored, doc.epoch, exp)
  }

  /** The line an update of the live record `cur` appends. */
  function Revised(id: nat, cur: Entry, ts: int, doc: Doc, exp: int): Entry {
    Entry(id, Op.Update, ts, cur.rev + 1, doc.stored, doc.epoch, exp)
  }

  /** Whether a new record is admitted, given the state before it. The quota is asked about
      the line as `measured`, which upserts take before sealing. */
  function Admitted(cfg: Config, uniq: set<string>, h: Held, count: nat, size: nat, measured: Entry, plain: Data): Outcome {
    if !WithinQuota(cfg, count, size, 1, QuotaBytes(cfg, measured)) then Refused(QuotaExceeded)
    else if Clash(cfg.fmt, uniq, h, measured.id, plain) then Refused(Duplicate)
    else Done(measured.id)
  }

  /** Whether an insert is admitted: it is sealed before anything is checked. */
  function InsertVerdict(cfg: Config, uniq: set<string>, h: Held, count: nat, size: nat, e: Entry, doc: Doc): Outcome {
    if !doc.sealable then Refused(Unsealable) else Admitted(cfg, uniq, h, count, size, e, doc.plain)
  }

  /** The answer to an insert in plain terms. */
  lemma InsertSays(cfg: Config, uniq: set<string>, h: Held, count: nat, size: nat, e: Entry, doc: Doc)
    ensures var r := InsertVerdict(cfg, uniq, h, count, size, e, doc);
            && (r.Done? <==> && doc.sealable && !Clash(cfg.fmt, uniq, h, e.id, doc.plain)
                             && (cfg.maxRecords == 0 || count < cfg.maxRecords)
                             && (cfg.maxBytes == 0 || size + cfg.len(e) <= cfg.maxBytes))
            && (r.Done? ==> r.id == e.id) && (r == Refused(Unsealable) <==> !doc.sealable)
  {
  }

  /** Whether an update is: it is sealed before the record is looked up. */
  function UpdateVerdict(fmt: RawFormat, uniq: set<string>, h: Held, v: View, id: nat, doc: Doc): Outcome {
    if !doc.sealable then Refused(Unsealable)
    else if id !in v then Refused(NotFound)
    else if Clash(fmt, uniq, h, id, doc.plain) then Refused(Duplicate)
    else Done(id)
  }

  /** Whether a keyed revision of a live record is: it is sealed last. */
  function ReviseVerdict(fmt: RawFormat, uniq: set<string>, h: Held, id: nat, doc: Doc): Outcome {
    if Clash(fmt, uniq, h, id, doc.plain) then Refused(Duplicate)
    else if !doc.sealable then Refused(Unsealable)
    else Done(id)
  }

  // ---- Where a write's lines land -----------------------------------------------------

  /** The active segment with these lines appended. */
  function Extended(active: Segment, es: seq<Entry>): Segment {
    Segment(active.num, active.entries + es)
  }

  /** A full active segment is sealed and one numbered past it opened. */
  function Rotated(cfg: Config, sealed: seq<Segment>, active: Segment): (seq<Segment>, Segment) {
    if Bytes(cfg.len, active.entries) >= cfg.segmentMax then (sealed + [active], Segment(active.num + 1, []))
    else (sealed, active)
  }

  /** The segments after lines were committed together: a rotation follows them if the active
      segment is full. A commit of nothing leaves it be. */
  function Landed(cfg: Config, sealed: seq<Segment>, active: Segment, es: seq<Entry>): (seq<Segment>, Segment) {
    if es == [] then (sealed, active) else Rotated(cfg, sealed, Extended(active, es))
  }

  /** The segment size limit: a commit leaves the active segment below it, and seals nothing
      while it is. */
  lemma LandedBelow(cfg: Config, sealed: seq<Segment>, active: Segment, es: seq<Entry>)
    requires es != []
    ensures var (s, a) := Landed(cfg, sealed, active, es);
            && (cfg.segmentMax > 0 ==> Bytes(cfg.len, a.entries) < cfg.segmentMax)
            && (Bytes(cfg.len, active.entries + es) < cfg.segmentMax ==>
                  s == sealed && a == Segment(active.num, active.entries + es))
            && (Bytes(cfg.len, active.entries + es) >= cfg.segmentMax ==>
                  s == sealed + [Segment(active.num, active.entries + es)] && a.num == active.num + 1 && a.entries == [])
  {
    assert Bytes(cfg.len, []) == 0;
  }

  /** What a write path keeps: one live record per value of a unique field, as the indexes
      file them, and the record limit. */
  ghost predicate Keeps(cfg: Config, uniq: set<string>, h: Held, h': Held, v: View, w: View) {
    && (UniqueHeld(cfg.fmt, uniq, h) ==> UniqueHeld(cfg.fmt, uniq, h'))
    && (cfg.maxRecords > 0 && |v| <= cfg.maxRecords ==> |w| <= cfg.maxRecords)
  }

  lemma NothingKept(cfg: Config, uniq: set<string>, h: Held, v: View)
    ensures Keeps(cfg, uniq, h, h, v, v)
  {
  }

  lemma InsertKeeps(cfg: Config, uniq: set<string>, h: Held, v: View, size: nat, measured: Entry, e: Entry, plain: Data)
    requires Admitted(cfg, uniq, h, |v|, size, measured, plain).Done? && e.id == measured.id && e.id !in v && !e.op.Delete?
    ensures Keeps(cfg, uniq, h, PutHeld(h, e.id, plain), v, Apply(v, e))
  {
    if UniqueHeld(cfg.fmt, uniq, h) { WriteKeepsUnique(cfg.fmt, uniq, h, e.id, plain); }
    assert Apply(v, e).Keys == v.Keys + {e.id};
    assert |Apply(v, e)| == |Apply(v, e).Keys| && |v| == |v.Keys|;
  }

  lemma UpdateKeeps(cfg: Config, uniq: set<string>, h: Held, v: View, e: Entry, plain: Data)
    requires !Clash(cfg.fmt, uniq, h, e.id, plain) && e.id in v && !e.op.Delete?
    ensures Keeps(cfg, uniq, h, PutHeld(h, e.id, plain), v, Apply(v, e))
  {
    if UniqueHeld(cfg.fmt, uniq, h) { WriteKeepsUnique(cfg.fmt, uniq, h, e.id, plain); }
    assert Apply(v, e).Keys == v.Keys;
    assert |Apply(v, e)| == |Apply(v, e).Keys| && |v| == |v.Keys|;
  }

  lemma DeleteKeeps(cfg: Config, uniq: set<string>, h: Held, v: View, id: nat)
    ensures Keeps(cfg, uniq, h, DropHeld(h, id), v, v - {id})
  {
    var w := v - {id};
    forall f | f in uniq && f in h ensures OneEach(cfg.fmt, h[f]) ==> OneEach(cfg.fmt, DropHeld(h, id)[f]) {
    }
    assert w.Keys <= v.Keys;
    SubsetSize(w.Keys, v.Keys);
    assert |w| == |w.Keys| && |v| == |v.Keys|;
  }
}
