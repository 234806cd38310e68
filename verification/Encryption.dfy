/** Transparent encryption of records: sealing under the write policy, reconstruction under
    the fixed read mode, re-encryption, and what queries may see. Ciphertext is symbolic: an
    envelope remembers the key, the bound context and the plaintext it was sealed from. */
module Encryption {
  import opened Common
  import opened Values
  import opened Log
  import opened Writes
  import opened Collections

  /** The reserved field of a record-level blob, and the reserved marker of an envelope. */
  const SECURE := "secure_data"
  const MARKER := "\0scrivaenc"

  datatype Mode = Fields | Record

  /** A write policy. `Off` is encryption disabled: nothing is sealed. */
  datatype Policy = Off | OnFields(fields: set<string>) | OnRecord(index: set<string>)

  /** EncryptionPolicy.validate; a disabled policy is not given through it. */
  predicate ValidPolicy(p: Policy) {
    match p
    case Off => false
    case OnFields(fields) => fields != {} && KEY !in fields && SECURE !in fields
    case OnRecord(index) => SECURE !in index
  }

  function ModeOf(p: Policy): Mode
    requires !p.Off?
  {
    if p.OnFields? then Fields else Record
  }

  datatype Encryptor = Encryptor(name: string, readMode: Mode, policy: Policy, epoch: nat)

  /** The write policy is disabled, or valid and of the read mode. */
  predicate Proper(e: Encryptor) {
    e.policy.Off? || (ValidPolicy(e.policy) && ModeOf(e.policy) == e.readMode)
  }

  /** The key provider: the keys it resolves by id, and the current one. */
  datatype Keys = Keys(ring: map<string, nat>, current: string)

  predicate Usable(k: Keys) { k.current in k.ring }

  /** Every key `a` resolves, `b` resolves to the same. */
  predicate StillResolves(a: Keys, b: Keys) {
    forall id | id in a.ring :: id in b.ring && b.ring[id] == a.ring[id]
  }

  // ---- Envelopes -----------------------------------------------------------------------------

  function Aad(name: string, field: string): string {
    name + ['\U{1F}'] + field
  }

  /** crypto.HasReservedPrefix on a string value. */
  predicate Reserved(v: Value) {
    v.Envelope? || (v.Str? && MARKER <= v.s)
  }

  /** crypto.IsEncrypted: the marker and its delimiter. */
  predicate IsEncrypted(v: Value) {
    v.Envelope? || (v.Str? && MARKER + ":" <= v.s)
  }

  function Sealed(e: Encryptor, k: Keys, field: string, body: Body, text: string): Value
    requires Usable(k)
  {
    Envelope(text, k.current, k.ring[k.current], Aad(e.name, field), body)
  }

  /** crypto.DecryptWith: the key is resolved by id, and key and context must be the ones
      the value was sealed with. A forged marker string never opens. */
  function Opened(e: Encryptor, k: Keys, field: string, v: Value): Option<Body> {
    if v.Envelope? && v.keyId in k.ring && k.ring[v.keyId] == v.key && v.aad == Aad(e.name, field) then Some(v.body) else None
  }

  /** A blob moved to another field does not open there. */
  lemma NotRelocatable(e: Encryptor, k: Keys, f: string, g: string, body: Body, text: string)
    requires Usable(k) && f != g
    ensures Opened(e, k, f, Sealed(e, k, f, body, text)) == Some(body)
    ensures Opened(e, k, g, Sealed(e, k, f, body, text)).None?
  {
    var n := |e.name| + 1;
    assert Aad(e.name, f)[n..] == f && Aad(e.name, g)[n..] == g;
  }

  /** It opens exactly where its own key is still resolved by its id. */
  lemma OpensIff(e: Encryptor, k: Keys, k': Keys, f: string, g: string, body: Body, text: string)
    requires Usable(k)
    ensures Opened(e, k', g, Sealed(e, k, f, body, text)) ==
            if f == g && k.current in k'.ring && k'.ring[k.current] == k.ring[k.current] then Some(body) else None
  {
    if f != g { NotRelocatable(e, k, f, g, body, text); }
  }

  /** maybeDecryptValue */
  function Decrypted(e: Encryptor, k: Keys, field: string, v: Value): Option<Value> {
    if !IsEncrypted(v) then Some(v) else
    match Opened(e, k, field, v)
    case None => None
    case Some(One(x)) => Some(x)
    case Some(Many(_)) => Some(Other("map"))
  }

  /** decryptBlob: an absent or plaintext blob is an empty field map. */
  function Blob(e: Encryptor, k: Keys, stored: Data): Option<Data> {
    if SECURE !in stored || !IsEncrypted(stored[SECURE]) then Some(map[]) else
    match Opened(e, k, SECURE, stored[SECURE])
    case None => None
    case Some(One(_)) => None
    case Some(Many(m)) => Some(m)
  }

  // ---- Sealing -------------------------------------------------------------------------------

  predicate NoMarkers(data: Data) {
    forall f | f in data :: !Reserved(data[f])
  }

  function SealFields(e: Encryptor, k: Keys, data: Data, fields: set<string>, text: string -> string): Data
    requires Usable(k)
  {
    map f | f in data :: if f in fields then Sealed(e, k, f, One(data[f]), text(f)) else data[f]
  }

  /** The fields record mode leaves in the clear, and those it seals. */
  function Columns(data: Data, index: set<string>): Data {
    map f | f in data && (f == KEY || f in index) :: data[f]
  }

  function Rest(data: Data, index: set<string>): Data {
    map f | f in data && f != KEY && f !in index :: data[f]
  }

  function SealRecord(e: Encryptor, k: Keys, data: Data, index: set<string>, text: string -> string): Data
    requires Usable(k)
  {
    Columns(data, index)[SECURE := Sealed(e, k, SECURE, Many(Rest(data, index)), text(SECURE))]
  }

  /** What encrypt stores, or nothing when it refuses a value that carries the marker or, in
      record mode, the reserved field. `text` gives the ciphertext of each sealed field. */
  function Stored(e: Encryptor, k: Keys, data: Data, text: string -> string): Option<Data>
    requires Usable(k)
  {
    if !NoMarkers(data) then None else
    match e.policy
    case Off => Some(data)
    case OnFields(fields) => Some(SealFields(e, k, data, fields, text))
    case OnRecord(index) => if SECURE in data then None else Some(SealRecord(e, k, data, index, text))
  }

  method Encrypt(e: Encryptor, k: Keys, data: Data, text: string -> string) returns (r: Option<Data>)
    requires Usable(k)
    ensures r == Stored(e, k, data, text)
  {
    var marked := AnyMarked(data);
    if marked {
      return None;
    }
    match e.policy {
      case Off => r := Some(data);
      case OnFields(fields) =>
        var out := EncryptFields(e, k, data, fields, text);
        r := Some(out);
      case OnRecord(index) =>
        if SECURE in data {
          return None;
        }
        var out, rest := SplitRecord(data, index);
        r := Some(out[SECURE := Sealed(e, k, SECURE, Many(rest), text(SECURE))]);
    }
  }

  method AnyMarked(data: Data) returns (found: bool)
    ensures found <==> !NoMarkers(data)
  {
    var todo := data.Keys;
    while todo != {}
      invariant todo <= data.Keys && forall f | f in data && f !in todo :: !Reserved(data[f])
      decreases todo
    {
      var f :| f in todo;
      todo := todo - {f};
      if Reserved(data[f]) {
        return true;
      }
    }
    found := false;
  }

  method EncryptFields(e: Encryptor, k: Keys, data: Data, fields: set<string>, text: string -> string) returns (out: Data)
    requires Usable(k)
    ensures out == SealFields(e, k, data, fields, text)
  {
    out := data;
    var todo := fields;
    while todo != {}
      invariant todo <= fields && out.Keys == data.Keys
      invariant forall f | f in data ::
          out[f] == if f in fields && f !in todo then Sealed(e, k, f, One(data[f]), text(f)) else data[f]
      decreases todo
    {
      var f :| f in todo;
      todo := todo - {f};
      if f in data {
        out := out[f := Sealed(e, k, f, One(data[f]), text(f))];
      }
    }
  }

  method SplitRecord(data: Data, index: set<string>) returns (out: Data, rest: Data)
    ensures out == Columns(data, index) && rest == Rest(data, index)
  {
    out, rest := map[], map[];
    var todo := data.Keys;
    while todo != {}
      invariant todo <= data.Keys
      invariant out == map f | f in data && f !in todo && (f == KEY || f in index) :: data[f]
      invariant rest == map f | f in data && f !in todo && f != KEY && f !in index :: data[f]
      decreases todo
    {
      var f :| f in todo;
      todo := todo - {f};
      if f == KEY || f in index {
        out := out[f := data[f]];
      } else {
        rest := rest[f := data[f]];
      }
    }
  }

  /** An envelope under the current key. */
  predicate UnderKey(k: Keys, v: Value) {
    v.Envelope? && v.keyId == k.current && k.current in k.ring && v.key == k.ring[k.current]
  }

  /** The stored form is what the policy asks for: every value to be sealed is an envelope under
      the current key, and every other one is in the clear. */
  predicate SealedNow(e: Encryptor, k: Keys, stored: Data) {
    match e.policy
    case Off => forall f | f in stored :: !stored[f].Envelope?
    case OnFields(fields) => forall f | f in stored :: if f in fields then UnderKey(k, stored[f]) else !stored[f].Envelope?
    case OnRecord(index) =>
      && SECURE in stored && UnderKey(k, stored[SECURE])
      && forall f | f in stored && f != SECURE :: (f == KEY || f in index) && !stored[f].Envelope?
  }

  lemma StoredNow(e: Encryptor, k: Keys, data: Data, text: string -> string)
    requires Usable(k) && Stored(e, k, data, text).Some?
    ensures SealedNow(e, k, Stored(e, k, data, text).value)
  {
    assert forall f | f in data :: !data[f].Envelope? by {
      forall f | f in data ensures !data[f].Envelope? { assert !Reserved(data[f]); }
    }
  }

  // ---- Reconstruction ------------------------------------------------------------------------

  predicate AllOpen(e: Encryptor, k: Keys, stored: Data) {
    forall f | f in stored :: Decrypted(e, k, f, stored[f]).Some?
  }

  /** materialize without a projection: the whole plaintext record, or nothing if a blob
      cannot be opened. */
  function Plain(e: Encryptor, k: Keys, stored: Data): Option<Data> {
    match e.readMode
    case Fields =>
      if AllOpen(e, k, stored) then Some(map f | f in stored :: Decrypted(e, k, f, stored[f]).value) else None
    case Record =>
      var blob := Blob(e, k, stored);
      if blob.None? then None else Some((stored - {SECURE}) + blob.value)
  }

  /** reencrypt: the stored form under the current policy and key. */
  function Reencrypted(e: Encryptor, k: Keys, stored: Data, text: string -> string): Option<Data>
    requires Usable(k)
  {
    var p := Plain(e, k, stored);
    if p.None? then None else Stored(e, k, p.value, text)
  }

  /** A record the engine can store under read mode `m` whatever the policy: no value carries
      the marker, and record mode's reserved field is not used. */
  predicate Clean(m: Mode, data: Data) {
    NoMarkers(data) && (m.Record? ==> SECURE !in data)
  }

  lemma SealFieldsOpens(e: Encryptor, k: Keys, data: Data, fields: set<string>, text: string -> string)
    requires Usable(k) && NoMarkers(data) && e.readMode.Fields?
    ensures Plain(e, k, SealFields(e, k, data, fields, text)) == Some(data)
  {
    var s := SealFields(e, k, data, fields, text);
    forall f | f in s ensures Decrypted(e, k, f, s[f]) == Some(data[f]) {
    }
    assert Plain(e, k, s).value == data;
  }

  lemma SealRecordOpens(e: Encryptor, k: Keys, data: Data, index: set<string>, text: string -> string)
    requires Usable(k) && SECURE !in data && e.readMode.Record?
    ensures Plain(e, k, SealRecord(e, k, data, index, text)) == Some(data)
  {
    var s := SealRecord(e, k, data, index, text);
    assert s - {SECURE} == Columns(data, index);
    assert Columns(data, index) + Rest(data, index) == data;
  }

  lemma ClearReads(e: Encryptor, k: Keys, data: Data)
    requires Clean(e.readMode, data)
    ensures Plain(e, k, data) == Some(data)
  {
    forall f | f in data ensures !IsEncrypted(data[f]) {
    }
    assert e.readMode.Record? ==> (data - {SECURE}) + map[] == data;
    assert Plain(e, k, data).value == data;
  }

  /** Whatever the policy, a clean record is accepted and reads back as written. */
  lemma SealOpens(e: Encryptor, k: Keys, data: Data, text: string -> string)
    requires Usable(k) && Proper(e) && Clean(e.readMode, data)
    ensures Stored(e, k, data, text).Some? && Plain(e, k, Stored(e, k, data, text).value) == Some(data)
  {
    match e.policy
    case Off => ClearReads(e, k, data);
    case OnFields(fields) => SealFieldsOpens(e, k, data, fields, text);
    case OnRecord(index) => SealRecordOpens(e, k, data, index, text);
  }

  /** Reading needs only the name, the read mode and the keys: policy and epoch may change,
      and keys may be added. */
  lemma ReadsSurvive(e: Encryptor, k: Keys, e': Encryptor, k': Keys, stored: Data)
    requires e.name == e'.name && e.readMode == e'.readMode && StillResolves(k, k')
    requires Plain(e, k, stored).Some?
    ensures Plain(e', k', stored) == Plain(e, k, stored)
  {
    if e.readMode.Fields? {
      forall f | f in stored ensures Decrypted(e', k', f, stored[f]) == Decrypted(e, k, f, stored[f]) {
        assert Decrypted(e, k, f, stored[f]).Some?;
      }
      assert Plain(e', k', stored).value == Plain(e, k, stored).value;
    }
  }

  // ---- The round trip over a policy history ----------------------------------------------

  /** A stretch of the collection's life: its encryptor and keys, and whether the record is
      re-encrypted in it. */
  datatype Era = Era(e: Encryptor, keys: Keys, text: string -> string, reseal: bool)

  /** One read mode throughout, usable keys, and no key retired. */
  predicate History(eras: seq<Era>) {
    && (forall i | 0 <= i < |eras| :: Usable(eras[i].keys) && Proper(eras[i].e))
    && (forall i | 0 < i < |eras| :: Follows(eras[i - 1], eras[i]))
  }

  predicate Follows(a: Era, b: Era) {
    a.e.name == b.e.name && a.e.readMode == b.e.readMode && StillResolves(a.keys, b.keys)
  }

  /** The stored form after era n of a record written in era 0. */
  function After(eras: seq<Era>, n: nat, data: Data): Option<Data>
    requires n < |eras| && History(eras)
  {
    if n == 0 then Stored(eras[0].e, eras[0].keys, data, eras[0].text) else
    var prev := After(eras, n - 1, data);
    if prev.None? || !eras[n].reseal then prev
    else Reencrypted(eras[n].e, eras[n].keys, prev.value, eras[n].text)
  }

  lemma {:induction false} SameMode(eras: seq<Era>, n: nat)
    requires n < |eras| && History(eras)
    ensures eras[n].e.readMode == eras[0].e.readMode
  {
    if n > 0 {
      SameMode(eras, n - 1);
      assert Follows(eras[n - 1], eras[n]);
    }
  }

  /** The round trip: a clean record, written under any policy of the history and
      re-encrypted in any of the later eras, reads back as the original data. */
  lemma {:induction false} RoundTrip(eras: seq<Era>, n: nat, data: Data)
    requires n < |eras| && History(eras) && Clean(eras[0].e.readMode, data)
    ensures After(eras, n, data).Some?
    ensures Plain(eras[n].e, eras[n].keys, After(eras, n, data).value) == Some(data)
  {
    hide Plain, Stored, Clean;
    SameMode(eras, n);
    if n == 0 {
      SealOpens(eras[0].e, eras[0].keys, data, eras[0].text);
    } else {
      RoundTrip(eras, n - 1, data);
      var prev := After(eras, n - 1, data).value;
      assert Follows(eras[n - 1], eras[n]);
      ReadsSurvive(eras[n - 1].e, eras[n - 1].keys, eras[n].e, eras[n].keys, prev);
      SealOpens(eras[n].e, eras[n].keys, data, eras[n].text);
    }
  }

  /** An accepted write reads back exactly unless encryption is disabled on a record-mode
      collection and the record uses the reserved field: disabled writes do not refuse it,
      and record-mode reads drop it. */
  lemma ReadsBackIff(e: Encryptor, k: Keys, data: Data, text: string -> string)
    requires Usable(k) && Proper(e) && Stored(e, k, data, text).Some?
    ensures Plain(e, k, Stored(e, k, data, text).value) == Some(data) <==>
            !(e.readMode.Record? && e.policy.Off? && SECURE in data)
  {
    if e.readMode.Record? && e.policy.Off? && SECURE in data {
      assert SECURE !in (data - {SECURE}) + map[];
    } else {
      SealOpens(e, k, data, text);
    }
  }

  /** The family is not empty: a disabled record-mode collection forgets a field. */
  lemma FieldForgotten(e: Encryptor, k: Keys, text: string -> string)
    requires Usable(k) && e.readMode.Record? && e.policy.Off?
    ensures var data: Data := map[SECURE := Num(1)];
            Stored(e, k, data, text) == Some(data) && Plain(e, k, data) == Some(map[])
  {
  }

  /** A record written before encryption was ever configured is stored unchecked. Once
      encryption is on it reads back exactly when no value carries an envelope's marker, in
      fields mode, or when it does not use the reserved field, in record mode. */
  lemma LegacyReadsIff(e: Encryptor, k: Keys, data: Data)
    ensures Plain(e, k, data) == Some(data) <==>
            if e.readMode.Fields? then forall f | f in data :: !IsEncrypted(data[f]) else SECURE !in data
  {
    if e.readMode.Fields? {
      if forall f | f in data :: !IsEncrypted(data[f]) {
        assert Plain(e, k, data).value == data;
      } else {
        var f :| f in data && IsEncrypted(data[f]);
        assert Plain(e, k, data).Some? ==> Plain(e, k, data).value[f] != data[f];
      }
    } else {
      assert (data - {SECURE}) + map[] == data - {SECURE};
      assert SECURE !in data ==> data - {SECURE} == data;
      var blob := Blob(e, k, data);
      if SECURE in data && blob.Some? {
        assert SECURE in blob.value ==> blob.value[SECURE] != data[SECURE];
        var full := (data - {SECURE}) + blob.value;
        assert SECURE in full ==> full[SECURE] == blob.value[SECURE];
      }
    }
  }

  /** Neither case is empty: a field of that name is dropped, a marked string does not open. */
  lemma LegacyLost(e: Encryptor, k: Keys)
    ensures e.readMode.Record? ==> Plain(e, k, map[SECURE := Num(1)]) == Some(map[])
    ensures e.readMode.Fields? ==> Plain(e, k, map["a" := Str(MARKER + ":x")]).None?
  {
    var data: Data := map["a" := Str(MARKER + ":x")];
    assert "a" in data && MARKER + ":" <= data["a"].s && Decrypted(e, k, "a", data["a"]).None?;
  }

  // ---- Projections ---------------------------------------------------------------------------

  /** ProjectData: the named fields that exist, and always the key. */
  function Project(data: Data, fields: set<string>): Data {
    map f | f in data && (f in fields || f == KEY) :: data[f]
  }

  /** A requested field of a record-mode record that is not stored as a column. */
  predicate NeedsBlob(stored: Data, fields: set<string>) {
    exists f | f in fields :: f != KEY && !(f in stored && f != SECURE)
  }

  /** materialize with a non-empty projection. */
  function PlainOf(e: Encryptor, k: Keys, stored: Data, fields: set<string>): Option<Data> {
    match e.readMode
    case Fields =>
      if exists f | f in fields && f in stored :: Decrypted(e, k, f, stored[f]).None? then None
      else Some(map f | f in stored && (f in fields || f == KEY) ::
                if f == KEY then stored[f] else Decrypted(e, k, f, stored[f]).value)
    case Record =>
      var columns := map f | f in stored && (f == KEY || (f in fields && f != SECURE)) :: stored[f];
      if !NeedsBlob(stored, fields) then Some(columns) else
      var blob := Blob(e, k, stored);
      if blob.None? then None
      else Some((map f | f in blob.value && f in fields && f != KEY :: blob.value[f]) + columns)
  }

  /** What every record written through the engine satisfies: the key is in the clear, and
      the blob repeats no column. */
  predicate WellStored(e: Encryptor, k: Keys, stored: Data) {
    && (KEY in stored ==> !IsEncrypted(stored[KEY]))
    && (e.readMode.Record? ==> var blob := Blob(e, k, stored);
                               blob.Some? ==> forall f | f in blob.value :: f != KEY && (f !in stored || f == SECURE))
  }

  lemma StoredWell(e: Encryptor, k: Keys, data: Data, text: string -> string)
    requires Usable(k) && Proper(e) && Stored(e, k, data, text).Some?
    ensures WellStored(e, k, Stored(e, k, data, text).value)
  {
  }

  /** Lazy reads: materializing a projection is projecting the full materialization. */
  lemma LazyIsFull(e: Encryptor, k: Keys, stored: Data, fields: set<string>)
    requires WellStored(e, k, stored) && Plain(e, k, stored).Some?
    ensures PlainOf(e, k, stored, fields) == Some(Project(Plain(e, k, stored).value, fields))
  {
    var full := Plain(e, k, stored).value;
    match e.readMode
    case Fields =>
      assert PlainOf(e, k, stored, fields).value == Project(full, fields);
    case Record =>
      LazyRecord(e, k, stored, fields);
  }

  lemma LazyRecord(e: Encryptor, k: Keys, stored: Data, fields: set<string>)
    requires e.readMode.Record? && WellStored(e, k, stored) && Plain(e, k, stored).Some?
    ensures PlainOf(e, k, stored, fields) == Some(Project(Plain(e, k, stored).value, fields))
  {
    var blob := Blob(e, k, stored).value;
    var full := Plain(e, k, stored).value;
    var got := PlainOf(e, k, stored, fields).value;
    forall f ensures f in got <==> f in Project(full, fields) {
      if f in blob && f in fields && f != KEY {
        assert !(f in stored && f != SECURE);
        assert NeedsBlob(stored, fields);
      }
    }
    forall f | f in got ensures got[f] == Project(full, fields)[f] {
    }
    assert got == Project(full, fields);
  }

  /** No key is needed when every requested field is stored in the clear. */
  lemma ClearNeedsNoKey(e: Encryptor, k: Keys, k': Keys, stored: Data, fields: set<string>)
    requires forall f | f in fields && f != KEY :: f in stored && !IsEncrypted(stored[f]) && f != SECURE
    requires KEY in stored ==> !IsEncrypted(stored[KEY])
    ensures PlainOf(e, k, stored, fields).Some? && PlainOf(e, k', stored, fields) == PlainOf(e, k, stored, fields)
  {
    if e.readMode.Fields? {
      forall f | f in fields && f in stored
          ensures Decrypted(e, k, f, stored[f]) == Decrypted(e, k', f, stored[f]) == Some(stored[f]) {
      }
      assert PlainOf(e, k', stored, fields).value == PlainOf(e, k, stored, fields).value;
    }
  }

  /** materialize: the whole record, decrypted value by value or merged from the blob. */
  method Materialize(e: Encryptor, k: Keys, stored: Data) returns (r: Option<Data>)
    ensures r == Plain(e, k, stored)
  {
    if e.readMode.Record? {
      var blob := Blob(e, k, stored);
      if blob.None? {
        return None;
      }
      var out := stored - {SECURE};
      var todo := blob.value.Keys;
      while todo != {}
        invariant todo <= blob.value.Keys
        invariant out == (stored - {SECURE}) + (map f | f in blob.value && f !in todo :: blob.value[f])
        decreases todo
      {
        var f :| f in todo;
        todo := todo - {f};
        out := out[f := blob.value[f]];
      }
      assert (map f | f in blob.value && f !in todo :: blob.value[f]) == blob.value;
      return Some(out);
    }
    r := MaterializeFields(e, k, stored, stored.Keys);
    assert r.Some? ==> r.value == Plain(e, k, stored).value;
  }

  /** The loop both forms of materializeFields share. */
  method MaterializeFields(e: Encryptor, k: Keys, stored: Data, fields: set<string>) returns (r: Option<Data>)
    ensures r.None? <==> exists f | f in fields && f in stored :: Decrypted(e, k, f, stored[f]).None?
    ensures r.Some? ==> r.value == map f | f in stored && f in fields :: Decrypted(e, k, f, stored[f]).value
  {
    var out: Data := map[];
    var todo := fields;
    while todo != {}
      invariant todo <= fields
      invariant forall f | f in fields && f !in todo && f in stored :: Decrypted(e, k, f, stored[f]).Some?
      invariant out == map f | f in stored && f in fields && f !in todo :: Decrypted(e, k, f, stored[f]).value
      decreases todo
    {
      var f :| f in todo;
      todo := todo - {f};
      if f in stored {
        var v := Decrypted(e, k, f, stored[f]);
        if v.None? {
          return None;
        }
        out := out[f := v.value];
      }
    }
    r := Some(out);
  }

  /** materialize with a projection: only the fields asked for are opened, and the blob only
      when one of them is not a column. */
  method MaterializeSome(e: Encryptor, k: Keys, stored: Data, fields: set<string>) returns (r: Option<Data>)
    ensures r == PlainOf(e, k, stored, fields)
  {
    hide Decrypted, Blob;
    if e.readMode.Fields? {
      r := MaterializeFields(e, k, stored, fields);
      if r.Some? {
        if KEY in stored {
          r := Some(r.value[KEY := stored[KEY]]);
        }
        assert r.value == PlainOf(e, k, stored, fields).value;
      }
      return;
    }
    var out, needBlob := PickColumns(stored, fields);
    if needBlob {
      var blob := Blob(e, k, stored);
      if blob.None? {
        return None;
      }
      out := FillFromBlob(blob.value, fields, out);
    }
    r := Some(out);
  }

  method PickColumns(stored: Data, fields: set<string>) returns (out: Data, needBlob: bool)
    ensures out == map f | f in stored && (f == KEY || (f in fields && f != SECURE)) :: stored[f]
    ensures needBlob <==> NeedsBlob(stored, fields)
  {
    out, needBlob := map[], false;
    var todo := fields - {KEY};
    while todo != {}
      invariant todo <= fields - {KEY}
      invariant out == map f | f in stored && f in fields && f !in todo && f != KEY && f != SECURE :: stored[f]
      invariant needBlob <==> exists f | f in fields && f !in todo :: f != KEY && !(f in stored && f != SECURE)
      decreases todo
    {
      var f :| f in todo;
      ghost var before := todo;
      todo := todo - {f};
      assert forall g :: g in fields && g !in todo <==> (g in fields && g !in before) || g == f;
      if f in stored && f != SECURE {
        out := out[f := stored[f]];
      } else {
        needBlob := true;
      }
    }
    if KEY in stored {
      out := out[KEY := stored[KEY]];
    }
  }

  method FillFromBlob(blob: Data, fields: set<string>, columns: Data) returns (out: Data)
    ensures out == (map f | f in blob && f in fields && f != KEY :: blob[f]) + columns
  {
    out := columns;
    var todo := fields - {KEY};
    while todo != {}
      invariant todo <= fields - {KEY}
      invariant out == (map f | f in blob && f in fields && f !in todo && f != KEY :: blob[f]) + columns
      decreases todo
    {
      var f :| f in todo;
      todo := todo - {f};
      if f !in out && f in blob {
        out := out[f := blob[f]];
      }
    }
  }

  // ---- Queries -----------------------------------------------------------------------------

  predicate IsEncryptedField(e: Encryptor, f: string) {
    match e.policy
    case Off => false
    case OnFields(fields) => f in fields
    case OnRecord(index) => f != KEY && f !in index
  }

  /** checkFilterFields finds nothing to reject. */
  predicate Accepts(e: Encryptor, flt: Filter)
    decreases flt
  {
    match flt
    case MatchAll => true
    case FieldTest(f, _, _) => !IsEncryptedField(e, f)
    case And(subs) => forall i | 0 <= i < |subs| :: Accepts(e, subs[i])
    case Or(subs) => forall i | 0 <= i < |subs| :: Accepts(e, subs[i])
  }

  /** On every field that is not encrypted the stored form is the plaintext. */
  lemma ClearFieldsAgree(e: Encryptor, k: Keys, data: Data, text: string -> string, f: string)
    requires Usable(k) && Proper(e) && Stored(e, k, data, text).Some? && !IsEncryptedField(e, f)
    ensures var s := Stored(e, k, data, text).value;
            (f in s <==> f in data) && (f in data ==> s[f] == data[f])
  {
  }

  /** An accepted filter sees the same on disk as in plaintext. */
  lemma {:induction false} FilterOnStored(fmt: RawFormat, e: Encryptor, k: Keys, data: Data, text: string -> string,
                                          flt: Filter)
    requires Usable(k) && Proper(e) && Stored(e, k, data, text).Some? && Accepts(e, flt)
    ensures Match(fmt, flt, Stored(e, k, data, text).value) <==> Match(fmt, flt, data)
    decreases flt
  {
    hide Stored, Holds;
    match flt
    case MatchAll =>
    case FieldTest(f, op, w) => ClearFieldsAgree(e, k, data, text, f);
    case And(subs) =>
      forall i | 0 <= i < |subs| ensures Match(fmt, subs[i], Stored(e, k, data, text).value) <==> Match(fmt, subs[i], data) {
        FilterOnStored(fmt, e, k, data, text, subs[i]);
      }
    case Or(subs) =>
      forall i | 0 <= i < |subs| ensures Match(fmt, subs[i], Stored(e, k, data, text).value) <==> Match(fmt, subs[i], data) {
        FilterOnStored(fmt, e, k, data, text, subs[i]);
      }
  }

  /** Sealing the record changes what field f holds: the policy encrypts the field and the
      record has it, or the field is the one record mode keeps its blob in. */
  predicate SealsField(e: Encryptor, data: Data, f: string) {
    IsEncryptedField(e, f) && (f in data || (e.policy.OnRecord? && f == SECURE))
  }

  lemma SealedDiffers(e: Encryptor, k: Keys, data: Data, text: string -> string, f: string)
    requires Usable(k) && Proper(e) && Stored(e, k, data, text).Some?
    ensures SameField(Doc(data, Stored(e, k, data, text).value, e.epoch), f) <==> !SealsField(e, data, f)
  {
    if f in data { assert !Reserved(data[f]); }
  }

  /** The policy is set without a look at the indexes, so it may seal an indexed field. After a
      write the live indexes hold what a rebuild computes if and only if the policy seals no
      indexed field of the record. */
  lemma LiveIsRebuiltIff(e: Encryptor, k: Keys, text: string -> string, h: Held, v: View, x: Entry, data: Data)
    requires Usable(k) && Proper(e) && Stored(e, k, data, text) == Some(x.data) && x.epoch == e.epoch && !x.op.Delete?
    requires Synced(h, v)
    ensures Synced(PutHeld(h, x.id, data), Apply(v, x)) <==> forall f | f in h :: !SealsField(e, data, f)
  {
    hide Stored, Synced, SealsField, SameField, Apply, PutHeld;
    SyncedIff(h, v, x, data);
    var d := Doc(data, x.data, x.epoch);
    forall f | f in h ensures SameField(d, f) <==> !SealsField(e, data, f) {
      SealedDiffers(e, k, data, text, f);
    }
  }

  /** A unique index on a field that is encrypted later: the live index still refuses the
      value, the rebuilt one, which files ciphertext, accepts it. */
  lemma UniqueForgotten(fmt: RawFormat, k: Keys, text: string -> string)
    requires Usable(k) && text("email") != "x"
    ensures var e := Encryptor("c", Fields, OnFields({"email"}), 1);
            var data: Data := map["email" := Str("x")];
            && Proper(e) && Stored(e, k, data, text).Some?
            && var sealed := Stored(e, k, data, text).value;
            && Clash(fmt, {"email"}, map["email" := map[1 := data["email"]]], 2, data)
            && "email" in sealed && !Clash(fmt, {"email"}, map["email" := map[1 := sealed["email"]]], 2, data)
  {
    var e := Encryptor("c", Fields, OnFields({"email"}), 1);
    var data: Data := map["email" := Str("x")];
    var sealed := Stored(e, k, data, text).value;
    assert Render(fmt, sealed["email"]) == text("email");
    var live: Held := map["email" := map[1 := data["email"]]];
    assert 1 in live["email"] && Render(fmt, live["email"][1]) == "x";
  }
}
