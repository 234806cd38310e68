/** The encryption policy of a collection over its life: the epoch only grows and the read
    mode is fixed by the first policy. */
module EncryptionAdmin {
  import opened Common
  import opened Values
  import opened Writes
  import opened Collections
  import opened Encryption

  /** The encryptors installed one after another: one name, one read mode, epochs 1, 2, ... */
  predicate PolicyHistory(name: string, past: seq<Encryptor>) {
    forall i | 0 <= i < |past| ::
      Proper(past[i]) && past[i].name == name && past[i].readMode == past[0].readMode && past[i].epoch == i + 1
  }

  datatype Change = SetPolicy(policy: Option<Policy>, keyAtHand: bool) | Rotate(keyAtHand: bool)

  /** Whether a change is accepted. Nothing disables; a policy of another mode is refused for
      good once one was installed; the first needs a provider that gives its current key. */
  predicate Accepted(hasProvider: bool, past: seq<Encryptor>, c: Change) {
    match c
    case SetPolicy(None, _) => true
    case SetPolicy(Some(p), keyAtHand) =>
      ValidPolicy(p) && if past != [] then ModeOf(p) == past[|past| - 1].readMode else hasProvider && keyAtHand
    case Rotate(keyAtHand) => past != [] && keyAtHand
  }

  /** The history after a change. Disabling what is off already installs nothing. */
  function Changed(name: string, hasProvider: bool, past: seq<Encryptor>, c: Change): seq<Encryptor> {
    if !Accepted(hasProvider, past, c) then past else
    match c
    case SetPolicy(None, _) =>
      if past == [] || past[|past| - 1].policy.Off? then past
      else past + [Encryptor(name, past[|past| - 1].readMode, Off, |past| + 1)]
    case SetPolicy(Some(p), _) => past + [Encryptor(name, ModeOf(p), p, |past| + 1)]
    case Rotate(_) => past + [past[|past| - 1].(epoch := |past| + 1)]
  }

  function ChangedBy(name: string, hasProvider: bool, past: seq<Encryptor>, cs: seq<Change>): seq<Encryptor> {
    if cs == [] then past else Changed(name, hasProvider, ChangedBy(name, hasProvider, past, cs[..|cs| - 1]), cs[|cs| - 1])
  }

  class Admin {
    const name: string
    const hasProvider: bool
    var enc: Option<Encryptor>
    ghost var past: seq<Encryptor>

    ghost predicate Valid() reads this {
      PolicyHistory(name, past) && enc == if past == [] then None else Some(past[|past| - 1])
    }

    constructor (name: string, hasProvider: bool)
      ensures Valid() && enc.None? && this.name == name && this.hasProvider == hasProvider
    {
      this.name, this.hasProvider, enc := name, hasProvider, None;
      past := [];
    }

    /** applyEncryptionChange */
    method Install(e: Encryptor)
      requires Valid() && Proper(e) && e.name == name && e.epoch == |past| + 1
      requires enc.Some? ==> e.readMode == enc.value.readMode
      modifies `enc, `past
      ensures Valid() && enc == Some(e) && past == old(past) + [e]
    {
      enc := Some(e);
      past := past + [e];
    }

    /** SetEncryptionPolicy: nothing disables; a policy of another mode is refused for good
        once one was installed; the first needs a provider that gives its current key. */
    method SetEncryptionPolicy(policy: Option<Policy>, keyAtHand: bool) returns (ok: bool)
      requires Valid()
      modifies `enc, `past
      ensures Valid() && ok == Accepted(hasProvider, old(past), SetPolicy(policy, keyAtHand))
      ensures past == Changed(name, hasProvider, old(past), SetPolicy(policy, keyAtHand))
      ensures policy.None? ==> ok
      ensures policy.Some? ==>
                (ok <==>
                 match policy.value
                 case Off => false
                 case OnFields(fields) =>
                   && fields != {} && KEY !in fields && SECURE !in fields
                   && if old(enc).Some? then old(enc).value.readMode.Fields? else hasProvider && keyAtHand
                 case OnRecord(index) =>
                   SECURE !in index && if old(enc).Some? then old(enc).value.readMode.Record? else hasProvider && keyAtHand)
      ensures !ok ==> enc == old(enc)
      ensures ok && policy.Some? ==>
                && enc.Some? && enc.value.policy == policy.value && enc.value.name == name
                && (enc.value.readMode.Fields? <==> policy.value.OnFields?)
                && enc.value.epoch == if old(enc).Some? then old(enc).value.epoch + 1 else 1
      ensures policy.None? && old(enc).Some? ==>
                && enc.Some? && enc.value.policy.Off? && enc.value.readMode == old(enc).value.readMode
                && enc.value.epoch == old(enc).value.epoch + if old(enc).value.policy.Off? then 0 else 1
      ensures policy.None? && old(enc).None? ==> enc.None?
    {
      if policy.None? {
        if enc.Some? && !enc.value.policy.Off? {
          Install(Encryptor(name, enc.value.readMode, Off, enc.value.epoch + 1));
        }
        return true;
      }
      if !ValidPolicy(policy.value) {
        return false;
      }
      if enc.Some? {
        if ModeOf(policy.value) != enc.value.readMode {
          return false;
        }
        Install(Encryptor(name, enc.value.readMode, policy.value, enc.value.epoch + 1));
        return true;
      }
      if !hasProvider {
        return false;
      }
      if !keyAtHand {
        return false;
      }
      Install(Encryptor(name, ModeOf(policy.value), policy.value, 1));
      ok := true;
    }

    /** RotateKey: the same policy at the next epoch, if the provider gives its current key. */
    method RotateKey(keyAtHand: bool) returns (ok: bool)
      requires Valid()
      modifies `enc, `past
      ensures Valid() && ok == Accepted(hasProvider, old(past), Rotate(keyAtHand))
      ensures past == Changed(name, hasProvider, old(past), Rotate(keyAtHand))
      ensures ok <==> old(enc).Some? && keyAtHand
      ensures enc == if ok then Some(old(enc).value.(epoch := old(enc).value.epoch + 1)) else old(enc)
    {
      if enc.None? {
        return false;
      }
      if !keyAtHand {
        return false;
      }
      Install(enc.value.(epoch := enc.value.epoch + 1));
      ok := true;
    }
  }

  /** Over every run of policy changes exactly the accepted ones take effect, in order; the read
      mode never changes and no epoch repeats. */
  method AnyRun(a: Admin, changes: seq<Change>) returns (answers: seq<bool>)
    requires a.Valid()
    modifies a
    ensures a.Valid() && old(a.past) <= a.past && a.past == ChangedBy(a.name, a.hasProvider, old(a.past), changes)
    ensures |answers| == |changes|
    ensures forall i | 0 <= i < |changes| ::
              answers[i] == Accepted(a.hasProvider, ChangedBy(a.name, a.hasProvider, old(a.past), changes[..i]), changes[i])
    ensures forall i, j | 0 <= i < j < |a.past| :: a.past[i].epoch < a.past[j].epoch && a.past[i].readMode == a.past[j].readMode
  {
    hide Accepted, Changed, ChangedBy, PolicyHistory;
    answers := [];
    ChangedSnoc(a.name, a.hasProvider, a.past, changes, 0);
    for i := 0 to |changes|
      invariant a.Valid() && old(a.past) <= a.past && a.past == ChangedBy(a.name, a.hasProvider, old(a.past), changes[..i])
      invariant |answers| == i
      invariant forall j | 0 <= j < i ::
                  answers[j] == Accepted(a.hasProvider, ChangedBy(a.name, a.hasProvider, old(a.past), changes[..j]), changes[j])
    {
      ChangedSnoc(a.name, a.hasProvider, old(a.past), changes, i);
      var ok;
      match changes[i] {
        case SetPolicy(policy, keyAtHand) => ok := a.SetEncryptionPolicy(policy, keyAtHand);
        case Rotate(keyAtHand) => ok := a.RotateKey(keyAtHand);
      }
      answers := answers + [ok];
    }
    TakeAll(changes);
    EpochsRise(a.name, a.past);
  }

  lemma ChangedSnoc(name: string, hasProvider: bool, past: seq<Encryptor>, cs: seq<Change>, i: nat)
    requires i <= |cs|
    ensures ChangedBy(name, hasProvider, past, cs[..0]) == past
    ensures i < |cs| ==>
              var was := ChangedBy(name, hasProvider, past, cs[..i]);
              && ChangedBy(name, hasProvider, past, cs[..i + 1]) == Changed(name, hasProvider, was, cs[i])
              && was <= Changed(name, hasProvider, was, cs[i])
  {
    if i < |cs| { assert cs[..i + 1][..i] == cs[..i]; }
  }

  lemma EpochsRise(name: string, past: seq<Encryptor>)
    requires PolicyHistory(name, past)
    ensures forall i, j | 0 <= i < j < |past| :: past[i].epoch < past[j].epoch && past[i].readMode == past[j].readMode
  {
  }

  /** Nothing in the way of encrypting a field that an index is on: the policy is accepted, and
      every record that has the field is then stored differently from what the index files. */
  method EncryptIndexed(name: string, f: string, k: Keys, text: string -> string, v: Value) returns (a: Admin)
    requires f != KEY && f != SECURE && Usable(k) && !Encryption.Reserved(v)
    ensures fresh(a) && a.Valid() && a.enc.Some? && a.enc.value.policy == OnFields({f})
    ensures Stored(a.enc.value, k, map[f := v], text).Some?
    ensures !Agrees(Doc(map[f := v], Stored(a.enc.value, k, map[f := v], text).value, a.enc.value.epoch), {f})
  {
    a := new Admin(name, true);
    var ok := a.SetEncryptionPolicy(Some(OnFields({f})), true);
    SealedDiffers(a.enc.value, k, map[f := v], text, f);
  }

  /** Any stretch of a collection's policy history is one the round trip covers, as long as
      keys stay resolvable. */
  lemma HistoryIsOne(name: string, past: seq<Encryptor>, eras: seq<Era>)
    requires PolicyHistory(name, past)
    requires forall i | 0 <= i < |eras| :: eras[i].e in past && Usable(eras[i].keys)
    requires forall i | 0 < i < |eras| :: StillResolves(eras[i - 1].keys, eras[i].keys)
    ensures History(eras)
  {
  }
}
