/** The watch overflow protocol: a slow subscriber loses events, but never silently. */
module Watch {
  import opened Common
  import opened Log

  datatype Event = Event(id: nat, op: Op, ts: int)

  /** What a subscriber may receive: an event, or the marker that events were dropped. */
  datatype Item = Real(ev: Event) | Overflow

  /** How many events are accounted for once this item has been sent during emit `p`. */
  function Upto(item: Item, p: nat): nat {
    if item.Real? then p + 1 else p
  }

  /** How an item sent during emit `p` continues a stream that accounts for the first n
      events: an event continues it without a gap, a marker admits one. */
  predicate Continues(n: nat, item: Item, p: nat) {
    if item.Real? then p == n else p > n
  }

  function Accounted(items: seq<Item>, at: seq<nat>, n: nat): nat
    requires n <= |items| == |at|
  {
    if n == 0 then 0 else Upto(items[n - 1], at[n - 1])
  }

  /** `at` gives for each item the emit that sent it. Every event item carries the event of
      that emit, and every item continues the ones before it. */
  predicate Honest(items: seq<Item>, at: seq<nat>, emitted: seq<Event>) {
    && |items| == |at|
    && (forall i | 0 <= i < |items| :: at[i] < |emitted| && (items[i].Real? ==> items[i].ev == emitted[at[i]]))
    && (forall i | 0 <= i < |items| :: Linked(items, at, i))
  }

  /** Item i continues the items before it. */
  predicate Linked(items: seq<Item>, at: seq<nat>, i: nat)
    requires i < |items| == |at|
  {
    Continues(Accounted(items, at, i), items[i], at[i])
  }

  lemma HonestSnoc(items: seq<Item>, at: seq<nat>, emitted: seq<Event>, item: Item, p: nat)
    requires Honest(items, at, emitted) && p < |emitted| && (item.Real? ==> item.ev == emitted[p])
    requires Continues(Accounted(items, at, |items|), item, p)
    ensures Honest(items + [item], at + [p], emitted)
    ensures Accounted(items + [item], at + [p], |items| + 1) == Upto(item, p)
  {
    var more, at' := items + [item], at + [p];
    forall i | 0 <= i < |more| ensures Linked(more, at', i) {
      assert i < |items| ==> Linked(items, at, i);
      assert Accounted(more, at', i) == Accounted(items, at, i);
    }
  }

  lemma HonestGrows(items: seq<Item>, at: seq<nat>, emitted: seq<Event>, ev: Event)
    requires Honest(items, at, emitted)
    ensures Honest(items, at, emitted + [ev])
  {
  }

  // ---- What honesty gives the subscriber ----------------------------------------------------

  /** Two events delivered with no marker between them were emitted one right after the
      other. */
  lemma NoSilentGap(items: seq<Item>, at: seq<nat>, emitted: seq<Event>, i: nat)
    requires Honest(items, at, emitted) && i + 1 < |items| && items[i].Real? && items[i + 1].Real?
    ensures at[i + 1] == at[i] + 1
  {
    assert Linked(items, at, i + 1);
  }

  lemma {:induction false} Ordered(items: seq<Item>, at: seq<nat>, emitted: seq<Event>, i: nat, j: nat)
    requires Honest(items, at, emitted) && i < j < |items|
    ensures Upto(items[i], at[i]) <= at[j]
  {
    assert Linked(items, at, j);
    if i < j - 1 { Ordered(items, at, emitted, i, j - 1); }
  }

  /** The event of emit d never reached the subscriber. */
  predicate Dropped(items: seq<Item>, at: seq<nat>, d: nat)
    requires |items| == |at|
  {
    forall j | 0 <= j < |items| && items[j].Real? :: at[j] != d
  }

  /** A delivered marker follows at least one event dropped since the previous item. */
  lemma MarkerMeansDrop(items: seq<Item>, at: seq<nat>, emitted: seq<Event>, i: nat) returns (d: nat)
    requires Honest(items, at, emitted) && i < |items| && items[i].Overflow?
    ensures Accounted(items, at, i) <= d < at[i] && Dropped(items, at, d)
  {
    d := Accounted(items, at, i);
    assert Linked(items, at, i);
    forall j | 0 <= j < |items| && items[j].Real? ensures at[j] != d {
      if j < i {
        assert at[j] < d by {
          if j < i - 1 { Ordered(items, at, emitted, j, i - 1); }
        }
      } else {
        if j > i { Ordered(items, at, emitted, i, j); }
      }
    }
  }

  /** An event lost between two delivered ones is always announced by a marker between them. */
  lemma {:induction false} GapIsAnnounced(items: seq<Item>, at: seq<nat>, emitted: seq<Event>, i: nat, j: nat)
    requires Honest(items, at, emitted) && i < j < |items| && items[i].Real? && items[j].Real?
    requires forall k | i < k < j :: items[k].Real?
    ensures at[j] == at[i] + (j - i)
  {
    NoSilentGap(items, at, emitted, j - 1);
    if i < j - 1 { GapIsAnnounced(items, at, emitted, i, j - 1); }
  }

  // ---- What a call does ------------------------------------------------------------------------

  /** A subscriber's channel, its overflow flag, and everything received so far. */
  datatype Channel = Channel(queue: seq<Item>, overflowed: bool, received: seq<Item>)

  datatype Action = DoEmit(ev: Event, waitingFirst: bool, waiting: bool) | DoReceive

  /** While overflowed an emit first tries to send the marker, and sends nothing until it lands;
      an event that does not land sets the flag. A send needs room or a receiver waiting. */
  function AfterEmit(ch: Channel, cap: nat, ev: Event, waitingFirst: bool, waiting: bool): Channel {
    if ch.overflowed && |ch.queue| >= cap && !waitingFirst then ch else
    var queue := if ch.overflowed then ch.queue + [Overflow] else ch.queue;
    if |queue| < cap || waiting then ch.(queue := queue + [Real(ev)], overflowed := false)
    else ch.(queue := queue, overflowed := true)
  }

  function AfterReceive(ch: Channel): Channel {
    if ch.queue == [] then ch else ch.(queue := ch.queue[1..], received := ch.received + [ch.queue[0]])
  }

  function AfterAll(cap: nat, acts: seq<Action>): Channel {
    if acts == [] then Channel([], false, []) else
    var ch := AfterAll(cap, acts[..|acts| - 1]);
    match acts[|acts| - 1]
    case DoEmit(ev, waitingFirst, waiting) => AfterEmit(ch, cap, ev, waitingFirst, waiting)
    case DoReceive => AfterReceive(ch)
  }

  /** The events of the script, in order. */
  function Emits(acts: seq<Action>): seq<Event> {
    if acts == [] then [] else
    Emits(acts[..|acts| - 1]) + (if acts[|acts| - 1].DoEmit? then [acts[|acts| - 1].ev] else [])
  }

  /** How many events lie in the buffer after the first n actions when none is lost. */
  function Waiting(acts: seq<Action>, n: nat): nat
    requires n <= |acts|
  {
    if n == 0 then 0 else
    var k := Waiting(acts, n - 1);
    if acts[n - 1].DoEmit? then k + 1 else if k > 0 then k - 1 else 0
  }

  /** At every emit there is room for the event, or a receiver waits. */
  predicate KeepsUp(cap: nat, acts: seq<Action>) {
    forall i | 0 <= i < |acts| && acts[i].DoEmit? :: Waiting(acts, i) < cap || acts[i].waiting
  }

  function Events(evs: seq<Event>): (items: seq<Item>)
    ensures |items| == |evs| && forall i | 0 <= i < |evs| :: items[i] == Real(evs[i])
  {
    seq(|evs|, i requires 0 <= i < |evs| => Real(evs[i]))
  }

  /** A subscriber that keeps up gets every event, in order, and no marker. */
  lemma {:induction false} NothingLost(cap: nat, acts: seq<Action>, n: nat)
    requires KeepsUp(cap, acts) && n <= |acts|
    ensures var ch := AfterAll(cap, acts[..n]);
            !ch.overflowed && |ch.queue| == Waiting(acts, n) && ch.received + ch.queue == Events(Emits(acts[..n]))
  {
    if n > 0 {
      NothingLost(cap, acts, n - 1);
      ActsSnoc(cap, acts, n - 1);
      var ch := AfterAll(cap, acts[..n - 1]);
      if acts[n - 1].DoEmit? {
        assert Waiting(acts, n - 1) < cap || acts[n - 1].waiting;
        assert ch.received + (ch.queue + [Real(acts[n - 1].ev)]) == (ch.received + ch.queue) + [Real(acts[n - 1].ev)];
      } else if ch.queue != [] {
        assert (ch.received + [ch.queue[0]]) + ch.queue[1..] == ch.received + ch.queue;
      }
    }
  }

  // ---- The watcher -----------------------------------------------------------------------------

  class Watcher {
    const cap: nat
    var queue: seq<Item>
    var overflowed: bool
    /** Everything received so far, every event emitted, and when each item was sent. */
    ghost var received: seq<Item>
    ghost var emitted: seq<Event>
    ghost var at: seq<nat>

    ghost function Now(): Channel reads this {
      Channel(queue, overflowed, received)
    }

    ghost predicate Valid() reads this {
      && Honest(received + queue, at, emitted)
      && var n := Accounted(received + queue, at, |received + queue|);
         if overflowed then n < |emitted| else n == |emitted|
    }

    constructor (cap: nat)
      ensures Valid() && Now() == Channel([], false, []) && emitted == [] && this.cap == cap
    {
      this.cap, queue, overflowed := cap, [], false;
      received, emitted, at := [], [], [];
    }

    /** A non-blocking send: it needs room in the buffer or a receiver already waiting. */
    method TrySend(item: Item, waiting: bool, ghost p: nat) returns (ok: bool)
      requires Honest(received + queue, at, emitted) && p < |emitted| && (item.Real? ==> item.ev == emitted[p])
      requires Continues(Accounted(received + queue, at, |received + queue|), item, p)
      modifies `queue, `at
      ensures ok <==> |old(queue)| < cap || waiting
      ensures Honest(received + queue, at, emitted)
      ensures if ok then queue == old(queue) + [item] && Accounted(received + queue, at, |received + queue|) == Upto(item, p)
              else queue == old(queue) && at == old(at)
    {
      ok := |queue| < cap || waiting;
      if ok {
        HonestSnoc(received + queue, at, emitted, item, p);
        assert received + (queue + [item]) == received + queue + [item];
        queue := queue + [item];
        at := at + [p];
      }
    }

    /** emit for one watcher: while overflowed, first the marker, and nothing until it lands.
        The flags tell whether a receiver waits when the marker and the event are sent. */
    method Emit(ev: Event, waitingFirst: bool, waiting: bool)
      requires Valid()
      modifies `queue, `overflowed, `at, `emitted
      ensures Valid() && emitted == old(emitted) + [ev]
      ensures Now() == AfterEmit(old(Now()), cap, ev, waitingFirst, waiting) && received == old(received)
      ensures !old(overflowed) && (|old(queue)| < cap || waiting) ==> queue == old(queue) + [Real(ev)] && !overflowed
      ensures !old(overflowed) && |old(queue)| >= cap && !waiting ==> queue == old(queue) && overflowed
      ensures old(overflowed) && |old(queue)| >= cap && !waitingFirst ==> queue == old(queue) && overflowed
      ensures old(overflowed) && (|old(queue)| < cap || waitingFirst) ==>
                if |old(queue)| + 1 < cap || waiting then queue == old(queue) + [Overflow, Real(ev)] && !overflowed
                else queue == old(queue) + [Overflow] && overflowed
    {
      hide Honest;
      ghost var p := |emitted|;
      HonestGrows(received + queue, at, emitted, ev);
      emitted := emitted + [ev];
      if overflowed {
        var landed := TrySend(Overflow, waitingFirst, p);
        if !landed {
          return;
        }
        overflowed := false;
      }
      var sent := TrySend(Real(ev), waiting, p);
      if !sent {
        overflowed := true;
      }
    }

    /** Receive the next item, if there is one. */
    method Receive() returns (r: Option<Item>)
      requires Valid()
      modifies `queue, `received
      ensures Valid() && Now() == AfterReceive(old(Now()))
      ensures r == if old(queue) == [] then None else Some(old(queue)[0])
      ensures old(queue) != [] ==> queue == old(queue)[1..] && received == old(received) + [old(queue)[0]]
    {
      if queue == [] {
        return None;
      }
      r := Some(queue[0]);
      assert received + queue == received + [queue[0]] + queue[1..];
      received, queue := received + [queue[0]], queue[1..];
    }
  }

  lemma HonestPrefix(a: seq<Item>, b: seq<Item>, at: seq<nat>, emitted: seq<Event>)
    requires Honest(a + b, at, emitted)
    ensures Honest(a, at[..|a|], emitted)
  {
    var at' := at[..|a|];
    forall i | 0 <= i < |a| ensures at'[i] < |emitted| && (a[i].Real? ==> a[i].ev == emitted[at'[i]])
                            ensures Linked(a, at', i)
    {
      assert (a + b)[i] == a[i] && at'[i] == at[i];
      assert Linked(a + b, at, i);
      assert Accounted(a + b, at, i) == Accounted(a, at', i) by { if i > 0 { assert (a + b)[i - 1] == a[i - 1]; } }
    }
  }

  lemma ActsSnoc(cap: nat, acts: seq<Action>, i: nat)
    requires i < |acts|
    ensures var ch := AfterAll(cap, acts[..i]);
            match acts[i]
            case DoEmit(ev, waitingFirst, waiting) =>
              && AfterAll(cap, acts[..i + 1]) == AfterEmit(ch, cap, ev, waitingFirst, waiting)
              && Emits(acts[..i + 1]) == Emits(acts[..i]) + [ev]
            case DoReceive => AfterAll(cap, acts[..i + 1]) == AfterReceive(ch) && Emits(acts[..i + 1]) == Emits(acts[..i])
  {
    assert acts[..i + 1][..i] == acts[..i];
  }

  /** Every interleaving of emits and receives, call by call: what the subscriber has received is
      an honest account of the events emitted. */
  method AnyRun(cap: nat, acts: seq<Action>) returns (w: Watcher)
    ensures w.cap == cap && w.emitted == Emits(acts) && w.Now() == AfterAll(cap, acts)
    ensures KeepsUp(cap, acts) ==> w.received + w.queue == Events(Emits(acts)) && !w.overflowed
    ensures w.Valid() && |w.received| <= |w.at| && Honest(w.received, w.at[..|w.received|], w.emitted)
  {
    hide Honest, AfterEmit, AfterReceive, AfterAll, Emits, Events, KeepsUp;
    w := new Watcher(cap);
    assert AfterAll(cap, acts[..0]) == Channel([], false, []) && Emits(acts[..0]) == [] by { NoActs(cap); }
    for i := 0 to |acts|
      invariant w.Valid() && fresh(w) && w.cap == cap && w.emitted == Emits(acts[..i]) && w.Now() == AfterAll(cap, acts[..i])
    {
      ActsSnoc(cap, acts, i);
      match acts[i] {
        case DoEmit(ev, waitingFirst, waiting) => w.Emit(ev, waitingFirst, waiting);
        case DoReceive => var r := w.Receive();
      }
    }
    TakeAll(acts);
    if KeepsUp(cap, acts) { NothingLost(cap, acts, |acts|); }
    HonestSizes(w.received + w.queue, w.at, w.emitted);
    HonestPrefix(w.received, w.queue, w.at, w.emitted);
  }

  lemma NoActs(cap: nat)
    ensures AfterAll(cap, []) == Channel([], false, []) && Emits([]) == []
  {
  }

  lemma HonestSizes(items: seq<Item>, at: seq<nat>, emitted: seq<Event>)
    requires Honest(items, at, emitted)
    ensures |items| == |at|
  {
  }
}
