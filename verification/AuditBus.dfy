// The audit bus (internal/approval/manager.go): a lossy fan-out of approval
// events to any number of subscribers, one buffered channel each.
module AuditBus {
  import opened Prelude

  const CAPACITY := 64

  // ---------------------------------------------------------------------
  // The source's own form
  // ---------------------------------------------------------------------

  // A select with a default branch: a full channel drops the event.
  function Offered<E>(buffer: seq<E>, e: E): seq<E> {
    if |buffer| < CAPACITY then buffer + [e] else buffer
  }

  class Channel<E> {
    var buffer: seq<E>
    var closed: bool

    constructor ()
      ensures buffer == [] && !closed
    {
      buffer, closed := [], false;
    }

    // Sending to a closed channel panics, so callers must rule it out.
    method TrySend(e: E)
      requires !closed
      modifies this
      ensures buffer == Offered(old(buffer), e) && !closed
    {
      if |buffer| < CAPACITY {
        buffer := buffer + [e];
      }
    }

    // So does closing one twice.
    method Close()
      requires !closed
      modifies this
      ensures closed && buffer == old(buffer)
    {
      closed := true;
    }
  }

  class Bus<E> {
    var subscribers: set<Channel<E>>

    ghost predicate Valid()
      reads this, subscribers
    {
      forall ch :: ch in subscribers ==> !ch.closed
    }

    constructor ()
      ensures Valid() && subscribers == {}
    {
      subscribers := {};
    }

    method Publish(e: E)
      requires Valid()
      modifies subscribers
      ensures Valid() && subscribers == old(subscribers)
      ensures forall ch :: ch in subscribers ==>
        ch.buffer == if |old(ch.buffer)| < 64 then old(ch.buffer) + [e] else old(ch.buffer)
    {
      var rest := subscribers;
      while rest != {}
        invariant rest <= subscribers && Valid()
        invariant forall ch :: ch in subscribers ==>
          ch.buffer == if ch in rest then old(ch.buffer) else Offered(old(ch.buffer), e)
        decreases rest
      {
        ghost var some := AnElement(rest);
        var ch :| ch in rest;
        ch.TrySend(e);
        rest := rest - {ch};
      }
    }

    method Subscribe() returns (ch: Channel<E>)
      requires Valid()
      modifies this
      ensures Valid() && fresh(ch) && subscribers == old(subscribers) + {ch} && ch.buffer == []
    {
      ch := new Channel();
      subscribers := subscribers + {ch};
    }

    // Unknown and already closed channels are left alone.
    method Unsubscribe(ch: Channel<E>)
      requires Valid()
      modifies this, ch
      ensures Valid() && subscribers == old(subscribers) - {ch}
      ensures ch.buffer == old(ch.buffer)
      ensures ch.closed == (old(ch.closed) || ch in old(subscribers))
    {
      if ch in subscribers {
        subscribers := subscribers - {ch};
        ch.Close();
      }
    }
  }

  // ---------------------------------------------------------------------
  // Runs, with what happened to every subscription
  // ---------------------------------------------------------------------

  // from and to delimit the published events the subscription was there for;
  // unread holds, for each of them, how many events were waiting at that time.
  datatype Subscription<E> = Subscription(
    buffer: seq<E>, received: seq<E>, from: nat, to: Option<nat>, unread: seq<nat>, closes: nat, sentAfterClose: nat)

  datatype State<E> = State(published: seq<E>, all: map<nat, Subscription<E>>, active: set<nat>)

  datatype Op<E> = Publish(e: E) | Subscribe(ch: nat) | Unsubscribe(ch: nat) | Receive(ch: nat)

  function Start<E(!new)>(): State<E> { State([], map[], {}) }

  // A new channel is a new value.
  predicate Possible<E(!new)>(st: State<E>, op: Op<E>) {
    match op
    case Subscribe(ch) => ch !in st.all
    case Receive(ch) => ch in st.all && st.all[ch].buffer != []
    case _ => true
  }

  function Offer<E(!new)>(s: Subscription<E>, e: E): Subscription<E> {
    s.(buffer := Offered(s.buffer, e), unread := s.unread + [|s.buffer|],
       sentAfterClose := s.sentAfterClose + if s.closes > 0 then 1 else 0)
  }

  function Apply<E(!new)>(st: State<E>, op: Op<E>): State<E>
    requires Possible(st, op)
  {
    match op
    case Publish(e) =>
      State(st.published + [e],
            map ch | ch in st.all :: if ch in st.active then Offer(st.all[ch], e) else st.all[ch],
            st.active)
    case Subscribe(ch) =>
      State(st.published, st.all[ch := Subscription([], [], |st.published|, None, [], 0, 0)], st.active + {ch})
    case Unsubscribe(ch) =>
      if ch in st.active && ch in st.all then
        var s := st.all[ch];
        State(st.published, st.all[ch := s.(to := Some(|st.published|), closes := s.closes + 1)], st.active - {ch})
      else st
    case Receive(ch) =>
      var s := st.all[ch];
      st.(all := st.all[ch := s.(buffer := s.buffer[1..], received := s.received + [s.buffer[0]])])
  }

  ghost predicate Reaches<E(!new)>(ops: seq<Op<E>>, st: State<E>)
    decreases |ops|
  {
    if ops == [] then st == Start()
    else
      var last := ops[|ops| - 1];
      exists before :: Reaches(ops[..|ops| - 1], before) && Possible(before, last) && st == Apply(before, last)
  }

  // The events that found room, in order.
  function Kept<E(!new)>(events: seq<E>, unread: seq<nat>): seq<E>
    requires |events| == |unread|
  {
    if events == [] then []
    else
      var n := |events| - 1;
      Kept(events[..n], unread[..n]) + if unread[n] < CAPACITY then [events[n]] else []
  }

  ghost predicate SubscriptionOk<E(!new)>(s: Subscription<E>, published: seq<E>, active: bool) {
    var end := if s.to.Some? then s.to.value else |published|;
    && s.from <= end <= |published|
    && |s.unread| == end - s.from
    && s.received + s.buffer == Kept(published[s.from..end], s.unread)
    && |s.buffer| <= CAPACITY
    && (forall k :: 0 <= k < |s.unread| ==> s.unread[k] <= CAPACITY)
    && s.sentAfterClose == 0
    && (if active then s.closes == 0 && s.to.None? else s.closes == 1 && s.to.Some?)
  }

  ghost predicate Inv<E(!new)>(st: State<E>) {
    && st.active <= st.all.Keys
    && forall ch :: ch in st.all ==> SubscriptionOk(st.all[ch], st.published, ch in st.active)
  }

  lemma KeptSnoc<E(!new)>(events: seq<E>, unread: seq<nat>, e: E, n: nat)
    requires |unread| == |events|
    ensures Kept(events + [e], unread + [n]) == Kept(events, unread) + if n < 64 then [e] else []
  {
    assert (events + [e])[..|events|] == events && (unread + [n])[..|unread|] == unread;
  }

  lemma KeptPush<E(!new)>(events: seq<E>, from: nat, unread: seq<nat>, e: E, n: nat)
    requires from <= |events| && |unread| == |events| - from
    ensures Kept((events + [e])[from..|events| + 1], unread + [n])
         == Kept(events[from..|events|], unread) + if n < CAPACITY then [e] else []
  {
    KeptSnoc(events[from..|events|], unread, e, n);
    assert (events + [e])[from..|events| + 1] == events[from..|events|] + [e];
  }

  lemma OfferKeeps<E(!new)>(s: Subscription<E>, published: seq<E>, e: E)
    requires SubscriptionOk(s, published, true)
    ensures SubscriptionOk(Offer(s, e), published + [e], true)
  {
    KeptPush(published, s.from, s.unread, e, |s.buffer|);
    if |s.buffer| < CAPACITY {
      Regroup(s.received, s.buffer, [e]);
    } else {
      assert (s.received + s.buffer) + [] == s.received + s.buffer;
    }
  }

  lemma PublishKeeps<E(!new)>(st: State<E>, e: E)
    requires Inv(st)
    ensures Inv(Apply(st, Publish(e)))
  {
    var st' := Apply(st, Publish(e));
    forall ch | ch in st'.all
      ensures SubscriptionOk(st'.all[ch], st'.published, ch in st'.active)
    {
      if ch in st.active {
        OfferKeeps(st.all[ch], st.published, e);
      } else {
        var from, to := st.all[ch].from, st.all[ch].to.value;
        assert (st.published + [e])[from..to] == st.published[from..to];
      }
    }
  }

  lemma SubscribeKeeps<E(!new)>(st: State<E>, op: Op<E>)
    requires Inv(st) && Possible(st, op) && op.Subscribe?
    ensures Inv(Apply(st, op))
  {
    var st' := Apply(st, op);
    forall ch | ch in st'.all
      ensures SubscriptionOk(st'.all[ch], st'.published, ch in st'.active)
    {
      if ch == op.ch {
        assert st.published[|st.published|..|st.published|] == [];
      } else {
        assert SubscriptionOk(st.all[ch], st.published, ch in st.active);
      }
    }
  }

  lemma UnsubscribeKeeps<E(!new)>(st: State<E>, op: Op<E>)
    requires Inv(st) && op.Unsubscribe?
    ensures Inv(Apply(st, op))
  {
    var st' := Apply(st, op);
    forall ch | ch in st'.all
      ensures SubscriptionOk(st'.all[ch], st'.published, ch in st'.active)
    {
      assert SubscriptionOk(st.all[ch], st.published, ch in st.active);
    }
  }

  lemma ReceiveKeeps<E(!new)>(st: State<E>, op: Op<E>)
    requires Inv(st) && Possible(st, op) && op.Receive?
    ensures Inv(Apply(st, op))
  {
    var st' := Apply(st, op);
    forall ch | ch in st'.all
      ensures SubscriptionOk(st'.all[ch], st'.published, ch in st'.active)
    {
      assert SubscriptionOk(st.all[ch], st.published, ch in st.active);
      if op.ch == ch {
        var buffer := st.all[ch].buffer;
        Regroup(st.all[ch].received, [buffer[0]], buffer[1..]);
        assert [buffer[0]] + buffer[1..] == buffer;
      }
    }
  }

  lemma {:induction false} RunKeepsInv<E(!new)>(ops: seq<Op<E>>, st: State<E>)
    requires Reaches(ops, st)
    ensures Inv(st)
    decreases |ops|
  {
    if ops != [] {
      var last := ops[|ops| - 1];
      var before :| Reaches(ops[..|ops| - 1], before) && Possible(before, last) && st == Apply(before, last);
      RunKeepsInv(ops[..|ops| - 1], before);
      match last
      case Publish(e) => PublishKeeps(before, e);
      case Subscribe(_) => SubscribeKeeps(before, last);
      case Unsubscribe(_) => UnsubscribeKeeps(before, last);
      case Receive(_) => ReceiveKeeps(before, last);
    }
  }

  // A publish never waits for anybody, a reader only for an empty channel.
  lemma NobodyWaitsForReaders<E(!new)>(st: State<E>, e: E, ch: nat)
    ensures Possible(st, Publish(e)) && Possible(st, Unsubscribe(ch))
    ensures ch in st.all ==> (Possible(st, Receive(ch)) <==> st.all[ch].buffer != [])
    ensures ch !in st.all ==> Possible(st, Subscribe(ch))
  {
  }

  // What a step does to one subscription: a publish counts what is unread and
  // offers its event to every active one, subscribing begins an empty one with
  // the next event, unsubscribing ends an active one and closes its channel
  // once, receiving takes the oldest; everything else leaves it alone.
  lemma StepsOfASubscription<E(!new)>(ops: seq<Op<E>>, st: State<E>, op: Op<E>, ch: nat)
    requires Reaches(ops, st) && Possible(st, op) && ch in Apply(st, op).all
    ensures
      var st', s' := Apply(st, op), Apply(st, op).all[ch];
      && st'.published == (if op.Publish? then st.published + [op.e] else st.published)
      && (ch in st'.active <==> op == Subscribe(ch) || (ch in st.active && op != Unsubscribe(ch)))
      && if ch !in st.all then op == Subscribe(ch) && s' == Subscription([], [], |st.published|, None, [], 0, 0)
         else
           var s := st.all[ch];
           if op.Publish? && ch in st.active then
             s' == s.(buffer := if |s.buffer| < 64 then s.buffer + [op.e] else s.buffer, unread := s.unread + [|s.buffer|])
           else if op == Unsubscribe(ch) && ch in st.active then s' == s.(to := Some(|st.published|), closes := 1)
           else if op == Receive(ch) then
             s.buffer != [] && s' == s.(buffer := s.buffer[1..], received := s.received + [s.buffer[0]])
           else s' == s
  {
    RunKeepsInv(ops, st);
  }

  // What a subscriber has received, followed by what waits in its channel, is
  // the events published while it was subscribed, in order, without exactly
  // those that found 64 events unread.
  lemma SubscribersSeeASubsequence<E(!new)>(ops: seq<Op<E>>, st: State<E>, ch: nat)
    requires Reaches(ops, st) && ch in st.all
    ensures
      var s := st.all[ch];
      var end := if s.to.Some? then s.to.value else |st.published|;
      && s.from <= end <= |st.published| && |s.unread| == end - s.from
      && s.received + s.buffer == Kept(st.published[s.from..end], s.unread)
      && forall k :: 0 <= k < |s.unread| ==> s.unread[k] <= CAPACITY
  {
    RunKeepsInv(ops, st);
  }

  // No channel is sent to after it was closed, and none is closed twice.
  lemma NoSendAfterCloseNoSecondClose<E(!new)>(ops: seq<Op<E>>, st: State<E>, ch: nat)
    requires Reaches(ops, st) && ch in st.all
    ensures st.all[ch].sentAfterClose == 0 && st.all[ch].closes <= 1
    ensures st.all[ch].closes == 0 <==> ch in st.active
  {
    RunKeepsInv(ops, st);
  }

  lemma {:induction false} KeptAll<E(!new)>(events: seq<E>, unread: seq<nat>)
    requires |events| == |unread| && forall k :: 0 <= k < |unread| ==> unread[k] < CAPACITY
    ensures Kept(events, unread) == events
    decreases |events|
  {
    if events != [] {
      var n := |events| - 1;
      KeptAll(events[..n], unread[..n]);
      assert events == events[..n] + [events[n]];
    }
  }

  // A subscriber that never lets 64 events pile up misses nothing.
  lemma PromptReaderMissesNothing<E(!new)>(ops: seq<Op<E>>, st: State<E>, ch: nat)
    requires Reaches(ops, st) && ch in st.all
    requires forall k :: 0 <= k < |st.all[ch].unread| ==> st.all[ch].unread[k] < CAPACITY
    ensures
      var s := st.all[ch];
      var end := if s.to.Some? then s.to.value else |st.published|;
      s.from <= end <= |st.published| && s.received + s.buffer == st.published[s.from..end]
  {
    SubscribersSeeASubsequence(ops, st, ch);
    var s := st.all[ch];
    var end := if s.to.Some? then s.to.value else |st.published|;
    KeptAll(st.published[s.from..end], s.unread);
  }
}
