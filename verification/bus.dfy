/** The publish/subscribe channel shared by every widget: for each event name,
    the set of handlers subscribed to it, kept in insertion order. */
module EventBus {
  import opened Seqs

  /** A handler, identified as a JavaScript function is: by identity. */
  type HandlerId = nat

  /** What `on` hands back: calling it removes exactly this handler from
      exactly this event. */
  datatype Subscription = Subscription(event: string, handler: HandlerId)

  /** `Set.prototype.add`: appended at the end unless already present. */
  function Added(s: seq<HandlerId>, h: HandlerId): (r: seq<HandlerId>)
    ensures h in r
    ensures forall x :: x in r <==> x in s || x == h
    ensures NoDups(s) ==> NoDups(r)
    ensures |s| <= |r| <= |s| + 1 && r[..|s|] == s
  {
    if h in s then s else s + [h]
  }

  /** `Set.prototype.delete`: `h` is gone and the others keep their order. */
  function Removed(s: seq<HandlerId>, h: HandlerId): (r: seq<HandlerId>)
    ensures h !in r
    ensures forall x :: x in r <==> x in s && x != h
    ensures NoDups(s) ==> NoDups(r)
    ensures |r| <= |s|
  {
    if s == [] then []
    else if s[0] == h then Removed(s[1..], h)
    else
      var rest := Removed(s[1..], h);
      assert NoDups(s) ==> s[0] !in s[1..] && NoDups([s[0]] + rest) by {
        if NoDups(s) {
          NoDupsCons(s[0], rest);
        }
      }
      [s[0]] + rest
  }

  /** Subscribing a handler that is already there changes nothing. */
  lemma AddedTwice(s: seq<HandlerId>, h: HandlerId)
    ensures Added(Added(s, h), h) == Added(s, h)
  {
  }

  /** Removing a handler that is not there changes nothing. */
  lemma {:induction false} RemovedAbsent(s: seq<HandlerId>, h: HandlerId)
    requires h !in s
    ensures Removed(s, h) == s
  {
    if s != [] {
      RemovedAbsent(s[1..], h);
    }
  }

  /** Unsubscribing twice is the same as unsubscribing once. */
  lemma RemovedTwice(s: seq<HandlerId>, h: HandlerId)
    ensures Removed(Removed(s, h), h) == Removed(s, h)
  {
    RemovedAbsent(Removed(s, h), h);
  }

  /** Removing from a concatenation removes from each part. */
  lemma {:induction false} RemovedAppend(s: seq<HandlerId>, t: seq<HandlerId>, h: HandlerId)
    ensures Removed(s + t, h) == Removed(s, h) + Removed(t, h)
  {
    if s != [] {
      assert (s + t)[1..] == s[1..] + t;
      RemovedAppend(s[1..], t, h);
    } else {
      assert s + t == t;
    }
  }

  /** In a duplicate-free sequence, removing the element at `k` leaves the
      elements before and after it, in their order. */
  lemma {:induction false} RemovedAt(s: seq<HandlerId>, k: nat)
    requires NoDups(s) && k < |s|
    ensures Removed(s, s[k]) == s[..k] + s[k + 1..]
  {
    var h := s[k];
    assert s == s[..k] + [h] + s[k + 1..];
    RemovedAppend(s[..k] + [h], s[k + 1..], h);
    RemovedAppend(s[..k], [h], h);
    RemovedAbsent(s[..k], h);
    assert h !in s[k + 1..];
    RemovedAbsent(s[k + 1..], h);
  }

  /** Subscribing a new handler and then unsubscribing it restores the set. */
  lemma SubscribeThenUnsubscribe(s: seq<HandlerId>, h: HandlerId)
    requires h !in s
    ensures Removed(Added(s, h), h) == s
  {
    RemovedAppend(s, [h], h);
    RemovedAbsent(s, h);
  }

  class Bus {
    /** Event name to its handlers, in first-registration order. */
    var handlers: map<string, seq<HandlerId>>

    ghost predicate Valid()
      reads this
    {
      forall e :: e in handlers ==> NoDups(handlers[e])
    }

    /** The handlers an emit of `event` reaches; none for an unknown event. */
    function Listeners(event: string): (hs: seq<HandlerId>)
      reads this
      ensures event !in handlers ==> hs == []
      ensures Valid() ==> NoDups(hs)
    {
      if event in handlers then handlers[event] else []
    }

    constructor ()
      ensures Valid() && handlers == map[]
    {
      handlers := map[];
    }

    /** `on`: subscribes `handler` to `event` (once), touching no other event,
        and returns the means to unsubscribe it. */
    method On(event: string, handler: HandlerId) returns (unsubscribe: Subscription)
      requires Valid()
      modifies this
      ensures Valid()
      ensures handlers == old(handlers)[event := Added(old(Listeners(event)), handler)]
      ensures unsubscribe == Subscription(event, handler)
    {
      if event !in handlers {
        handlers := handlers[event := []];
      }
      handlers := handlers[event := Added(handlers[event], handler)];
      unsubscribe := Subscription(event, handler);
    }

    /** `off`: removes `handler` from `event` only; an unknown event or an
        absent handler leaves everything as it was. */
    method Off(event: string, handler: HandlerId)
      requires Valid()
      modifies this
      ensures Valid()
      ensures event in old(handlers) ==>
        handlers == old(handlers)[event := Removed(old(handlers[event]), handler)]
      ensures event !in old(handlers) ==> handlers == old(handlers)
    {
      if event in handlers {
        handlers := handlers[event := Removed(handlers[event], handler)];
      }
    }

    /** Calling the closure `on` returned. */
    method Unsubscribe(sub: Subscription)
      requires Valid()
      modifies this
      ensures Valid()
      ensures sub.event in old(handlers) ==>
        handlers == old(handlers)[sub.event := Removed(old(handlers[sub.event]), sub.handler)]
      ensures sub.event !in old(handlers) ==> handlers == old(handlers)
    {
      Off(sub.event, sub.handler);
    }

    /** `emit`: calls the handlers of `event` one after the other, in
        registration order; the result is the sequence of calls made. */
    method Emit(event: string) returns (calls: seq<HandlerId>)
      requires Valid()
      ensures calls == Listeners(event)
      ensures forall h :: h in calls ==> multiset(calls)[h] == 1
    {
      calls := [];
      if event in handlers {
        var hs := handlers[event];
        var i := 0;
        while i < |hs|
          invariant 0 <= i <= |hs|
          invariant calls == hs[..i]
        {
          calls := calls + [hs[i]];
          i := i + 1;
        }
      }
      forall h | h in calls
        ensures multiset(calls)[h] == 1
      {
        OccursOnce(calls, h);
      }
    }
  }
}
