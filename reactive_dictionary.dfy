/**
  A key-value map that raises a change event on one of two channels whenever
  an entry is written or removed, with disposable subscriptions to each
  channel.

  Callbacks are not run: raising an event appends one `Notification` per
  registered subscriber to the ghost `trace`. The ghost `history` records every
  write, and the ghost maps `issued` and `disposedAt` record when each
  subscriber was registered and released, measured as a position in `trace`.
 */
module Reactive {
  import opened Wrappers
  import opened Notifications
  import opened History

  /** When and on which channel a subscriber was registered. */
  datatype Registration = Registration(channel: Channel, at: nat)

  class ReactiveDictionary<K(==), V(0)> {
    var inner: map<K, V>
    // the two event fields, each as its ordered list of registered callbacks
    var onAddedOrUpdated: seq<SubscriberId>
    var onRemoved: seq<SubscriberId>
    // the identity given to the next callback that subscribes
    var nextId: SubscriberId

    ghost var seed: map<K, V>
    ghost var history: seq<Op<K, V>>
    ghost var trace: seq<Notification<K, V>>
    ghost var issued: map<SubscriberId, Registration>
    ghost var disposedAt: map<SubscriberId, nat>

    /** The event field of `channel`. */
    function Subscribers(channel: Channel): (r: seq<SubscriberId>)
      reads this
    {
      if channel == AddedOrUpdated then onAddedOrUpdated else onRemoved
    }

    /** `id` was registered on `channel` and has not been released. */
    ghost predicate Listens(id: SubscriberId, channel: Channel)
      reads this
    {
      id in issued && issued[id].channel == channel && id !in disposedAt
    }

    /**
      The invocation `n`, made at position `i` of the trace, went to a
      subscriber of its channel that was registered before it and not yet
      released.
     */
    ghost predicate Delivered(n: Notification<K, V>, i: nat)
      reads this
    {
      && n.subscriber in issued
      && issued[n.subscriber].channel == n.channel
      && issued[n.subscriber].at <= i
      && (n.subscriber in disposedAt ==> i < disposedAt[n.subscriber])
    }

    ghost predicate Valid()
      reads this
    {
      && inner == Replay(seed, history)
      && Distinct(onAddedOrUpdated) && Distinct(onRemoved)
      && (forall id: SubscriberId :: id in issued <==> id < nextId)
      && (forall id :: id in issued ==> issued[id].at <= |trace|)
      && (forall id :: id in onAddedOrUpdated <==> Listens(id, AddedOrUpdated))
      && (forall id :: id in onRemoved <==> Listens(id, Removed))
      && (forall id :: id in disposedAt ==> id in issued && issued[id].at <= disposedAt[id] <= |trace|)
      && (forall i :: 0 <= i < |trace| ==> Delivered(trace[i], i))
    }

    /** An empty dictionary with no subscribers. */
    constructor ()
      ensures Valid()
      ensures inner == map[] && history == [] && trace == []
      ensures onAddedOrUpdated == [] && onRemoved == []
    {
      inner := map[];
      onAddedOrUpdated, onRemoved, nextId := [], [], 0;
      seed, history, trace := map[], [], [];
      issued, disposedAt := map[], map[];
    }

    /**
      A dictionary holding the entries of `initialData`. A Dafny map is a
      value, so the C# constructor's copy of the dictionary is the map itself
      and cannot alias the caller's data.
     */
    constructor FromMap(initialData: map<K, V>)
      ensures Valid()
      ensures inner == initialData && seed == initialData && history == [] && trace == []
      ensures onAddedOrUpdated == [] && onRemoved == []
    {
      inner := initialData;
      onAddedOrUpdated, onRemoved, nextId := [], [], 0;
      seed, history, trace := initialData, [], [];
      issued, disposedAt := map[], map[];
    }

    /**
      The read-only view of the entries: the mapping that the history of
      writes produces from the initial data (see `History.ReplayLookup` for
      what that means key by key).
     */
    function Inner(): (view: map<K, V>)
      reads this
      requires Valid()
      ensures view == Replay(seed, history)
    {
      inner
    }

    /** Writes `key := value`, then raises the added/updated event. */
    method AddOrUpdate(key: K, value: V)
      requires Valid()
      modifies this
      ensures Valid()
      ensures inner == old(inner)[key := value]
      ensures history == old(history) + [Put(key, value)]
      ensures trace == old(trace) + Fanout(AddedOrUpdated, onAddedOrUpdated, key, value)
      ensures onAddedOrUpdated == old(onAddedOrUpdated) && onRemoved == old(onRemoved)
      ensures nextId == old(nextId) && seed == old(seed)
      ensures issued == old(issued) && disposedAt == old(disposedAt)
    {
      ReplaySnoc(seed, history, Put(key, value));
      inner := inner[key := value];
      history := history + [Put(key, value)];
      RaiseEvent(AddedOrUpdated, key, value);
    }

    /**
      Removes `key` when it is present and then raises the removed event with
      the value it had; an absent key changes nothing and raises nothing.
     */
    method RemoveKey(key: K) returns (removed: bool)
      requires Valid()
      modifies this
      ensures Valid()
      ensures removed <==> key in old(inner)
      ensures inner == old(inner) - {key}
      ensures !removed ==> inner == old(inner) && trace == old(trace)
      ensures removed ==> trace == old(trace) + Fanout(Removed, onRemoved, key, old(inner)[key])
      ensures history == old(history) + [Remove(key)]
      ensures onAddedOrUpdated == old(onAddedOrUpdated) && onRemoved == old(onRemoved)
      ensures nextId == old(nextId) && seed == old(seed)
      ensures issued == old(issued) && disposedAt == old(disposedAt)
    {
      ReplaySnoc(seed, history, Remove(key));
      history := history + [Remove(key)];
      if key in inner {
        var oldValue := inner[key];
        inner := inner - {key};
        RaiseEvent(Removed, key, oldValue);
        removed := true;
      } else {
        assert inner - {key} == inner;
        removed := false;
      }
    }

    /** `event?.Invoke(key, value)`: one invocation per registered subscriber, in order. */
    method RaiseEvent(channel: Channel, key: K, value: V)
      requires Valid()
      modifies this`trace
      ensures Valid()
      ensures trace == old(trace) + Fanout(channel, Subscribers(channel), key, value)
    {
      ghost var start := |trace|;
      ghost var sent := Fanout(channel, Subscribers(channel), key, value);
      trace := trace + sent;
      forall i | 0 <= i < |trace|
        ensures Delivered(trace[i], i)
      {
        if i >= start {
          assert trace[i] == sent[i - start];
          assert Listens(Subscribers(channel)[i - start], channel);
        } else {
          assert trace[i] == old(trace)[i];
        }
      }
    }

    /**
      Whether `key` has an entry: exactly when its latest write was an
      `AddOrUpdate` or, for a key never written, when the initial data held it.
     */
    method ContainsKey(key: K) returns (found: bool)
      requires Valid()
      ensures found <==> key in inner
      ensures found <==> LatestValue(seed, history, key).Some?
    {
      ReplayLookup(seed, history, key);
      found := key in inner;
    }

    /**
      The entry of `key` when there is one; otherwise `found` is false and
      `val` is unspecified.
     */
    method TryGetValue(key: K) returns (found: bool, val: V)
      requires Valid()
      ensures found <==> key in inner
      ensures found ==> val == inner[key]
      ensures found <==> LatestValue(seed, history, key).Some?
      ensures found ==> LatestValue(seed, history, key) == Some(val)
    {
      ReplayLookup(seed, history, key);
      found := key in inner;
      if found {
        val := inner[key];
      } else {
        val := *;
      }
    }

    /**
      Registers a fresh callback at the end of `channel`'s event field and
      hands back its handle. Nothing is replayed to it.
     */
    method Subscribe(channel: Channel) returns (handle: Subscription<K, V>)
      requires Valid()
      modifies this
      ensures Valid()
      ensures fresh(handle) && handle.Valid()
      ensures handle.store == this && handle.channel == channel && !handle.isDisposed
      ensures handle.subscriber !in old(issued) && handle.subscriber == old(nextId)
      ensures Subscribers(channel) == old(Subscribers(channel)) + [handle.subscriber]
      ensures Subscribers(Other(channel)) == old(Subscribers(Other(channel)))
      ensures issued == old(issued)[handle.subscriber := Registration(channel, |trace|)]
      ensures nextId == old(nextId) + 1
      ensures inner == old(inner) && history == old(history) && trace == old(trace)
      ensures seed == old(seed) && disposedAt == old(disposedAt)
    {
      var id := nextId;
      assert id !in Subscribers(channel) && id !in Subscribers(Other(channel));
      if channel == AddedOrUpdated {
        onAddedOrUpdated := onAddedOrUpdated + [id];
      } else {
        onRemoved := onRemoved + [id];
      }
      issued := issued[id := Registration(channel, |trace|)];
      nextId := nextId + 1;
      handle := new Subscription(this, channel, id);
    }

    /** `OnAddedOrUpdated += callback`, returning the handle whose disposal undoes it. */
    method SubscribeOnAddedOrUpdated() returns (handle: Subscription<K, V>)
      requires Valid()
      modifies this
      ensures Valid()
      ensures fresh(handle) && handle.Valid()
      ensures handle.store == this && handle.channel == AddedOrUpdated && !handle.isDisposed
      ensures handle.subscriber !in old(issued)
      ensures onAddedOrUpdated == old(onAddedOrUpdated) + [handle.subscriber]
      ensures onRemoved == old(onRemoved)
      ensures issued == old(issued)[handle.subscriber := Registration(AddedOrUpdated, |trace|)]
      ensures nextId == old(nextId) + 1
      ensures inner == old(inner) && history == old(history) && trace == old(trace)
      ensures seed == old(seed) && disposedAt == old(disposedAt)
    {
      handle := Subscribe(AddedOrUpdated);
    }

    /** `OnRemoved += callback`, returning the handle whose disposal undoes it. */
    method SubscribeOnRemoved() returns (handle: Subscription<K, V>)
      requires Valid()
      modifies this
      ensures Valid()
      ensures fresh(handle) && handle.Valid()
      ensures handle.store == this && handle.channel == Removed && !handle.isDisposed
      ensures handle.subscriber !in old(issued)
      ensures onRemoved == old(onRemoved) + [handle.subscriber]
      ensures onAddedOrUpdated == old(onAddedOrUpdated)
      ensures issued == old(issued)[handle.subscriber := Registration(Removed, |trace|)]
      ensures nextId == old(nextId) + 1
      ensures inner == old(inner) && history == old(history) && trace == old(trace)
      ensures seed == old(seed) && disposedAt == old(disposedAt)
    {
      handle := Subscribe(Removed);
    }

    /**
      `event -= callback` for the callback `id`: the dispose action of a
      subscription, or a direct removal from the public event. A registered
      `id` leaves its channel's event field and is recorded as released now;
      an `id` not in that field changes nothing.
     */
    method Unsubscribe(channel: Channel, id: SubscriberId)
      requires Valid()
      modifies this
      ensures Valid()
      ensures Subscribers(channel) == Without(old(Subscribers(channel)), id)
      ensures Subscribers(Other(channel)) == old(Subscribers(Other(channel)))
      ensures id in old(Subscribers(channel)) ==> |Subscribers(channel)| == |old(Subscribers(channel))| - 1
      ensures disposedAt == if id in old(Subscribers(channel)) then old(disposedAt)[id := |trace|] else old(disposedAt)
      ensures inner == old(inner) && history == old(history) && trace == old(trace)
      ensures seed == old(seed) && issued == old(issued) && nextId == old(nextId)
    {
      var registered := id in Subscribers(channel);
      if registered {
        WithoutRegistered(Subscribers(channel), id);
      }
      if channel == AddedOrUpdated {
        onAddedOrUpdated := Without(onAddedOrUpdated, id);
      } else {
        onRemoved := Without(onRemoved, id);
      }
      if registered {
        disposedAt := disposedAt[id := |trace|];
      }
    }

    /**
      Every invocation recorded after a subscriber was released is addressed
      to some other subscriber.
     */
    lemma ReleasedSubscriberIsSilent(id: SubscriberId, i: nat)
      requires Valid()
      requires id in disposedAt && disposedAt[id] <= i < |trace|
      ensures trace[i].subscriber != id
    {
    }

    /**
      Every invocation recorded before a subscriber was registered is
      addressed to some other subscriber: subscribing replays nothing.
     */
    lemma NoReplayBeforeSubscription(id: SubscriberId, i: nat)
      requires Valid()
      requires id in issued && i < issued[id].at
      ensures trace[i].subscriber != id
    {
    }
  }

  /** The disposable handle of one subscription. */
  class Subscription<K(==), V(0)> {
    const store: ReactiveDictionary<K, V>
    const channel: Channel
    const subscriber: SubscriberId
    var isDisposed: bool

    constructor (store: ReactiveDictionary<K, V>, channel: Channel, subscriber: SubscriberId)
      ensures this.store == store && this.channel == channel && this.subscriber == subscriber
      ensures !isDisposed
    {
      this.store := store;
      this.channel := channel;
      this.subscriber := subscriber;
      isDisposed := false;
    }

    /**
      The handle belongs to its store, and a disposed handle's subscriber has
      been released. A subscriber removed by a direct `-=` is released while
      its handle is not yet disposed.
     */
    ghost predicate Valid()
      reads this, store
    {
      && store.Valid()
      && subscriber in store.issued
      && store.issued[subscriber].channel == channel
      && (isDisposed ==> subscriber in store.disposedAt)
    }

    /**
      The first call unregisters the subscriber from its own channel, if it
      is still registered there, and marks the handle disposed; any later
      call changes nothing.
     */
    method Dispose()
      requires Valid()
      modifies this, store
      ensures Valid() && isDisposed
      ensures old(isDisposed) ==> unchanged(store)
      ensures !old(isDisposed) ==>
        && store.Subscribers(channel) == Without(old(store.Subscribers(channel)), subscriber)
        && subscriber !in store.Subscribers(channel)
        && store.Subscribers(Other(channel)) == old(store.Subscribers(Other(channel)))
        && store.disposedAt == (if subscriber in old(store.disposedAt) then old(store.disposedAt)
                                else old(store.disposedAt)[subscriber := |store.trace|])
        && store.inner == old(store.inner) && store.history == old(store.history)
        && store.trace == old(store.trace) && store.issued == old(store.issued)
        && store.nextId == old(store.nextId) && store.seed == old(store.seed)
      ensures !old(isDisposed) && subscriber !in old(store.disposedAt) ==>
        |store.Subscribers(channel)| == |old(store.Subscribers(channel))| - 1
    {
      if !isDisposed {
        store.Unsubscribe(channel, subscriber);
        isDisposed := true;
      }
    }
  }
}
