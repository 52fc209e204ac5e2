# ReactiveDictionary in Dafny

A model of `ReactiveDictionary<TKey, TValue>`, a key-value map that raises a
change event whenever an entry is written or removed. There are two
independent events: `OnAddedOrUpdated` is raised with `(key, value)` after
every `AddOrUpdate`. `OnRemoved` is raised with `(key, oldValue)` after a
`RemoveKey` that found the key. `SubscribeOnAddedOrUpdated` and
`SubscribeOnRemoved` register a callback and return a disposable handle.
The first `Dispose` on it unregisters the callback. Later calls do nothing.
Both events are also public, so a caller can use `+=` and `-=` on them
directly, without a handle.

Modules:

- `Notifications` (notifications.dfy) models the event fields. Each
  callback is an opaque `SubscriberId`, and each event field is the ordered
  sequence of registered ids. `Fanout` gives the invocations that raising an
  event makes, and `Without` gives the list after `-=`.
- `History` (history.dfy) models the contents as a replay of writes. `Op` is
  one `Put` or `Remove`. `Replay` applies a sequence of them. `LatestValue`
  reads a key's value back from the end of the history.
- `Reactive` (reactive_dictionary.dfy) holds two classes.
  `ReactiveDictionary` has the `inner` map, the two event fields, and the
  ghost state described below. `Subscription` is the disposable handle, with
  its mutable `isDisposed` flag.
- `Scenario` (scenario.dfy) holds three client methods. They use only the
  contracts. One writes and removes a key, one writes after a subscriber
  has disposed its handle, and one removes a callback directly and then
  disposes its handle.

Callbacks are never run. Raising an event appends one
`Notification(channel, subscriber, key, value)` per registered subscriber,
in subscription order, to the ghost sequence `trace`. The store's invariant
`Valid()` also uses four other ghost fields:

- `history`: every write made since construction;
- `seed`: the initial data;
- `issued`: when and on which channel each subscriber registered;
- `disposedAt`: when each subscriber was released.

`Valid()` ties these together. `inner` is `Replay(seed, history)`. A
subscriber is in its channel's list exactly when it is registered and not
yet released. Every notification in `trace` went to a subscriber of that
channel that registered before it and had not been released.

Subscriber ids come from a counter, `nextId`. One id stands for one `+=`
registration of a callback. C# matches delegates by equality, not by object
identity (see "Delegate equality" below).

## Model

| member | source | states |
|---|---|---|
| `Notifications.Fanout` | ReactiveDictionary.cs:20 | Raising an event makes exactly one invocation per registered subscriber, in subscription order. Each invocation is on that channel and carries exactly the given key and value. No subscriber means no invocation. |
| `Notifications.Without` | ReactiveDictionary.cs:49 | After `-=`, the list holds every other subscriber and not the removed one. A list without that subscriber is left unchanged. Distinctness is preserved. |
| `Notifications.WithoutAt` | ReactiveDictionary.cs:55 | On distinct subscribers, `-=` removes exactly the entry at its position and keeps all others in their order. |
| `Notifications.WithoutRegistered` | ReactiveDictionary.cs:49 | Unregistering a registered subscriber shortens its list by exactly one. |
| `History.ReplaySnoc` | ReactiveDictionary.cs:19 | Appending a write to the history applies that write (`m[k := v]` or `m - {k}`) to the replayed map. |
| `History.ReplayLookup` | ReactiveDictionary.cs:17-34 | After any sequence of `AddOrUpdate`/`RemoveKey`, a key maps to the value of its last `AddOrUpdate` that no later `RemoveKey` followed. A key whose last write was a removal has no entry. A key never written keeps its initial entry. |
| `Reactive.ReactiveDictionary.constructor` | ReactiveDictionary.cs:9-10 | A new dictionary is empty, has no subscribers and has emitted nothing. |
| `Reactive.ReactiveDictionary.FromMap` | ReactiveDictionary.cs:12-13 | The seeded dictionary holds exactly the initial data, has no subscribers and has emitted nothing. |
| `Reactive.ReactiveDictionary.Inner` | ReactiveDictionary.cs:15 | The read-only view is the map that the write history produces from the initial data. |
| `Reactive.ReactiveDictionary.AddOrUpdate` | ReactiveDictionary.cs:17-21 | `inner[key] == value` and every other entry is unchanged. One `(key, value)` notification goes to each added/updated subscriber, in order. Nothing is sent on the removed channel. The subscriber lists are unchanged, and the invariant is kept. |
| `Reactive.ReactiveDictionary.RemoveKey` | ReactiveDictionary.cs:23-34 | Returns true exactly when the key was present. If present, the map becomes `old - {key}` and `(key, oldValue)` goes to each removed-channel subscriber, in order. If absent, the map and trace are unchanged. Nothing is ever sent on the added/updated channel. |
| `Reactive.ReactiveDictionary.RaiseEvent` | ReactiveDictionary.cs:28 | `event?.Invoke(key, value)` (also line 20) appends the fan-out of the channel's current subscribers to the trace. Every new entry goes to a registered, unreleased subscriber. |
| `Reactive.ReactiveDictionary.ContainsKey` | ReactiveDictionary.cs:36-37 | True exactly when the key has an entry. That holds exactly when the key's latest write is an `AddOrUpdate` or, for a key never written, when the initial data held it. Changes nothing. |
| `Reactive.ReactiveDictionary.TryGetValue` | ReactiveDictionary.cs:39-40 | `found` holds exactly when the key has an entry. Then `val` is its value: the value of its latest `AddOrUpdate` or, for a key never written, its initial entry. Changes nothing. |
| `Reactive.ReactiveDictionary.Subscribe` | ReactiveDictionary.cs:42-56 | Appends a fresh subscriber to that channel's list only. Map, history, trace and the other channel are unchanged, so nothing is replayed. Returns a fresh, valid, undisposed handle for it. |
| `Reactive.ReactiveDictionary.SubscribeOnAddedOrUpdated` | ReactiveDictionary.cs:42-50 | `OnAddedOrUpdated += callback` with no replay, because the replay loop is commented out. The removed channel, map and trace are unchanged. |
| `Reactive.ReactiveDictionary.SubscribeOnRemoved` | ReactiveDictionary.cs:52-56 | `OnRemoved += callback`. The other channel, map and trace are unchanged. |
| `Reactive.ReactiveDictionary.Unsubscribe` | ReactiveDictionary.cs:49 | `event -= callback` (also line 55), used by the dispose action or directly on the public event. A registered subscriber leaves its own channel only, by exactly one entry, and its release time is recorded. An id not in that channel changes nothing. Map and trace are unchanged. |
| `Reactive.ReactiveDictionary.ReleasedSubscriberIsSilent` | ReactiveDictionary.cs:66-73 | No notification recorded after a subscriber's release is addressed to it. |
| `Reactive.ReactiveDictionary.NoReplayBeforeSubscription` | ReactiveDictionary.cs:46-47 | No notification recorded before a subscriber registered is addressed to it. |
| `Reactive.Subscription.constructor` | ReactiveDictionary.cs:63-64 | A handle starts out not disposed, bound to its store, channel and subscriber. |
| `Reactive.Subscription.Dispose` | ReactiveDictionary.cs:66-73 | The first call removes the subscriber from its own channel and sets `isDisposed`. That removes exactly one entry if the subscriber was not already removed by a direct `-=`, and nothing otherwise. The other channel, map and trace are unchanged. Any later call leaves the store unchanged. |

## Left out

- Callback execution: callbacks are foreign delegates. Each invocation is a
  ghost `Notification` entry, so what a callback does is not modelled.
- Exceptions thrown by a callback: in C# a throwing handler of a multicast
  event stops the remaining handlers after the map has changed. The model
  assumes every callback returns.
- Failure isolation and locking: the code catches no observer failure and
  takes no lock, and the model adds neither.
- Delegate equality: `-=` removes the last occurrence of an equal delegate,
  so the same callback subscribed twice is removed once per dispose. Here
  every subscription gets a fresh id, so each list holds an id at most
  once, and `Without` removes that one entry.
- Direct `+=` and `-=` on the public events (ReactiveDictionary.cs:6-7):
  a direct `+=` is modelled as `Subscribe` with the handle discarded. A
  direct `-=` is `Unsubscribe`. A callback removed that way counts as
  released, and its handle may still be disposed.
- Reentrancy: a callback that writes to the dictionary or subscribes during
  a fan-out is not modelled, because callbacks do not run.
- `Reactive.ReactiveDictionary.Inner`: C# returns the store's own
  `Dictionary`, typed as `IReadOnlyDictionary`, not a copy or a wrapper. The
  model returns the current map as a value instead. So it captures neither
  that the view shows later writes nor the write path of a caller that casts
  the view back to `Dictionary` and adds or removes entries. Such writes
  raise no event and bypass the history, and they are not modelled.
- `Reactive.ReactiveDictionary.TryGetValue`: does not say which value `val`
  holds when the key is absent. C# gives `default(TValue)`, and a generic
  Dafny type has no named default value.
- `Reactive.ReactiveDictionary.FromMap`: the C# copy constructor copies a
  `Dictionary`. A Dafny map is already a value, so the copy never aliases
  the caller's data.
- Null and multicast callbacks: each `SubscriberId` stands for one non-null
  callback with a single invocation. In C#, `+= null` registers nothing and
  the matching `-= null` does nothing, while the model always registers a
  fresh subscriber. A callback that is itself a multicast delegate is added
  as several invocations and removed as a sub-list, while the model counts
  it as one subscriber.
- Null keys and null initial data: `AddOrUpdate`, `RemoveKey`, `ContainsKey`
  and `TryGetValue` throw `ArgumentNullException` on a null key, and so does
  the copy constructor on null `initialData`. Dafny values are never null, so
  these inputs are outside the model.
- `[Serializable]`, Unity serialisation, the `IReadOnlyDictionary` interface
  and key hashing: keys are a Dafny equality type.
