/**
  Subscribers and change notifications of a reactive dictionary.

  A C# event field is a multicast delegate: an ordered list of callbacks that
  `?.Invoke(key, value)` calls one after another. Here each callback is an
  opaque subscriber id, a channel's event field is a sequence of such ids, and
  one invocation of a callback is one `Notification` value.
 */
module Notifications {

  /** Identity of one registered callback. */
  type SubscriberId = nat

  /** The two independent events of the dictionary. */
  datatype Channel = AddedOrUpdated | Removed

  /** The channel that is not `ch`. */
  function Other(ch: Channel): (r: Channel)
    ensures r != ch
  {
    if ch == AddedOrUpdated then Removed else AddedOrUpdated
  }

  /** One callback invocation: `subscriber` was called on `channel` with (key, value). */
  datatype Notification<K, V> = Notification(channel: Channel, subscriber: SubscriberId, key: K, value: V)

  /** No subscriber id occurs twice in `s`. */
  predicate Distinct(s: seq<SubscriberId>)
  {
    forall i, j :: 0 <= i < j < |s| ==> s[i] != s[j]
  }

  /**
    The invocations made by raising the event of `channel` with (key, value)
    while `subscribers` are registered: one per subscriber, in subscription
    order, all on that channel and with exactly those arguments. An empty list
    gives no invocation, as `?.Invoke` on a null event does nothing.
   */
  function Fanout<K, V>(channel: Channel, subscribers: seq<SubscriberId>, key: K, value: V): (r: seq<Notification<K, V>>)
    ensures |r| == |subscribers|
    ensures forall i :: 0 <= i < |r| ==> r[i] == Notification(channel, subscribers[i], key, value)
    ensures forall n :: n in r ==> n.channel == channel && n.subscriber in subscribers && n.key == key && n.value == value
  {
    if subscribers == [] then []
    else [Notification(channel, subscribers[0], key, value)] + Fanout(channel, subscribers[1..], key, value)
  }

  /**
    The subscriber list after `event -= callback` for the callback `id`:
    `id` is gone, every other subscriber stays, and a list without `id` is
    left as it is.
   */
  function Without(s: seq<SubscriberId>, id: SubscriberId): (r: seq<SubscriberId>)
    ensures forall x :: x in r <==> x in s && x != id
    ensures id !in s ==> r == s
    ensures |r| <= |s|
    ensures Distinct(s) ==> Distinct(r)
  {
    if s == [] then []
    else if s[0] == id then Without(s[1..], id)
    else
      var rest := Without(s[1..], id);
      assert Distinct(s) ==> Distinct(s[1..]) && s[0] !in rest;
      assert forall j :: 0 < j < |[s[0]] + rest| ==> ([s[0]] + rest)[j] == rest[j - 1];
      [s[0]] + rest
  }

  /**
    On a list of distinct subscribers, removing the one at position `i` keeps
    all the others in their order: exactly one entry disappears.
   */
  lemma {:induction false} WithoutAt(s: seq<SubscriberId>, i: nat)
    requires Distinct(s)
    requires i < |s|
    ensures Without(s, s[i]) == s[..i] + s[i + 1..]
    ensures |Without(s, s[i])| == |s| - 1
  {
    if i == 0 {
      assert s[0] !in s[1..];
      assert Without(s[1..], s[0]) == s[1..];
    } else {
      assert Distinct(s[1..]);
      WithoutAt(s[1..], i - 1);
      assert s[1..][i - 1] == s[i];
      assert s[0] != s[i];
      assert s[1..][..i - 1] == s[1..i];
      assert s[1..][i..] == s[i + 1..];
      assert [s[0]] + s[1..i] == s[..i];
    }
  }

  /** Removing a subscriber that is registered shortens the list by exactly one. */
  lemma WithoutRegistered(s: seq<SubscriberId>, id: SubscriberId)
    requires Distinct(s)
    requires id in s
    ensures |Without(s, id)| == |s| - 1
  {
  }
}
