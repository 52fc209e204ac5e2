/**
  Clients of the dictionary that rely on the contracts alone.
 */
module Scenario {
  import opened Notifications
  import opened Reactive

  /** Two writes and two removals of one key, observed by one subscriber per channel. */
  method WriteThenRemove()
  {
    var d := new ReactiveDictionary<string, int>();
    var onPut := d.SubscribeOnAddedOrUpdated();
    var onRemove := d.SubscribeOnRemoved();
    var p, r := onPut.subscriber, onRemove.subscriber;

    d.AddOrUpdate("a", 1);
    d.AddOrUpdate("a", 2);
    assert d.trace == [Notification(AddedOrUpdated, p, "a", 1), Notification(AddedOrUpdated, p, "a", 2)];

    var removed := d.RemoveKey("a");
    assert removed && d.inner == map[];
    assert d.trace[2] == Notification(Removed, r, "a", 2);

    removed := d.RemoveKey("a");
    assert !removed && |d.trace| == 3;
  }

  /** A write after the only subscriber disposed its handle, twice, notifies nobody. */
  method WriteAfterDispose()
  {
    var d := new ReactiveDictionary<string, int>();
    var onPut := d.SubscribeOnAddedOrUpdated();
    onPut.Dispose();
    onPut.Dispose();
    assert d.onAddedOrUpdated == [];
    d.AddOrUpdate("b", 3);
    assert d.trace == [];
  }

  /**
    The events are public, so a callback can be removed without its handle.
    Disposing the handle afterwards is still allowed and changes nothing more;
    removing a callback that is not registered changes nothing at all.
   */
  method DirectRemovalThenDispose()
  {
    var d := new ReactiveDictionary<string, int>();
    var onPut := d.SubscribeOnAddedOrUpdated();
    d.Unsubscribe(AddedOrUpdated, onPut.subscriber);
    assert d.onAddedOrUpdated == [];
    d.Unsubscribe(Removed, onPut.subscriber);
    assert d.onRemoved == [];
    onPut.Dispose();
    assert onPut.isDisposed && d.onAddedOrUpdated == [];
  }
}
