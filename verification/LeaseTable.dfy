/** The fixed-capacity table of leases, updated in place. */
module LeaseTables {
  import opened Wrappers
  import opened Leases

  class LeaseTable<K(==), X> {
    const capacity: nat
    var entries: seq<LeaseEntry<K, X>>

    constructor (capacity: nat)
      ensures this.capacity == capacity && entries == []
    {
      this.capacity := capacity;
      entries := [];
    }

    method IsFull() returns (full: bool)
      ensures full == (|entries| >= capacity)
    {
      full := |entries| >= capacity;
    }

    /** One retaining pass: collection, or removal by scope, key or both. */
    method RetainMut(sweep: Sweep<K>)
      modifies this
      ensures entries == Swept(old(entries), sweep)
    {
      var kept := [];
      for i := 0 to |entries|
        invariant entries == old(entries)
        invariant kept == Swept(entries[..i], sweep)
      {
        assert entries[..i + 1][..i] == entries[..i];
        var next := Retained(entries[i], sweep);
        if next.Some? {
          kept := kept + [next.value];
        }
      }
      assert entries[..|entries|] == entries;
      entries := kept;
    }

    /** Position of the first entry with `key`, or the length. */
    method Find(key: K) returns (pos: nat)
      ensures pos == KeyIndex(entries, key)
    {
      pos := 0;
      while pos < |entries| && entries[pos].key != key
        invariant pos <= |entries|
        invariant forall i :: 0 <= i < pos ==> entries[i].key != key
      {
        pos := pos + 1;
      }
    }

    /** Position of the first entry with `key` in `scope`, or the length. */
    method FindScoped(key: K, scope: nat) returns (pos: nat)
      ensures pos == ScopedIndex(entries, key, scope)
    {
      pos := 0;
      while pos < |entries| && !(entries[pos].key == key && entries[pos].scope == scope)
        invariant pos <= |entries|
        invariant forall i :: 0 <= i < pos ==> entries[i].key != key || entries[i].scope != scope
      {
        pos := pos + 1;
      }
    }

    /** Membership at `now`, advancing or removing only the entry looked at. */
    method ContainsKeyAt(key: K, now: Instant) returns (found: bool)
      modifies this
      ensures (entries, found) == LazilyChecked(old(entries), key, now)
    {
      var pos := Find(key);
      if pos == |entries| {
        return false;
      }
      var kept := entries[pos].kind.GcRetain(now);
      if kept.Some? {
        entries := entries[pos := entries[pos].(kind := kept.value)];
        found := true;
      } else {
        entries := SwapRemoved(entries, pos);
        found := false;
      }
    }

    /** Overwrite the state of one entry, as a mutable borrow of it would. */
    method Update(pos: nat, entry: LeaseEntry<K, X>)
      requires pos < |entries|
      modifies this
      ensures entries == old(entries)[pos := entry]
    {
      entries := entries[pos := entry];
    }

    method Push(key: K, scope: nat, extra: X, kind: LeaseKind) returns (pushed: bool)
      modifies this
      ensures pushed == (|old(entries)| < capacity)
      ensures entries == if pushed then old(entries) + [LeaseEntry(key, scope, extra, kind)] else old(entries)
    {
      pushed := |entries| < capacity;
      if pushed {
        entries := entries + [LeaseEntry(key, scope, extra, kind)];
      }
    }
  }
}
