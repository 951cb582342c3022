/**
 The arrays and Maps that the reducer mutates in place: objects with an identity, so that two holders can share one.
 */
module Containers {
  import opened Prelude

  class ListCell<T> {
    var items: seq<T>

    constructor (items: seq<T>)
      ensures this.items == items
    {
      this.items := items;
    }

    method Push(item: T)
      modifies this
      ensures items == old(items) + [item]
    {
      items := items + [item];
    }

    /** Splice all but the last `maximum` items away. */
    method KeepLast(maximum: nat)
      modifies this
      ensures items == if |old(items)| > maximum then old(items)[|old(items)| - maximum..] else old(items)
    {
      if |items| > maximum { items := items[|items| - maximum..]; }
    }
  }

  class TableCell<V> {
    var table: Table<V>

    constructor (table: Table<V>)
      ensures this.table == table
    {
      this.table := table;
    }

    method Set(key: string, value: V)
      modifies this
      ensures table == Put(old(table), key, value)
    {
      table := Put(table, key, value);
    }
  }
}
