/**
 * The browser's `localStorage` as the application's stores use it: one key, read with
 * `getItem` and `JSON.parse`, written with `setItem(JSON.stringify(...))`. The JSON text
 * itself is not modelled; a slot holds the parsed value, or records that there was none
 * or that it did not parse.
 */
module LocalStorage {
  import opened Sorting

  /**
   * One key's content: nothing (null or the empty string), text that does not parse to
   * the expected shape (the reader's `JSON.parse` or a later step throws), or a value.
   */
  datatype Slot<T> = Missing | Garbled | Holds(value: T)

  /** `setItem`: a write either succeeds or throws (quota exceeded) and changes nothing. */
  function Write<T>(slot: Slot<T>, v: T, ok: bool): (r: Slot<T>)
    ensures r == (if ok then Holds(v) else slot)
  {
    if ok then Holds(v) else slot
  }

  /**
   * The comparator `(a, b) => b.timestamp - a.timestamp` as an ordering: `a` may stay
   * before `b` exactly when it is not older.
   */
  function NewerOrSame<T(!new)>(stamp: T -> int): (le: (T, T) -> bool)
    ensures forall a, b :: le(a, b) <==> stamp(a) >= stamp(b)
  {
    (a, b) => stamp(a) >= stamp(b)
  }

  lemma NewerOrSameIsTotalPreorder<T(!new)>(stamp: T -> int)
    ensures TotalPreorder(NewerOrSame(stamp))
  {
  }

  /**
   * A stored list read back most recent first; nothing stored and unreadable text both read
   * as the empty list (the readers' `if (!stored) return []` and their `catch`).
   */
  function ReadNewestFirst<T(!new)>(slot: Slot<seq<T>>, stamp: T -> int): (r: seq<T>)
    ensures Sorted(r, NewerOrSame(stamp))
    ensures slot.Holds? ==> multiset(r) == multiset(slot.value)
    ensures !slot.Holds? ==> r == []
  {
    NewerOrSameIsTotalPreorder(stamp);
    if slot.Holds? then SortBy(slot.value, NewerOrSame(stamp)) else []
  }

  /** A list stored newest first reads back exactly as stored. */
  lemma ReadStoredInOrder<T(!new)>(items: seq<T>, stamp: T -> int)
    requires Sorted(items, NewerOrSame(stamp))
    ensures ReadNewestFirst(Holds(items), stamp) == items
  {
    NewerOrSameIsTotalPreorder(stamp);
    SortSortedIsIdentity(items, NewerOrSame(stamp));
  }
}
