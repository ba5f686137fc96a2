/** The plain meaning of the Iterator interface: a position in a list, or nowhere. */
module Cursors {
  import opened InternalKeys
  import opened Versions

  datatype Cursor<T> = Cursor(items: seq<T>, at: Option<nat>) {
    predicate Valid() { at.Some? && at.value < |items| }

    function Item(): T
      requires Valid()
    {
      items[at.value]
    }

    /** Positions outside the list are nowhere. */
    function ToIndex(n: int): Cursor<T> {
      Cursor(items, if 0 <= n < |items| then Some(n) else None)
    }

    function First(): Cursor<T> { ToIndex(0) }

    function Last(): Cursor<T> { ToIndex(|items| - 1) }

    function Next(): Cursor<T>
      requires Valid()
    {
      ToIndex(at.value + 1)
    }

    function Prev(): Cursor<T>
      requires Valid()
    {
      ToIndex(at.value - 1)
    }
  }

  /** To the first entry at or after key. */
  function SeekEntry(c: Cursor<Entry>, key: IKey): Cursor<Entry> {
    c.ToIndex(LowerBound(c.items, key))
  }
}
