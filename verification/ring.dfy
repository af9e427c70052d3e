/** The ring buffer of internal/sys/ring.go, against the sequence of items added since
    the last flush. */
module Ring {

  import opened Arithmetic

  /** The last `n` items of a history. */
  function Last<T>(history: seq<T>, n: nat): (r: seq<T>)
    ensures |r| == Min(n, |history|)
  {
    if n < |history| then history[|history| - n..] else history
  }

  class RingBuffer<T(0)> {
    var length: int
    var capacity: int
    var elements: array<T>
    var idx: int
    /** The items added since the last flush, oldest first. */
    ghost var history: seq<T>

    /** Item `k` of the history, if it is among the last `capacity`, is in cell
        `k % capacity`, and the next item goes to cell `|history| % capacity`. */
    ghost predicate Valid()
      reads this, elements
    {
      && capacity > 0 && elements.Length == capacity
      && length == Min(capacity, |history|)
      && idx == |history| % capacity
      && forall k :: 0 <= k < |history| && |history| - k <= capacity ==> elements[k % capacity] == history[k]
    }

    constructor (cap: nat)
      requires cap > 0
      ensures Valid() && history == [] && capacity == cap && fresh(elements)
    {
      length, capacity, idx := 0, cap, 0;
      elements := new T[cap];
      history := [];
    }

    method Add(item: T)
      requires Valid()
      modifies this, elements
      ensures Valid() && capacity == old(capacity) && elements == old(elements)
      ensures history == old(history) + [item]
    {
      elements[idx] := item;
      NextCell(|history|, capacity);
      forall k | 0 <= k < |history| && |history| + 1 - k <= capacity
        ensures k % capacity != idx
      {
        CellsDiffer(k, |history|, capacity);
      }
      idx := (idx + 1) % capacity;
      length := Min(capacity, length + 1);
      history := history + [item];
    }

    method Len() returns (n: int)
      requires Valid()
      ensures n == Min(capacity, |history|)
    {
      n := length;
    }

    method Flush()
      requires Valid()
      modifies this
      ensures Valid() && capacity == old(capacity) && fresh(elements) && history == []
    {
      length := 0;
      elements := new T[capacity];
      idx := 0;
      history := [];
    }

    /** The last `n` items, or all that are kept, oldest first; nothing for n <= 0. */
    method Get(n: int) returns (items: array<T>)
      requires Valid()
      ensures fresh(items)
      ensures items[..] == if n <= 0 then [] else Last(history, Min(n, capacity))
    {
      if n <= 0 { return new T[0]; }
      var m := Min(n, length);
      items := new T[m];
      var i := 0;
      while i < m
        invariant 0 <= i <= m
        invariant forall k :: m - i <= k < m ==> items[k] == history[|history| - m + k]
      {
        var cell := idx - 1 - i;
        if cell < 0 {
          cell := capacity + cell;
        }
        CellBack(|history|, capacity, i + 1);
        items[m - i - 1] := elements[cell];
        i := i + 1;
      }
      assert items[..] == Last(history, Min(n, capacity));
    }
  }

  // ----- Whole sequences of events

  datatype Event<T> = Added(item: T) | Flushed

  /** What was added after the last flush. */
  function SinceFlush<T>(events: seq<Event<T>>): seq<T> {
    if events == [] then []
    else match events[|events| - 1]
      case Flushed => []
      case Added(item) => SinceFlush(events[..|events| - 1]) + [item]
  }

  /** After any sequence of additions and flushes, `Get` answers from what was added
      after the last flush. */
  method GetAfter<T(0)>(cap: nat, events: seq<Event<T>>, n: int) returns (items: seq<T>)
    requires cap > 0
    ensures items == if n <= 0 then [] else Last(SinceFlush(events), Min(n, cap))
  {
    var ring := new RingBuffer<T>(cap);
    for i := 0 to |events|
      invariant ring.Valid() && ring.capacity == cap && ring.history == SinceFlush(events[..i])
      invariant fresh(ring) && fresh(ring.elements)
    {
      assert events[..i + 1][..i] == events[..i];
      match events[i] {
        case Added(item) => ring.Add(item);
        case Flushed => ring.Flush();
      }
    }
    assert events[..|events|] == events;
    var slice := ring.Get(n);
    items := slice[..];
  }

  // ----- Cells

  lemma NextCell(n: nat, m: nat)
    requires m > 0
    ensures (n % m + 1) % m == (n + 1) % m
  {
    Successor(n, m);
    NextIndex(n % m + 1, m);
  }

  /** The cell `back` places before the next one. */
  lemma CellBack(n: nat, m: nat, back: nat)
    requires m > 0 && 1 <= back <= m && back <= n
    ensures (n - back) % m == if n % m - back < 0 then m + (n % m - back) else n % m - back
  {
    var q, r := n / m, n % m;
    if r >= back {
      QuotientIs(n - back, m, q, r - back);
    } else {
      QuotientIs(n - back, m, q - 1, m + r - back);
    }
  }

  lemma CellsDiffer(k: nat, n: nat, m: nat)
    requires m > 0 && k < n && n - k < m
    ensures k % m != n % m
  {
    CellBack(n, m, n - k);
  }
}
