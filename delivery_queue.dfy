/**
  The appender's message queue: a BlockingCollection bounded at QUEUE_SIZE,
  and the overflow policy of addLine, which makes room by taking the oldest
  line and so never blocks the producer.
 */
module DeliveryQueue {

  const QueueSize: nat := 32768

  /** The last n elements of s. */
  function Newest(s: seq<string>, n: nat): seq<string>
    requires n <= |s|
  {
    s[|s| - n..]
  }

  /** How many of n lines a queue of the given capacity holds. */
  function Fit(n: nat, capacity: nat): nat {
    if n <= capacity then n else capacity
  }

  /** The pending lines after addLine(line): a full queue loses its oldest line, then line goes last. */
  function Offer(q: seq<string>, line: string, capacity: nat): (r: seq<string>)
    requires 0 < capacity && |q| <= capacity
    ensures r == Newest(q + [line], Fit(|q| + 1, capacity))
  {
    if |q| < capacity then q + [line] else q[1..] + [line]
  }

  /** The pending lines after addLine for each of lines, in order. */
  function OfferAll(q: seq<string>, lines: seq<string>, capacity: nat): (r: seq<string>)
    requires 0 < capacity && |q| <= capacity
    ensures |r| <= capacity
    decreases |lines|
  {
    if lines == [] then q else OfferAll(Offer(q, lines[0], capacity), lines[1..], capacity)
  }

  /**
    Whatever is added, the queue holds the newest lines in the order they
    were added, as many as fit: eviction only ever removes from the front.
   */
  lemma {:induction false} OfferAllKeepsNewest(q: seq<string>, lines: seq<string>, capacity: nat)
    requires 0 < capacity && |q| <= capacity
    ensures OfferAll(q, lines, capacity) == Newest(q + lines, Fit(|q| + |lines|, capacity))
    decreases |lines|
  {
    if lines == [] {
      assert q + lines == q;
    } else {
      OfferAllKeepsNewest(Offer(q, lines[0], capacity), lines[1..], capacity);
      OfferAllStep(q, lines, capacity);
    }
  }

  /** The inductive step of OfferAllKeepsNewest: from the claim after the first line to the claim for all. */
  lemma OfferAllStep(q: seq<string>, lines: seq<string>, capacity: nat)
    requires 0 < capacity && |q| <= capacity && lines != []
    requires var q1 := Offer(q, lines[0], capacity);
             OfferAll(q1, lines[1..], capacity) == Newest(q1 + lines[1..], Fit(|q1| + |lines[1..]|, capacity))
    ensures OfferAll(q, lines, capacity) == Newest(q + lines, Fit(|q| + |lines|, capacity))
  {
    var q1 := Offer(q, lines[0], capacity);
    var n := Fit(|q| + |lines|, capacity);
    OfferLength(q, lines[0], capacity);
    FitShift(|q|, |lines| - 1, capacity);
    OfferThenRest(q, lines, capacity, n);
  }

  /** The first line's Offer followed by the remaining lines keeps the same newest lines as q + lines. */
  lemma OfferThenRest(q: seq<string>, lines: seq<string>, capacity: nat, n: nat)
    requires 0 < capacity && |q| <= capacity && lines != []
    requires n <= Fit(|q| + 1, capacity) + |lines| - 1
    ensures Newest(Offer(q, lines[0], capacity) + lines[1..], n) == Newest(q + lines, n)
  {
    NewestAppend(q + [lines[0]], lines[1..], Fit(|q| + 1, capacity), n);
    assert (q + [lines[0]]) + lines[1..] == q + lines;
  }

  lemma OfferLength(q: seq<string>, line: string, capacity: nat)
    requires 0 < capacity && |q| <= capacity
    ensures |Offer(q, line, capacity)| == Fit(|q| + 1, capacity)
  {
  }

  lemma FitShift(a: nat, b: nat, capacity: nat)
    requires a <= capacity
    ensures Fit(Fit(a + 1, capacity) + b, capacity) == Fit(a + 1 + b, capacity)
  {
  }

  /** Keeping the newest k of s, appending t, and keeping the newest n is keeping the newest n of s + t. */
  lemma NewestAppend(s: seq<string>, t: seq<string>, k: nat, n: nat)
    requires k <= |s| && n <= k + |t|
    ensures Newest(Newest(s, k) + t, n) == Newest(s + t, n)
  {
    var u := Newest(s, k) + t;
    assert u == (s + t)[|s| - k..];
    assert u[|u| - n..] == (s + t)[|s| + |t| - n..];
  }

  /** Below capacity nothing is lost: the queue is exactly the old lines followed by the new ones. */
  lemma OfferAllWithoutOverflow(q: seq<string>, lines: seq<string>, capacity: nat)
    requires 0 < capacity && |q| + |lines| <= capacity
    ensures OfferAll(q, lines, capacity) == q + lines
  {
    OfferAllKeepsNewest(q, lines, capacity);
  }

  /** A full queue loses exactly its oldest line. */
  lemma OfferWhenFull(q: seq<string>, line: string, capacity: nat)
    requires 0 < capacity && |q| == capacity
    ensures Offer(q, line, capacity) == q[1..] + [line]
  {
  }

  /** The BlockingCollection, used sequentially: TryAdd fails only when full, Take needs a line. */
  class BoundedQueue {
    const capacity: nat
    var items: seq<string>

    ghost predicate Valid()
      reads this
    {
      0 < capacity && |items| <= capacity
    }

    constructor (capacity: nat)
      requires 0 < capacity
      ensures Valid() && this.capacity == capacity && items == []
    {
      this.capacity := capacity;
      items := [];
    }

    method TryAdd(line: string) returns (added: bool)
      requires Valid()
      modifies this
      ensures Valid()
      ensures added == (|old(items)| < capacity)
      ensures items == if added then old(items) + [line] else old(items)
    {
      added := |items| < capacity;
      if added {
        items := items + [line];
      }
    }

    method Take() returns (line: string)
      requires Valid() && |items| > 0
      modifies this
      ensures Valid()
      ensures line == old(items)[0] && items == old(items)[1..]
    {
      line := items[0];
      items := items[1..];
    }
  }
}
