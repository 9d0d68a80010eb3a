/** The multi-tail ringbuffer of `lib/misc/lws-ring.c`.

    Positions (`head`, `oldestTail` and the tails the consumers keep) are slot numbers: the
    C code keeps the byte offset `slot * element_len`, and `FreeCountInBytes` and
    `WaitingCountInBytes` tie its byte formulas to the slot formulas used here.

    Positions wrap.  The specification counts them absolutely instead: `log` is everything ever
    inserted, `base` is how much of it has been retired, and position `p` is held as `SlotOf(slots, p)`. */
module Ring {
  import opened Basics

  // ----- wrap-around arithmetic -----

  /** `n * b` exceeds `n * a` by `n * (b - a)`, which is at least `n` once `b > a`. */
  lemma MultipleGap(n: nat, a: nat, b: nat)
    requires a < b
    ensures n * b == n * a + n * (b - a)
    ensures n * (b - a) >= n
  {
    var d := b - a;
    assert n * (a + d) == n * a + n * d;
    assert n * (d - 1) + n == n * d;
  }

  lemma QuotientIsUnique(n: nat, q: nat, r: nat, q': nat, r': nat)
    requires r < n && r' < n
    requires n * q + r == n * q' + r'
    ensures q == q'
  {
    if q < q' {
      MultipleGap(n, q, q');
    } else if q' < q {
      MultipleGap(n, q', q);
    }
  }

  lemma ModOfMultiple(n: nat, q: nat, r: nat)
    requires r < n
    ensures (n * q + r) % n == r
    ensures (n * q + r) / n == q
  {
    var a := n * q + r;
    QuotientIsUnique(n, q, r, a / n, a % n);
  }

  /** The slot that absolute position `a` lands in, in a ring of `n` slots. */
  function SlotOf(n: nat, a: nat): (slot: nat)
    requires n > 0
    ensures slot < n
  {
    if a < n then a else SlotOf(n, a - n)
  }

  lemma {:induction false} SlotOfIsRemainder(n: nat, a: nat)
    requires n > 0
    ensures SlotOf(n, a) == a % n
  {
    if a >= n {
      SlotOfIsRemainder(n, a - n);
      var q, r := (a - n) / n, (a - n) % n;
      assert a == n * (q + 1) + r;
      ModOfMultiple(n, q + 1, r);
    } else {
      ModOfMultiple(n, 0, a);
    }
  }

  /** Moving a position on by at most a lap wraps at most once. */
  lemma {:induction false} SlotAdvance(n: nat, a: nat, d: nat)
    requires d <= n && n > 0
    ensures SlotOf(n, a + d) == Wrapped(n, SlotOf(n, a) + d)
  {
    if a >= n {
      SlotAdvance(n, a - n, d);
      assert a + d - n == (a - n) + d;
    }
  }

  function Wrapped(n: nat, p: nat): (slot: nat)
    requires p < 2 * n
    ensures slot < n
  {
    if p < n then p else p - n
  }

  /** Less than a lap apart, two positions share a slot only if they are the same position. */
  lemma SlotDeterminesPosition(n: nat, a: nat, b: nat)
    requires a <= b < a + n
    requires SlotOf(n, a) == SlotOf(n, b)
    ensures a == b
  {
    SlotAdvance(n, a, b - a);
  }

  /** `(p + d) % n`, the way every position in the ring is moved on */
  method Bump(n: nat, p: nat, d: nat) returns (slot: nat)
    requires p < n && d <= n
    ensures p + d < 2 * n && slot == Wrapped(n, p + d)
  {
    if p + d < n {
      ModOfMultiple(n, 0, p + d);
    } else {
      ModOfMultiple(n, 1, p + d - n);
    }
    slot := (p + d) % n;
  }

  // ----- the two counting functions -----

  /** lws_ring_get_count_waiting_elements() */
  function Waiting(slots: nat, head: nat, tail: nat): (count: nat)
    requires head < slots && tail < slots
  {
    if head == tail then 0
    else if head > tail then head - tail
    else (slots - tail) + head
  }

  /** lws_ring_get_count_free_elements(), for elements of two or more bytes */
  function Free(slots: nat, head: nat, oldest: nat): (count: nat)
    requires head < slots && oldest < slots
  {
    if head == oldest then slots - 1
    else if head < oldest then (oldest - head) - 1
    else (slots - head) + oldest - 1
  }

  /** The wrapped formulas measure true distance, whichever way the wrapped positions compare. */
  lemma CountsAreDistances(slots: nat, head: nat, tail: nat)
    requires tail <= head < tail + slots
    ensures Waiting(slots, SlotOf(slots, head), SlotOf(slots, tail)) == head - tail
    ensures Free(slots, SlotOf(slots, head), SlotOf(slots, tail)) == slots - 1 - (head - tail)
  {
    SlotAdvance(slots, tail, head - tail);
  }

  /** The C code's free count, on byte offsets; note the `f < 2` cut-off. */
  function FreeInBytes(buflen: nat, elementLen: nat, head: nat, oldest: nat): (count: int)
    requires elementLen > 0
  {
    var f := FreeBytes(buflen, elementLen, head, oldest);
    if f < 2 then 0 else f / elementLen
  }

  function FreeBytes(buflen: nat, elementLen: nat, head: nat, oldest: nat): (f: int) {
    if head == oldest then buflen - elementLen
    else if head < oldest then (oldest - head) - elementLen
    else (buflen - head) + oldest - elementLen
  }

  /** The C code's waiting count, on byte offsets. */
  function WaitingInBytes(buflen: nat, elementLen: nat, head: nat, tail: nat): (count: int)
    requires elementLen > 0
  {
    var f: int := if head == tail then 0
                  else if head > tail then head - tail
                  else (buflen - tail) + head;
    f / elementLen
  }

  lemma ScalingKeepsOrder(a: nat, b: nat, e: nat)
    requires e > 0
    ensures a < b <==> a * e < b * e
    ensures a == b <==> a * e == b * e
  {
    if a < b {
      MultipleGap(e, a, b);
    } else if b < a {
      MultipleGap(e, b, a);
    }
  }

  /** Bytes left over once one element is kept back, from an exact slot count. */
  lemma WholeElements(k: nat, e: nat)
    requires e > 0
    ensures (k * e) / e == k
    ensures k * e < 2 <==> k == 0 || (k == 1 && e == 1)
  {
    assert k * e == e * k + 0;
    ModOfMultiple(e, k, 0);
    if k >= 1 { MultipleGap(e, 0, k); }
    if k >= 2 { MultipleGap(e, 1, k); }
  }

  /** What is reported of `free` slots for elements of `e` bytes */
  function Reported(e: nat, free: nat): (n: nat) {
    if e == 1 && free == 1 then 0 else free
  }

  lemma FreeBytesAreFreeSlots(slots: nat, e: nat, head: nat, oldest: nat)
    requires e > 0 && head < slots && oldest < slots
    ensures FreeBytes(slots * e, e, head * e, oldest * e) == Free(slots, head, oldest) * e
  {
    ScalingKeepsOrder(head, oldest, e);
    if head == oldest {
      Distributes(slots, 1, 0, e);
    } else if head < oldest {
      Distributes(oldest, head, -1, e);
    } else {
      Distributes(slots, head, oldest - 1, e);
    }
  }

  lemma Distributes(a: int, b: int, c: int, e: int)
    ensures (a - b + c) * e == a * e - b * e + c * e
  {
  }

  /** On offsets that are whole elements the byte formula is the slot formula, except that a
      one-byte-element ring reports its last free byte as no room at all. */
  lemma FreeCountInBytes(slots: nat, e: nat, head: nat, oldest: nat)
    requires e > 0 && head < slots && oldest < slots
    ensures FreeInBytes(slots * e, e, head * e, oldest * e) == Reported(e, Free(slots, head, oldest))
  {
    FreeBytesAreFreeSlots(slots, e, head, oldest);
    WholeElements(Free(slots, head, oldest), e);
  }

  lemma WaitingCountInBytes(slots: nat, e: nat, head: nat, tail: nat)
    requires e > 0 && head < slots && tail < slots
    ensures WaitingInBytes(slots * e, e, head * e, tail * e) == Waiting(slots, head, tail)
  {
    var k := Waiting(slots, head, tail);
    ScalingKeepsOrder(head, tail, e);
    ScalingKeepsOrder(tail, head, e);
    WholeElements(k, e);
    if head > tail {
      assert (head - tail) * e == head * e - tail * e;
    } else if head < tail {
      assert (slots - tail + head) * e == slots * e - tail * e + head * e;
    }
  }

  // ----- the furthest-behind consumer -----

  /** The furthest-behind of some positions, or `cap` if there are none (or none behind it). */
  function MinOf(positions: seq<nat>, cap: nat): (m: nat) {
    if positions == [] then cap
    else
      var rest := MinOf(positions[1..], cap);
      if positions[0] < rest then positions[0] else rest
  }

  lemma {:induction false} MinOfBounds(positions: seq<nat>, cap: nat)
    ensures MinOf(positions, cap) <= cap
    ensures forall i :: 0 <= i < |positions| ==> MinOf(positions, cap) <= positions[i]
  {
    if positions != [] {
      MinOfBounds(positions[1..], cap);
      assert forall i :: 1 <= i < |positions| ==> positions[i] == positions[1..][i - 1];
    }
  }

  lemma {:induction false} MinOfWitness(positions: seq<nat>, cap: nat) returns (w: nat)
    requires MinOf(positions, cap) < cap
    ensures w < |positions| && positions[w] == MinOf(positions, cap)
  {
    if positions[0] == MinOf(positions, cap) {
      w := 0;
    } else {
      w := MinOfWitness(positions[1..], cap);
      w := w + 1;
    }
  }

  /** Any one of the positions that is below all of them is their `MinOf`. */
  lemma MinOfIs(positions: seq<nat>, cap: nat, m: nat)
    requires m == cap || m in positions
    requires m <= cap
    requires forall i :: 0 <= i < |positions| ==> m <= positions[i]
    ensures MinOf(positions, cap) == m
  {
    MinOfBounds(positions, cap);
    if MinOf(positions, cap) < cap {
      var w := MinOfWitness(positions, cap);
    }
  }

  // ----- the ring -----

  /** A slot whose element has been through the destroy callback holds a NULL payload. */
  datatype Slot<T> = Null | Holds(value: T)

  /** The storage holds every element of the log from `base` on, each in its own slot. */
  ghost predicate Filled<T>(content: seq<Slot<T>>, base: nat, log: seq<T>) {
    && content != []
    && forall k :: base <= k < |log| ==> content[SlotOf(|content|, k)] == Holds(log[k])
  }

  /** The `len` slots from the head stand for the next `len` positions, and none of them is in
      use, as long as they are free and do not wrap. */
  lemma HeadRegionIsUnused(slots: nat, base: nat, end: nat, len: nat)
    requires 0 < slots && base <= end && end + len < base + slots
    requires SlotOf(slots, end) + len <= slots
    ensures forall k :: base <= k < end ==> !(SlotOf(slots, end) <= SlotOf(slots, k) < SlotOf(slots, end) + len)
    ensures forall k :: end <= k < end + len ==> SlotOf(slots, k) == SlotOf(slots, end) + (k - end)
  {
    var head := SlotOf(slots, end);
    forall k | end <= k < end + len
      ensures SlotOf(slots, k) == head + (k - end)
    {
      SlotAdvance(slots, end, k - end);
    }
    forall k | base <= k < end
      ensures !(head <= SlotOf(slots, k) < head + len)
    {
      if head <= SlotOf(slots, k) < head + len {
        var j := end + (SlotOf(slots, k) - head);
        SlotAdvance(slots, end, j - end);
        SlotDeterminesPosition(slots, k, j);
      }
    }
  }

  /** A linear copy of `src` to the head keeps what was waiting and adds `src` after it. */
  lemma FilledAfterCopy<T>(content: seq<Slot<T>>, content': seq<Slot<T>>, base: nat, log: seq<T>, src: seq<T>)
    requires Filled(content, base, log) && |content'| == |content|
    requires base <= |log| && |log| + |src| < base + |content|
    requires SlotOf(|content|, |log|) + |src| <= |content|
    requires var head := SlotOf(|content|, |log|);
             forall i :: 0 <= i < |content| ==>
               content'[i] == if head <= i < head + |src| then Holds(src[i - head]) else content[i]
    ensures Filled(content', base, log + src)
  {
    HeadRegionIsUnused(|content|, base, |log|, |src|);
    var all := log + src;
    forall k | base <= k < |all|
      ensures content'[SlotOf(|content'|, k)] == Holds(all[k])
    {
      var slot := SlotOf(|content|, k);
      if k < |log| {
        assert content'[slot] == content[slot] == Holds(log[k]);
      } else {
        assert slot == SlotOf(|content|, |log|) + (k - |log|);
        assert content'[slot] == Holds(src[k - |log|]);
      }
    }
  }

  /** Clearing the oldest slot keeps the rest. */
  lemma FilledAfterRetire<T>(content: seq<Slot<T>>, base: nat, log: seq<T>)
    requires Filled(content, base, log) && base < |log| < base + |content|
    ensures Filled(content[SlotOf(|content|, base) := Null], base + 1, log)
  {
    forall k | base < k < |log| ensures SlotOf(|content|, k) != SlotOf(|content|, base) {
      if SlotOf(|content|, k) == SlotOf(|content|, base) {
        SlotDeterminesPosition(|content|, base, k);
      }
    }
  }

  class Buffer<T> {
    const slots: nat
    const elementLen: nat
    const buf: array<Slot<T>>
    var head: nat
    var oldestTail: nat

    ghost var log: seq<T>      // everything ever inserted
    ghost var base: nat        // how much of it is retired: the absolute oldest tail
    ghost var retired: seq<T>  // what the destroy callback has been given, in order

    ghost predicate Valid()
      reads this, buf
    {
      && 0 < slots == buf.Length && elementLen > 0
      && base <= |log| < base + slots
      && head == SlotOf(slots, |log|)
      && oldestTail == SlotOf(slots, base)
      && retired == log[..base]
      && Filled(buf[..], base, log)
    }

    /** Slot number `tail` stands for absolute position `at`. */
    ghost predicate Holding(tail: nat, at: nat)
      requires slots > 0
      reads this
    {
      base <= at <= |log| && tail == SlotOf(slots, at)
    }

    ghost predicate AllHolding(tails: seq<nat>, at: seq<nat>)
      requires slots > 0
      reads this
    {
      |at| == |tails| && forall i :: 0 <= i < |tails| ==> Holding(tails[i], at[i])
    }

    ghost function FreeSlots(): (n: nat)
      requires Valid()
      reads this, buf
    {
      slots - 1 - (|log| - base)
    }

    constructor (elementLen: nat, slots: nat)
      requires slots > 0 && elementLen > 0
      ensures Valid() && fresh(buf)
      ensures this.slots == slots && this.elementLen == elementLen && log == [] && base == 0
    {
      this.slots, this.elementLen := slots, elementLen;
      this.buf := new Slot<T>[slots](_ => Null);
      head, oldestTail := 0, 0;
      log, base, retired := [], 0, [];
    }

    /** lws_ring_get_count_free_elements() */
    method FreeCount() returns (n: nat)
      requires Valid()
      ensures n == Reported(elementLen, FreeSlots())
    {
      CountsAreDistances(slots, |log|, base);
      FreeCountInBytes(slots, elementLen, head, oldestTail);
      n := FreeInBytes(slots * elementLen, elementLen, head * elementLen, oldestTail * elementLen);
    }

    method WaitingCount(tail: nat, ghost at: nat) returns (n: nat)
      requires Valid() && Holding(tail, at)
      ensures n == |log| - at
    {
      CountsAreDistances(slots, |log|, at);
      n := Waiting(slots, head, tail);
    }

    /** memcpy() into the ring's storage */
    method CopyIn(at: nat, src: seq<T>)
      requires at + |src| <= buf.Length
      modifies buf
      ensures forall i :: 0 <= i < buf.Length ==>
                buf[i] == if at <= i < at + |src| then Holds(src[i - at]) else old(buf[i])
    {
      for i := 0 to |src|
        invariant forall j :: 0 <= j < buf.Length ==>
                    buf[j] == if at <= j < at + i then Holds(src[j - at]) else old(buf[j])
      {
        buf[at + i] := Holds(src[i]);
      }
    }

    /** memcpy() to the head */
    method CopyToHead(src: seq<T>)
      requires Valid()
      requires |src| <= FreeSlots() && head + |src| <= slots
      modifies buf
      ensures Filled(buf[..], base, log + src)
    {
      ghost var content := buf[..];
      CopyIn(head, src);
      FilledAfterCopy(content, buf[..], base, log, src);
    }

    /** One linear copy at the head: the part of lws_ring_insert() between two wraps. */
    method CopyAtHead(src: seq<T>)
      requires Valid()
      requires |src| <= FreeSlots() && head + |src| <= slots
      modifies this`head, this`log, buf
      ensures Valid()
      ensures log == old(log) + src
      ensures head == Wrapped(slots, old(head) + |src|)
    {
      CopyToHead(src);
      SlotAdvance(slots, |log|, |src|);
      head := Bump(slots, head, |src|);
      log := log + src;
    }

    /** The two copies of lws_ring_insert() when the elements reach past the end of the storage */
    method CopyAroundTheEnd(src: seq<T>)
      requires Valid()
      requires |src| <= FreeSlots() && head + |src| > slots
      modifies this`head, this`log, buf
      ensures Valid()
      ensures log == old(log) + src
    {
      var m := slots - head;
      CopyAtHead(src[..m]);
      CopyAtHead(src[m..]);
    }

    /** lws_ring_insert(): as many of `src` as fit, in one or two linear copies. */
    method Insert(src: seq<T>) returns (n: nat)
      requires Valid()
      modifies this`head, this`log, buf
      ensures Valid()
      ensures var room := Reported(elementLen, old(FreeSlots()));
              n == if |src| < room then |src| else room
      ensures log == old(log) + src[..n]
    {
      var room := FreeCount();
      n := if room > |src| then |src| else room;
      if head + n > slots {
        CopyAroundTheEnd(src[..n]);
      } else {
        CopyAtHead(src[..n]);
      }
    }

    /** lws_ring_get_element() */
    method GetElement(tail: nat, ghost at: nat) returns (e: Option<Slot<T>>)
      requires Valid() && Holding(tail, at)
      ensures e == if at == |log| then None else Some(Holds(log[at]))
    {
      if tail == head {
        SlotDeterminesPosition(slots, at, |log|);
        e := None;
      } else {
        e := Some(buf[tail]);
      }
    }

    /** lws_ring_consume() with a tail of the caller's own and no copy out */
    method Consume(tail: nat, maxCount: nat, ghost at: nat) returns (tail': nat, n: nat)
      requires Valid() && Holding(tail, at)
      ensures n == if |log| - at > maxCount then maxCount else |log| - at
      ensures Holding(tail', at + n)
    {
      n := WaitingCount(tail, at);
      if n > maxCount {
        n := maxCount;
      }
      SlotAdvance(slots, at, n);
      tail' := Bump(slots, tail, n);
    }

    /** One turn of the retiring loop: the element at the oldest tail goes to the callback. */
    method RetireOne()
      requires Valid() && base < |log|
      modifies this`oldestTail, this`base, this`retired, buf
      ensures Valid()
      ensures base == old(base) + 1
    {
      FilledAfterRetire(buf[..], base, log);
      SlotAdvance(slots, base, 1);
      retired := retired + [buf[oldestTail].value];
      buf[oldestTail] := Null;
      oldestTail := Bump(slots, oldestTail, 1);
      base := base + 1;
    }

    /** lws_ring_update_oldest_tail(): everything before the new oldest tail is destroyed. */
    method UpdateOldestTail(tail: nat, ghost at: nat)
      requires Valid() && Holding(tail, at)
      modifies this`oldestTail, this`base, this`retired, buf
      ensures Valid()
      ensures base == at
    {
      while oldestTail != tail
        invariant Valid() && Holding(tail, at)
        decreases at - base
      {
        RetireOne();
      }
      SlotDeterminesPosition(slots, base, at);
    }

    /** lws_ring_destroy(): whatever is still in the ring is destroyed too. */
    method Destroy()
      requires Valid()
      modifies this`oldestTail, this`base, this`retired, buf
      ensures retired == log
    {
      UpdateOldestTail(head, |log|);
      assert log[..|log|] == log;
    }

    /** The scan both users of several tails make: the tail with most still waiting, the later of
        equals, or `none` if nobody has a tail. */
    method FurthestBehind(tails: seq<nat>, none: nat, ghost at: seq<nat>)
      returns (worst: nat, worstTail: nat, ghost worstAt: nat)
      requires Valid()
      requires AllHolding(tails, at)
      ensures tails == [] ==> worst == 0 && worstTail == none
      ensures tails != [] ==>
                && worstAt == MinOf(at, |log|)
                && worst == |log| - worstAt
                && Holding(worstTail, worstAt)
    {
      worst, worstTail, worstAt := 0, none, 0;
      for i := 0 to |tails|
        invariant i == 0 ==> worst == 0 && worstTail == none
        invariant i > 0 ==> worstAt in at && worst == |log| - worstAt && Holding(worstTail, worstAt)
        invariant i > 0 ==> forall j :: 0 <= j < i ==> worstAt <= at[j]
      {
        var wai := WaitingCount(tails[i], at[i]);
        if wai >= worst {
          worst, worstTail, worstAt := wai, tails[i], at[i];
        }
      }
      if tails != [] {
        MinOfIs(at, |log|, worstAt);
      }
    }

    /** The oldest tail is moved up to the furthest-behind of the consumers. */
    method MoveOldestTail(tails: seq<nat>, none: nat, ghost at: seq<nat>) returns (worst: nat, worstTail: nat)
      requires Valid() && AllHolding(tails, at) && tails != []
      modifies this`oldestTail, this`base, this`retired, buf
      ensures Valid() && AllHolding(tails, at)
      ensures old(base) <= base == MinOf(at, |log|)
      ensures worst == |log| - base && worstTail == oldestTail
    {
      ghost var worstAt;
      worst, worstTail, worstAt := FurthestBehind(tails, none, at);
      MinOfBounds(at, |log|);
      UpdateOldestTail(worstTail, worstAt);
    }

    /** A consumer that was not on the oldest tail cannot move it by moving on. */
    lemma OthersHoldTheOldestTail(at: seq<nat>, who: nat, n: nat)
      requires who < |at| && at[who] + n <= |log|
      requires base == MinOf(at, |log|) != at[who]
      ensures base == MinOf(at[who := at[who] + n], |log|)
    {
      var at' := at[who := at[who] + n];
      MinOfBounds(at, |log|);
      if base < |log| {
        var w := MinOfWitness(at, |log|);
        assert at'[w] == base;
      }
      MinOfIs(at', |log|, base);
    }

    /** The helper macro lws_ring_consume_and_update_oldest_tail(): consumer `who` takes up to
        `count` elements, and the oldest tail is looked for again only if `who` was on it.
        That is enough to keep it on the furthest-behind consumer. */
    method ConsumeAndUpdateOldestTail(tails: seq<nat>, who: nat, count: nat, ghost at: seq<nat>)
      returns (tails': seq<nat>, ghost at': seq<nat>)
      requires Valid()
      requires AllHolding(tails, at) && who < |tails|
      requires base == MinOf(at, |log|)
      modifies this`oldestTail, this`base, this`retired, buf
      ensures Valid()
      ensures at' == at[who := at[who] + if |log| - at[who] > count then count else |log| - at[who]]
      ensures AllHolding(tails', at')
      ensures base == MinOf(at', |log|)
    {
      var wasOldest := oldestTail == tails[who];
      assert Holding(tails[who], at[who]);
      var tail, n := Consume(tails[who], count, at[who]);
      tails' := tails[who := tail];
      at' := at[who := at[who] + n];
      assert AllHolding(tails', at');
      if wasOldest {
        var _, _ := MoveOldestTail(tails', tail, at');
      } else {
        OthersHoldTheOldestTail(at, who, n);
      }
    }
  }
}
