/** The head-indexed buffer inside `NotifyQueue` (pkg/llm/notifyqueue.go): a Go slice as a backing
    array and a length, refined to a first-in-first-out sequence. */
module NotifyBuffer {
  import opened Text

  /** What is left of the pending items `c` when `capacity` is reached. */
  function Evicted<T>(c: seq<T>, capacity: nat, gap: nat -> Option<T>): seq<T> {
    if |c| < capacity then c else
      var keep := if capacity < 2 then 0 else capacity - 2;
      var marker := gap(|c| - keep);
      (if marker.Some? then [marker.value] else []) + c[|c| - keep..]
  }

  /** What `PushBounded` leaves of the pending items `c`: all of them and `item`, or, when `capacity`
      is reached, an optional gap marker, the newest `capacity - 2` items and `item`. */
  function Bounded<T>(c: seq<T>, item: T, capacity: nat, gap: nat -> Option<T>): seq<T> {
    Evicted(c, capacity, gap) + [item]
  }

  /** The bound holds exactly when the capacity is at least two, or one and no marker is needed. */
  lemma BoundedFits<T>(c: seq<T>, item: T, capacity: nat, gap: nat -> Option<T>)
    ensures |Bounded(c, item, capacity, gap)| <= capacity
            <==> capacity >= 2 || (capacity == 1 && (c == [] || gap(|c|).None?))
  {}

  /** Only oldest items go, the newest stay in order and end in `item`, and the marker reports exactly
      how many slots were evicted. */
  lemma BoundedKeepsNewest<T>(c: seq<T>, item: T, capacity: nat, gap: nat -> Option<T>) returns (dropped: nat)
    ensures dropped <= |c| && (dropped > 0 <==> |c| >= capacity && c != [])
    ensures Bounded(c, item, capacity, gap) ==
            (if |c| >= capacity && gap(dropped).Some? then [gap(dropped).value] else []) + c[dropped..] + [item]
    ensures |c| >= capacity >= 2 ==> |c| - dropped == capacity - 2
  {
    dropped := if |c| < capacity then 0 else if capacity < 2 then |c| else |c| - (capacity - 2);
    assert |c| < capacity ==> [] + c[0..] == c;
  }

  /** What the critical section of `Next` finds: an item, the close (with the error given to `Close`,
      or none for `ErrQueueClosed`), or nothing yet. */
  datatype Outcome<T> = Item(item: T) | Closed(err: Option<string>) | Nothing

  class Queue<T> {
    const zero: T
    var closed: bool
    var err: Option<string>
    var data: array<T>
    var len: nat
    var head: nat
    ghost var delivered: nat
    ghost var moved: nat
    ghost var bounded: bool

    /** Slots outside `head..len` are zero; the consumed prefix is short; and, as long as only Push
        and Next were used, moving items has been paid for by deliveries. */
    ghost predicate Valid()
      reads this, data
    {
      && head <= len <= data.Length
      && (head == len ==> head == 0)
      && (forall i | 0 <= i < head :: data[i] == zero)
      && (forall i | len <= i < data.Length :: data[i] == zero)
      && (head <= 1024 || head <= len - head)
      && (!bounded ==> moved + head <= delivered)
    }

    ghost function Contents(): seq<T>
      requires Valid()
      reads this, data
    { data[head..len] }

    constructor (zero: T)
      ensures Valid() && fresh(data) && Contents() == [] && this.zero == zero
      ensures delivered == 0 && moved == 0 && !bounded && !closed
    {
      this.zero, closed, err := zero, false, None;
      len, head, delivered, moved, bounded := 0, 0, 0, 0, false;
      data := new T[0];
    }

    /** A larger backing array with the same slots, as `append` makes when the old one is full. */
    method Grow(size: nat) returns (bigger: array<T>)
      requires len <= data.Length <= size
      ensures fresh(bigger) && bigger.Length == size
      ensures bigger[..len] == data[..len]
      ensures forall i | len <= i < size :: bigger[i] == zero
    {
      bigger := new T[size](_ => zero);
      for i := 0 to len
        invariant bigger[..i] == data[..i]
        invariant forall k | i <= k < size :: bigger[k] == zero
      {
        bigger[i] := data[i];
      }
    }

    /** `append(items, item)`. */
    method Append(item: T)
      requires Valid()
      modifies this`data, this`len, data
      ensures Valid() && (data == old(data) || fresh(data))
      ensures head == old(head) && len == old(len) + 1
      ensures Contents() == old(Contents()) + [item]
    {
      if len == data.Length {
        ghost var was := data[..len];
        data := Grow(2 * len + 1);
        assert forall i | 0 <= i < len :: data[i] == data[..len][i] == was[i];
      }
      data[len] := item;
      len := len + 1;
    }

    method Push(item: T) returns (ok: bool)
      requires Valid()
      modifies this, data
      ensures Valid() && (data == old(data) || fresh(data))
      ensures ok == !old(closed)
      ensures Contents() == if ok then old(Contents()) + [item] else old(Contents())
      ensures delivered == old(delivered) && moved == old(moved) && bounded == old(bounded)
      ensures closed == old(closed) && err == old(err)
    {
      if closed { return false; }
      Append(item);
      return true;
    }

    /** The first close wins. */
    method Close(e: Option<string>)
      requires Valid()
      modifies this`closed, this`err
      ensures Valid() && closed && err == if old(closed) then old(err) else e
      ensures Contents() == old(Contents())
    {
      if closed { return; }
      closed, err := true, e;
    }

    /** `compactLocked`: slides the live items to the front and zeroes the vacated slots. */
    method Compact()
      requires head <= len <= data.Length
      requires forall i | len <= i < data.Length :: data[i] == zero
      modifies this`len, this`head, this`moved, data
      ensures head == 0 && len == old(len) - old(head) && data == old(data)
      ensures data[..len] == old(data[head..len])
      ensures forall i | len <= i < data.Length :: data[i] == zero
      ensures moved == old(moved) + old(len) - old(head)
    {
      ghost var live := data[head..len];
      ghost var old_data := data[..];
      var n := len - head;
      for i := 0 to n
        invariant head == old(head) && len == old(len) && data == old(data) && moved == old(moved)
        invariant data[..i] == live[..i]
        invariant forall k | i + head <= k < data.Length :: data[k] == old_data[k]
      {
        assert data[head + i] == old_data[head + i] == live[i];
        data[i] := data[head + i];
      }
      for i := n to len
        invariant head == old(head) && len == old(len) && data == old(data) && moved == old(moved)
        invariant data[..n] == live
        invariant forall k | n <= k < i :: data[k] == zero
        invariant forall k | len <= k < data.Length :: data[k] == zero
      {
        data[i] := zero;
      }
      len := n;
      head := 0;
      moved := moved + n;
    }

    /** The critical section of `Next`: queued items come before the close. */
    method Next() returns (r: Outcome<T>)
      requires Valid()
      modifies this`head, this`len, this`delivered, this`moved, data
      ensures Valid() && data == old(data)
      ensures r.Item? <==> old(Contents()) != []
      ensures r.Item? ==> old(Contents()) == [r.item] + Contents() && delivered == old(delivered) + 1
      ensures !r.Item? ==> Contents() == [] && delivered == old(delivered) && moved == old(moved)
      ensures r.Closed? <==> old(Contents()) == [] && closed
      ensures r.Closed? ==> r.err == err
    {
      if head == len { return if closed then Closed(err) else Nothing; }
      ghost var live := data[head..len];
      var x := data[head];
      data[head] := zero;
      head := head + 1;
      delivered := delivered + 1;
      assert data[head..len] == live[1..];
      if head == len {
        len := 0;
        head := 0;
      } else if head > 1024 && head * 2 >= len {
        Compact();
      }
      assert live == [x] + live[1..];
      return Item(x);
    }

    /** The overflow branch of `PushBounded`: a fresh slice with the marker and the newest items. */
    method Evict(capacity: nat, gap: nat -> Option<T>)
      requires Valid() && head == 0 && bounded
      modifies this`data, this`len
      ensures Valid() && (data == old(data) || fresh(data))
      ensures Contents() == Evicted(old(Contents()), capacity, gap)
    {
      if len < capacity { return; }
      var keep := if capacity < 2 then 0 else capacity - 2;
      var dropped := len - keep;
      var tail := data[dropped..len];
      assert tail == Contents()[dropped..];
      var marker := gap(dropped);
      var next := (if marker.Some? then [marker.value] else []) + tail;
      data := new T[|next|](i requires 0 <= i < |next| => next[i]);
      len := |next|;
      assert data[..len] == next;
    }

    method PushBounded(item: T, capacity: nat, gap: nat -> Option<T>) returns (ok: bool)
      requires Valid()
      modifies this`data, this`len, this`head, this`moved, this`bounded, data
      ensures Valid() && (data == old(data) || fresh(data))
      ensures ok == !closed && (ok ==> head == 0 && bounded)
      ensures Contents() == if ok then Bounded(old(Contents()), item, capacity, gap) else old(Contents())
    {
      hide Evicted;
      if closed { return false; }
      bounded := true;
      if head > 0 { Compact(); }
      assert Contents() == old(Contents());
      Evict(capacity, gap);
      Append(item);
      return true;
    }
  }
}
