/** The circular buffer of pkg/llm/codex/notification_ring.go, refined to a sequence. */
module NotificationRing {
  import opened Text

  /** The contents after a displacing push: the oldest entry goes when the ring is full. */
  function Displaced<T>(c: seq<T>, x: T, capacity: nat): seq<T>
    requires |c| <= capacity
  {
    if capacity == 0 then c else (if |c| == capacity then c[1..] else c) + [x]
  }

  // ---------------------------------------------------------------- rotations

  function Wrap(i: nat, n: nat): (k: int) { if i < n then i else i - n }

  /** The slots in ring order, starting at `h`. */
  function Rotated<T>(v: seq<T>, h: nat): (r: seq<T>)
    requires h <= |v|
    ensures |r| == |v|
  { v[h..] + v[..h] }

  lemma RotatedAt<T>(v: seq<T>, h: nat, i: nat)
    requires h < |v| && i < |v|
    ensures 0 <= Wrap(h + i, |v|) < |v| && Rotated(v, h)[i] == v[Wrap(h + i, |v|)]
  {}

  /** Writing the slot of entry `i`. */
  lemma RotatedWrite<T>(v: seq<T>, h: nat, i: nat, x: T)
    requires h < |v| && i < |v|
    ensures 0 <= Wrap(h + i, |v|) < |v|
    ensures Rotated(v[Wrap(h + i, |v|) := x], h) == Rotated(v, h)[i := x]
  {}

  /** Moving the start past the first entry puts its slot last. */
  lemma RotatedNext<T>(v: seq<T>, h: nat)
    requires h < |v|
    ensures Rotated(v, if h + 1 == |v| then 0 else h + 1) == Rotated(v, h)[1..] + [v[h]]
  {}

  lemma RotatedZero<T>(v: seq<T>, h: nat, zero: T)
    requires h < |v| && forall i | 0 <= i < |v| :: Rotated(v, h)[i] == zero
    ensures forall i | 0 <= i < |v| :: Rotated(v, 0)[i] == zero
  {
    forall k | 0 <= k < |v| ensures v[k] == zero {
      var i := if k >= h then k - h else k + |v| - h;
      assert Rotated(v, h)[i] == v[k];
    }
  }

  /** Entries run from `head`, wrap, and end before `tail`; every other slot is zero. */
  predicate Fits<T(==)>(v: seq<T>, head: nat, tail: nat, length: nat, zero: T) {
    && length <= |v|
    && (if v == [] then head == 0 && tail == 0 else head < |v| && tail == Wrap(head + length, |v|))
    && (forall i | length <= i < |v| :: Rotated(v, head)[i] == zero)
  }

  lemma FitsPush<T>(v: seq<T>, head: nat, tail: nat, length: nat, zero: T, x: T)
    requires Fits(v, head, tail, length, zero) && length < |v|
    ensures tail < |v|
    ensures var w := v[tail := x];
      && Fits(w, head, if tail + 1 == |v| then 0 else tail + 1, length + 1, zero)
      && Rotated(w, head)[..length + 1] == Rotated(v, head)[..length] + [x]
  {
    RotatedWrite(v, head, length, x);
  }

  lemma FitsDrop<T>(v: seq<T>, head: nat, tail: nat, length: nat, zero: T)
    requires Fits(v, head, tail, length, zero) && 0 < length
    ensures var w, h := v[head := zero], if head + 1 == |v| then 0 else head + 1;
      && Fits(w, h, tail, length - 1, zero)
      && Rotated(w, h)[..length - 1] == Rotated(v, head)[1..length]
      && Rotated(v, head)[0] == v[head]
  {
    RotatedWrite(v, head, 0, zero);
    RotatedNext(v[head := zero], head);
  }

  /** `copy(v[at..], xs)` for a block that fits. */
  function Pasted<T>(v: seq<T>, at: nat, xs: seq<T>): seq<T>
    requires at + |xs| <= |v|
  { v[..at] + xs + v[at + |xs|..] }

  /** A block copied behind the entries in two pieces continues them. */
  lemma FitsAppend<T>(v: seq<T>, head: nat, tail: nat, length: nat, zero: T, xs: seq<T>, copied: nat)
    requires Fits(v, head, tail, length, zero) && 0 < |xs| <= |v| - length
    requires copied == if |v| - tail < |xs| then |v| - tail else |xs|
    ensures tail + copied <= |v| && |xs| - copied <= |v|
    ensures var w := Pasted(Pasted(v, tail, xs[..copied]), 0, xs[copied..]);
      && |w| == |v|
      && (forall i | 0 <= i < |v| :: Rotated(w, head)[i] ==
           if length <= i < length + |xs| then xs[i - length] else Rotated(v, head)[i])
  {
    var a, b := xs[..copied], xs[copied..];
    var w := Pasted(Pasted(v, tail, a), 0, b);
    forall i | 0 <= i < |v|
      ensures Rotated(w, head)[i] == if length <= i < length + |xs| then xs[i - length] else Rotated(v, head)[i]
    {
      var k := Wrap(head + i, |v|);
      RotatedAt(v, head, i);
      RotatedAt(w, head, i);
      PastedTwice(v, tail, a, b, k);
      if length <= i < length + |xs| && i - length >= copied { assert b[i - length - copied] == xs[i - length]; }
    }
  }

  lemma PastedTwice<T>(v: seq<T>, at: nat, a: seq<T>, b: seq<T>, k: nat)
    requires at + |a| <= |v| && |b| <= at && k < |v|
    ensures Pasted(Pasted(v, at, a), 0, b)[k]
            == if k < |b| then b[k] else if at <= k < at + |a| then a[k - at] else v[k]
  {}

  class Ring<T(==)> {
    const zero: T
    const values: array<T>
    var head: nat
    var tail: nat
    var length: nat

    ghost predicate Valid()
      reads this, values
    { Fits(values[..], head, tail, length, zero) }

    ghost function Contents(): (c: seq<T>)
      requires Valid()
      reads this, values
      ensures |c| == length
    { Rotated(values[..], head)[..length] }

    constructor (capacity: nat, zero: T)
      ensures Valid() && fresh(values) && values.Length == capacity && Contents() == [] && this.zero == zero
    {
      this.zero := zero;
      values := new T[capacity](_ => zero);
      head, tail, length := 0, 0, 0;
    }

    method Push(x: T) returns (ok: bool)
      requires Valid()
      modifies this, values
      ensures Valid() && ok == (old(length) < values.Length)
      ensures Contents() == if ok then old(Contents()) + [x] else old(Contents())
    {
      hide Rotated, Wrap;
      if values.Length == 0 || length >= values.Length { return false; }
      ghost var v := values[..];
      FitsPush(v, head, tail, length, zero, x);
      values[tail] := x;
      assert values[..] == v[tail := x];
      tail := tail + 1;
      if tail == values.Length { tail := 0; }
      length := length + 1;
      return true;
    }

    /** The first entry leaves and its slot is zeroed. */
    method DropOldest()
      requires Valid() && length > 0
      modifies this, values
      ensures Valid() && length == old(length) - 1 && Contents() == old(Contents())[1..]
    {
      hide Rotated, Wrap;
      ghost var v := values[..];
      FitsDrop(v, head, tail, length, zero);
      values[head] := zero;
      assert values[..] == v[head := zero];
      head := head + 1;
      if head == values.Length { head := 0; }
      length := length - 1;
    }

    method PushDisplacing(x: T) returns (displaced: bool)
      requires Valid()
      modifies this, values
      ensures Valid() && displaced == (0 < values.Length == old(length))
      ensures Contents() == Displaced(old(Contents()), x, values.Length)
    {
      hide Rotated, Wrap;
      if values.Length == 0 { return false; }
      displaced := false;
      if length >= values.Length {
        DropOldest();
        displaced := true;
      }
      var _ := Push(x);
    }

    method Pop() returns (r: Option<T>)
      requires Valid()
      modifies this, values
      ensures Valid()
      ensures r.None? <==> old(Contents()) == []
      ensures r.None? ==> Contents() == []
      ensures r.Some? ==> old(Contents()) == [r.value] + Contents()
    {
      hide Wrap, Rotated;
      if length == 0 { return None; }
      ghost var c := Contents();
      var x := values[head];
      FitsDrop(values[..], head, tail, length, zero);
      DropOldest();
      assert c == [x] + c[1..];
      if length == 0 {
        Restart(values[..], head, tail, zero);
        head, tail := 0, 0;
      }
      return Some(x);
    }

    method AppendAll(xs: seq<T>) returns (ok: bool)
      requires Valid()
      modifies this, values
      ensures Valid() && ok == (|xs| <= values.Length - old(length))
      ensures Contents() == if ok then old(Contents()) + xs else old(Contents())
    {
      hide Rotated, Pasted;
      if |xs| > values.Length - length { return false; }
      if |xs| == 0 { return true; }
      ghost var v := values[..];
      var copied := if values.Length - tail < |xs| then values.Length - tail else |xs|;
      FitsAppend(v, head, tail, length, zero, xs, copied);
      CopyInto(tail, xs[..copied]);
      CopyInto(0, xs[copied..]);
      Appended(v, values[..], head, tail, length, zero, xs);
      tail := if tail + |xs| < values.Length then tail + |xs| else tail + |xs| - values.Length;
      length := length + |xs|;
      return true;
    }

    method CopyInto(at: nat, xs: seq<T>)
      requires at + |xs| <= values.Length
      modifies values
      ensures values[..] == Pasted(old(values[..]), at, xs)
    {
      for i := 0 to |xs|
        invariant forall k | 0 <= k < values.Length ::
          values[k] == if at <= k < at + i then xs[k - at] else old(values[k])
      {
        values[at + i] := xs[i];
      }
    }
  }

  /** An empty ring may start over at slot 0. */
  lemma Restart<T>(v: seq<T>, head: nat, tail: nat, zero: T)
    requires Fits(v, head, tail, 0, zero)
    ensures Fits(v, 0, 0, 0, zero)
  {
    if v != [] { RotatedZero(v, head, zero); }
  }

  lemma Appended<T>(v: seq<T>, w: seq<T>, head: nat, tail: nat, length: nat, zero: T, xs: seq<T>)
    requires Fits(v, head, tail, length, zero) && |w| == |v| && 0 < |xs| <= |v| - length
    requires forall i | 0 <= i < |v| :: Rotated(w, head)[i] ==
               if length <= i < length + |xs| then xs[i - length] else Rotated(v, head)[i]
    ensures Fits(w, head, if tail + |xs| < |v| then tail + |xs| else tail + |xs| - |v|, length + |xs|, zero)
    ensures Rotated(w, head)[..length + |xs|] == Rotated(v, head)[..length] + xs
  {}
}
