/** A growable vector against the sequence it stands for, and the cost of its reallocations. */
module Vector {

  ghost predicate PowerOfTwo(n: nat) {
    n == 1 || (n > 0 && n % 2 == 0 && PowerOfTwo(n / 2))
  }

  /** Powers of two are at least twice apart. */
  lemma {:induction false} PowersApart(m: nat, n: nat)
    requires PowerOfTwo(m) && PowerOfTwo(n) && m < n
    ensures 2 * m <= n
  {
    if m > 1 {
      PowersApart(m / 2, n / 2);
    }
  }

  /** The least power of two that is enough for target. */
  ghost predicate LeastPower(c: nat, target: nat) {
    PowerOfTwo(c) && target <= c && forall p: nat :: PowerOfTwo(p) && target <= p ==> c <= p
  }

  /** get_new_capacity. */
  method NewCapacity(target: nat) returns (capacity: nat)
    ensures LeastPower(capacity, target)
  {
    capacity := 1;
    while capacity < target
      invariant PowerOfTwo(capacity)
      invariant forall p: nat :: PowerOfTwo(p) && target <= p ==> capacity <= p
      decreases target - capacity
    {
      forall p: nat | PowerOfTwo(p) && target <= p ensures capacity * 2 <= p {
        PowersApart(capacity, p);
      }
      capacity := capacity * 2;
    }
  }

  /** The capacity, how many elements reallocations have copied so far, and the largest size so far. */
  datatype Cost = Cost(capacity: nat, copied: nat, peak: nat)

  /** What an operation that takes the size from before to after costs: only when the capacity does not do is there
      a new array, of the least sufficient power of two, and all elements are copied. */
  ghost predicate Charged(c: Cost, before: nat, after: nat, d: Cost) {
    && d.peak == Larger(c.peak, after)
    && if after <= c.capacity then d.capacity == c.capacity && d.copied == c.copied
       else LeastPower(d.capacity, after) && d.copied == c.copied + before
  }

  /** All the copying is paid for by the capacity above 8, which is less than twice the largest size. */
  ghost predicate PaidFor(c: Cost) {
    && PowerOfTwo(c.capacity) && 8 <= c.capacity && c.copied + 8 <= c.capacity
    && (c.capacity == 8 || c.capacity < 2 * c.peak)
  }

  lemma ChargedPaidFor(c: Cost, before: nat, after: nat, d: Cost)
    requires PaidFor(c) && before <= c.capacity && Charged(c, before, after, d)
    ensures PaidFor(d)
  {
    if after > c.capacity {
      Stretched(c.capacity, after, d.capacity);
    }
  }

  ghost predicate ChargedAt(costs: seq<Cost>, sizes: seq<nat>, k: nat)
    requires |costs| == |sizes| && k + 1 < |sizes|
  {
    Charged(costs[k], sizes[k], sizes[k + 1], costs[k + 1])
  }

  /** The costs of a new vector that then goes through these sizes. */
  ghost predicate IsHistory(costs: seq<Cost>, sizes: seq<nat>) {
    && |costs| == |sizes| > 0 && sizes[0] == 0 && costs[0] == Cost(8, 0, 0)
    && forall k :: 0 <= k < |sizes| - 1 ==> ChargedAt(costs, sizes, k)
  }

  /** Over any run of operations, all copying together is less than twice the largest size. */
  lemma {:induction false} CopiesAreFew(costs: seq<Cost>, sizes: seq<nat>, k: nat)
    requires IsHistory(costs, sizes) && k < |sizes|
    ensures PaidFor(costs[k]) && sizes[k] <= costs[k].capacity && sizes[k] <= costs[k].peak
    ensures costs[k].copied > 0 ==> costs[k].copied < 2 * costs[k].peak
    ensures exists i :: 0 <= i <= k && sizes[i] == costs[k].peak
  {
    if k == 0 {
      assert PowerOfTwo(2) && PowerOfTwo(4) && sizes[0] == costs[0].peak;
    } else {
      CopiesAreFew(costs, sizes, k - 1);
      assert ChargedAt(costs, sizes, k - 1);
      ChargedPaidFor(costs[k - 1], sizes[k - 1], sizes[k], costs[k]);
      var i :| 0 <= i <= k - 1 && sizes[i] == costs[k - 1].peak;
      assert costs[k].peak == sizes[i] || costs[k].peak == sizes[k];
    }
  }

  class Vector<T(0)> {
    var items: array<T>
    var size: nat
    var capacity: nat
    /** How many elements reallocations have copied. */
    ghost var copied: nat
    /** The largest size so far. */
    ghost var peak: nat

    ghost predicate Valid()
      reads this
    {
      items.Length == capacity && PowerOfTwo(capacity) && size <= capacity && size <= peak
    }

    ghost function Contents(): (s: seq<T>)
      reads this, items
      requires Valid()
    {
      items[..size]
    }

    ghost function Spent(): Cost
      reads this
    {
      Cost(capacity, copied, peak)
    }

    constructor ()
      ensures Valid() && fresh(items) && Contents() == [] && Spent() == Cost(8, 0, 0)
    {
      items, size, capacity, copied, peak := new T[8], 0, 8, 0, 0;
      new;
      assert PowerOfTwo(2) && PowerOfTwo(4);
    }

    /** vector_reserve for at least the current size. */
    method Reserve(n: nat)
      requires Valid() && size <= n
      modifies this
      ensures Valid() && size == old(size) && Contents() == old(Contents()) && peak == old(peak)
      ensures items == old(items) || fresh(items)
      ensures n == old(capacity) ==> items == old(items) && copied == old(copied) && capacity == n
      ensures n != old(capacity) ==> LeastPower(capacity, n) && copied == old(copied) + size
    {
      if n == capacity {
        return;
      }
      Reallocate(n);
    }

    /** A new array for a capacity of at least n, with the elements copied over. */
    method Reallocate(n: nat)
      requires Valid() && size <= n
      modifies this
      ensures Valid() && fresh(items) && LeastPower(capacity, n) && Contents() == old(Contents())
      ensures size == old(size) && copied == old(copied) + size && peak == old(peak)
    {
      capacity := NewCapacity(n);
      var grown := new T[capacity];
      var i := 0;
      while i < size
        invariant i <= size && grown[..i] == items[..i]
        modifies grown
      {
        grown[i] := items[i];
        i := i + 1;
      }
      items := grown;
      copied := copied + size;
    }

    /** Room for one more element. */
    method MakeRoom()
      requires Valid()
      modifies this
      ensures Valid() && size < capacity && size == old(size) && Contents() == old(Contents())
      ensures if size < old(capacity) then items == old(items) else fresh(items)
      ensures Charged(old(Spent()), size, size + 1, Spent())
    {
      if size == capacity {
        Reserve(size + 1);
      }
      peak := Larger(peak, size + 1);
    }

    method PushBack(x: T)
      requires Valid()
      modifies this, items
      ensures Valid() && if old(size) < old(capacity) then items == old(items) else fresh(items)
      ensures size == old(size) + 1 && Contents() == old(Contents()) + [x]
      ensures Charged(old(Spent()), old(size), size, Spent())
    {
      MakeRoom();
      items[size] := x;
      size := size + 1;
    }

    method PopBack()
      requires Valid()
      modifies this
      ensures Valid() && items == old(items)
      ensures Contents() == if old(size) == 0 then [] else old(Contents())[..old(size) - 1]
      ensures Charged(old(Spent()), old(size), size, Spent())
    {
      if size != 0 {
        size := size - 1;
      }
    }

    method Insert(position: nat, x: T)
      requires Valid() && position <= size
      modifies this, items
      ensures Valid() && if old(size) < old(capacity) then items == old(items) else fresh(items)
      ensures size == old(size) + 1
      ensures Contents() == old(Contents())[..position] + [x] + old(Contents())[position..]
      ensures Charged(old(Spent()), old(size), size, Spent())
    {
      if position == size {
        PushBack(x);
        return;
      }
      MakeRoom();
      Place(position, x);
    }

    /** Room is there: shift, then store. */
    method Place(position: nat, x: T)
      requires Valid() && position < size < capacity && size < peak
      modifies this`size, items
      ensures Valid() && size == old(size) + 1
      ensures Contents() == old(Contents())[..position] + [x] + old(Contents())[position..]
    {
      ghost var was := items[..size];
      ShiftUp(position);
      items[position] := x;
      size := size + 1;
      assert items[..size] == items[..position] + [items[position]] + items[position + 1..size];
      assert items[..position] == was[..position] && items[position + 1..size] == was[position..];
    }

    /** The elements from position on move one place up. */
    method ShiftUp(position: nat)
      requires Valid() && position < size < capacity
      modifies items
      ensures items[..position] == old(items[..position])
      ensures items[position + 1..size + 1] == old(items[position..size])
    {
      ghost var was := items[..];
      var i := size;
      while i > position
        invariant position <= i <= size
        invariant forall k :: 0 <= k <= i ==> items[k] == was[k]
        invariant forall k :: i < k <= size ==> items[k] == was[k - 1]
      {
        items[i] := items[i - 1];
        i := i - 1;
      }
    }

    method Erase(position: nat)
      requires Valid() && position < size
      modifies this, items
      ensures Valid() && items == old(items)
      ensures Contents() == old(Contents())[..position] + old(Contents())[position + 1..]
      ensures Charged(old(Spent()), old(size), size, Spent())
    {
      ghost var was := items[..];
      var i := position;
      while i < size - 1
        invariant position <= i <= size - 1
        invariant items[..position] == was[..position] && items[i + 1..] == was[i + 1..]
        invariant items[position..i] == was[position + 1..i + 1]
        modifies items
      {
        items[i] := items[i + 1];
        i := i + 1;
      }
      size := size - 1;
    }

    /** vector_resize: cut off, or filled up with default elements. */
    method Resize(n: nat, fill: T)
      requires Valid()
      modifies this, items
      ensures Valid() && if n <= old(capacity) then items == old(items) else fresh(items)
      ensures size == n
      ensures Contents() == if n <= old(size) then old(Contents())[..n] else old(Contents()) + seq(n - old(size), _ => fill)
      ensures Charged(old(Spent()), old(size), size, Spent())
    {
      if n > capacity {
        Reallocate(n);
      }
      peak := Larger(peak, n);
      var i := size;
      while i < n
        invariant i <= n || i == size
        invariant size <= i <= capacity && items[..size] == old(Contents())
        invariant forall k :: size <= k < i ==> items[k] == fill
        modifies items
      {
        items[i] := fill;
        i := i + 1;
      }
      size := n;
    }

    method Clear()
      requires Valid()
      modifies this
      ensures Valid() && items == old(items) && Contents() == []
      ensures Charged(old(Spent()), old(size), size, Spent())
    {
      size := 0;
    }
  }

  function Larger(a: nat, b: nat): nat {
    if a < b then b else a
  }

  /** Growth past a capacity c that is a power of two. */
  lemma Stretched(c: nat, n: nat, d: nat)
    requires PowerOfTwo(c) && c < n && LeastPower(d, n)
    ensures 2 * c <= d < 2 * n
  {
    PowersApart(c, d);
    assert PowerOfTwo(d / 2);
  }
}
