/** The fixed pool of order records: every slot not in use waits on a last-in first-out free list. */
module OrderPools {
  import opened Sequences
  import opened Types
  import opened PriceLevels

  class OrderPool {
    const slots: seq<Order>
    var freeHead: Order?
    /** Handles of the free slots, top of the stack first. */
    ghost var free: seq<OrderHandle>

    /** Records sit at their own index. */
    ghost predicate Placed() {
      |slots| < 0x1_0000_0000 && forall i {:trigger slots[i]} :: 0 <= i < |slots| ==> slots[i].slot == i
    }

    ghost predicate Valid()
      reads this, slots
    {
      && Placed()
      && Distinct(free)
      && (forall i {:trigger free[i]} :: 0 <= i < |free| ==> free[i] < |slots|)
      && freeHead == (if free == [] then null else slots[free[0]])
      && (forall i {:trigger slots[free[i]].next} :: 0 <= i < |free| ==>
        slots[free[i]].next == (if i == |free| - 1 then null else slots[free[i + 1]]))
    }

    /** Pushes every slot in turn, so the last slot is on top. */
    constructor (capacity: nat)
      requires capacity < 0x1_0000_0000
      ensures Valid() && fresh(slots) && |slots| == capacity
      ensures free == seq(capacity, i requires 0 <= i < capacity => capacity - 1 - i)
    {
      // one order a round, each on top of the one before
      var built: seq<Order> := [];
      var top: Order? := null;
      ghost var stack: seq<OrderHandle> := [];
      while |built| < capacity
        invariant |built| <= capacity && fresh(built)
        invariant forall i {:trigger built[i]} :: 0 <= i < |built| ==> built[i].slot == i
        invariant |stack| == |built| && forall i {:trigger stack[i]} :: 0 <= i < |stack| ==> stack[i] == |built| - 1 - i
        invariant top == (if built == [] then null else built[|built| - 1])
        invariant forall i {:trigger built[i].next} :: 0 <= i < |built| ==>
          built[i].next == (if i == 0 then null else built[i - 1])
      {
        var o := new Order(|built|);
        o.next := top;
        top := o;
        stack := [|built|] + stack;
        built := built + [o];
      }
      slots := built;
      freeHead := top;
      free := stack;
    }

    /** The slot on top of the free list, if any. */
    ghost function Top(): (s: set<Order>)
      requires Valid()
      reads this, slots
    {
      if free == [] then {} else {slots[free[0]]}
    }

    /** Pops the top of the free list, or returns the invalid handle when nothing is free. */
    method Acquire() returns (h: OrderHandle)
      requires Valid()
      modifies this`freeHead, this`free, Top()`prev, Top()`next
      ensures Valid()
      ensures old(free) == [] ==> h == INVALID_HANDLE && free == []
      ensures old(free) != [] ==> h == old(free)[0] && h != INVALID_HANDLE && free == old(free)[1..]
    {
      if freeHead == null {
        return INVALID_HANDLE;
      }
      var o := freeHead;
      freeHead := o.next;
      o.prev := null;
      o.next := null;
      h := IndexOf(o);
      free := free[1..];
    }

    /** Pushes a slot that is in use back onto the free list. */
    method Release(o: Order)
      requires Valid() && o in slots && o.slot !in free
      modifies this`freeHead, this`free, o`next
      ensures Valid() && free == [o.slot] + old(free)
    {
      o.next := freeHead;
      freeHead := o;
      free := [o.slot] + free;
    }

    function Resolve(h: OrderHandle): (o: Order)
      requires h < |slots| && h != INVALID_HANDLE
      ensures o == slots[h]
    {
      slots[h]
    }

    /** Pointer difference to the first record. */
    function IndexOf(o: Order): (i: nat)
      requires Placed() && o in slots
      ensures i < |slots| && slots[i] == o
    {
      o.slot
    }
  }
}
