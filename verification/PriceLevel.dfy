/** Orders and the price levels that thread them into first-in first-out queues. */
module PriceLevels {
  import opened Sequences
  import opened Types

  /** One record of the order pool. Its position in the pool never changes. */
  class Order {
    const slot: nat

    var id: uint64
    var price: int64
    var quantity: uint64
    var timestamp: uint64

    var prev: Order?
    var next: Order?

    var parentLevel: PriceLevel?

    constructor (slot: nat)
      ensures this.slot == slot
    {
      this.slot := slot;
      id, price, quantity, timestamp := 0, 0, 0, 0;
      prev, next, parentLevel := null, null, null;
    }
  }

  class PriceLevel {
    var head: Order?
    var tail: Order?
    /** The resting orders, oldest first. */
    ghost var queue: seq<Order>

    /** The links spell out the queue in both directions. */
    ghost predicate Valid()
      reads this, queue
    {
      && Distinct(queue)
      && head == (if queue == [] then null else queue[0])
      && tail == (if queue == [] then null else queue[|queue| - 1])
      && (forall i {:trigger queue[i].prev} :: 0 <= i < |queue| ==>
        queue[i].prev == (if i == 0 then null else queue[i - 1]))
      && (forall i {:trigger queue[i].next} :: 0 <= i < |queue| ==>
        queue[i].next == (if i == |queue| - 1 then null else queue[i + 1]))
    }

    constructor ()
      ensures Valid() && queue == []
    {
      head, tail := null, null;
      queue := [];
    }

    method PushBack(o: Order)
      requires Valid() && o !in queue
      modifies this, o`prev, o`next, queue`next
      ensures Valid() && queue == old(queue) + [o]
    {
      o.prev := tail;
      o.next := null;
      if tail != null {
        tail.next := o;
      } else {
        head := o;
      }
      tail := o;
      queue := queue + [o];
    }

    /** Unlinks the k-th order of the queue. */
    method Erase(o: Order, ghost k: nat)
      requires Valid() && k < |queue| && queue[k] == o
      modifies this, queue`prev, queue`next
      ensures Valid() && queue == Without(old(queue), k)
      ensures o.prev == null && o.next == null
    {
      hide Without;
      WithoutElements(queue, k);
      if o.prev != null {
        o.prev.next := o.next;
      } else {
        head := o.next;
      }
      if o.next != null {
        o.next.prev := o.prev;
      } else {
        tail := o.prev;
      }
      o.prev, o.next := null, null;
      queue := Without(queue, k);
    }

    /** Clears the links, which changes nothing on a level without orders. */
    method Reset()
      requires Valid() && queue == []
      modifies this`head, this`tail
      ensures unchanged(this)
    {
      head, tail := null, null;
    }

    function Empty(): (r: bool)
      requires Valid()
      reads this, queue
      ensures r <==> queue == []
    {
      head == null
    }

    function Front(): (o: Order)
      requires Valid() && queue != []
      reads this, queue
      ensures o == queue[0]
    {
      head
    }
  }

  /** Links an order that is in no queue behind the orders of a level, and tells it where it is. */
  method LinkLast(level: PriceLevel, o: Order)
    requires level.Valid() && o !in level.queue
    modifies level, o`prev, o`next, o`parentLevel, level.queue`next
    ensures level.Valid() && level.queue == old(level.queue) + [o] && o.parentLevel == level
  {
    level.PushBack(o);
    o.parentLevel := level;
  }
}
