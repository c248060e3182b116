/** The free-list allocator for the price levels of one side. */
module PriceLevelPools {
  import opened PriceLevels
  import opened Sequences

  class LevelSlot {
    const level: PriceLevel
    var next: LevelSlot?

    constructor (level: PriceLevel, next: LevelSlot?)
      ensures this.level == level && this.next == next
    {
      this.level := level;
      this.next := next;
    }
  }

  /** Every slot embeds one level, and the owner of a level is the slot that embeds it. */
  ghost predicate Embeds(slots: seq<LevelSlot>, owner: map<PriceLevel, LevelSlot>) {
    && (forall s {:trigger s in slots} :: s in slots ==> s.level in owner && owner[s.level] == s)
    && (forall l {:trigger owner[l]} :: l in owner ==> owner[l] in slots && owner[l].level == l)
  }

  class PriceLevelPool {
    const slots: seq<LevelSlot>
    /** The slot a level is embedded in; stands for the cast from a level to its enclosing record. */
    const owner: map<PriceLevel, LevelSlot>
    var freeHead: LevelSlot?
    /** The free slots, top of the stack first. */
    ghost var free: seq<LevelSlot>

    ghost predicate Blank(level: PriceLevel)
      reads level
    {
      level.queue == [] && level.head == null && level.tail == null
    }

    ghost function Levels(): set<PriceLevel> {
      owner.Keys
    }

    ghost predicate Valid()
      reads this, slots, Levels()
    {
      && Embeds(slots, owner)
      && Distinct(slots) && Distinct(free)
      && (forall i {:trigger free[i]} :: 0 <= i < |free| ==> free[i] in slots && Blank(free[i].level))
      && freeHead == (if free == [] then null else free[0])
      && (forall i {:trigger free[i].next} :: 0 <= i < |free| ==>
        free[i].next == (if i == |free| - 1 then null else free[i + 1]))
    }

    constructor (capacity: nat)
      ensures Valid() && fresh(slots) && fresh(Levels()) && |slots| == capacity
      ensures |free| == capacity && forall s :: s in slots <==> s in free
    {
      var built: seq<LevelSlot> := [];
      var owned: map<PriceLevel, LevelSlot> := map[];
      var top: LevelSlot? := null;
      ghost var stack: seq<LevelSlot> := [];
      while |built| < capacity
        invariant |built| <= capacity && fresh(built) && fresh(owned.Keys)
        invariant forall s {:trigger s in built} :: s in built ==> s.level in owned && owned[s.level] == s
        invariant forall l {:trigger owned[l]} :: l in owned ==> owned[l] in built && owned[l].level == l
        invariant Distinct(built) && |stack| == |built| && forall s :: s in built <==> s in stack
        invariant Distinct(stack) && forall i {:trigger stack[i]} :: 0 <= i < |stack| ==>
          stack[i].level.queue == [] && stack[i].level.head == null && stack[i].level.tail == null
        invariant top == (if stack == [] then null else stack[0])
        invariant forall i {:trigger stack[i].next} :: 0 <= i < |stack| ==>
          stack[i].next == (if i == |stack| - 1 then null else stack[i + 1])
      {
        var level := new PriceLevel();
        var slot := new LevelSlot(level, top);
        top := slot;
        owned := owned[level := slot];
        stack := [slot] + stack;
        built := built + [slot];
      }
      slots := built;
      owner := owned;
      freeHead := top;
      free := stack;
    }

    /** A free level must be left. */
    method Acquire() returns (level: PriceLevel)
      requires Valid() && free != []
      modifies this`freeHead, this`free
      ensures Valid() && level == old(free)[0].level && free == old(free)[1..]
      ensures level.Valid() && level.queue == []
    {
      var slot := freeHead;
      freeHead := slot.next;
      level := slot.level;
      free := free[1..];
    }

    /** Takes back an empty level of this pool that is in use. */
    method Release(level: PriceLevel)
      requires Valid() && level in owner && owner[level] !in free
      requires level.Valid() && level.queue == []
      modifies this`freeHead, this`free, slots`next, level`head, level`tail
      ensures Valid() && free == [owner[level]] + old(free) && unchanged(level)
    {
      level.Reset();
      var slot := owner[level];
      slot.next := freeHead;
      freeHead := slot;
      free := [slot] + free;
    }
  }
}
