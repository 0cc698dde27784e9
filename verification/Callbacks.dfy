/** The post-response callback array: a buffer that doubles when it is full. */
module Callbacks {

  import opened Sessions

  /** A registered callback: a handler's own (known by a tag), or the session write-back. */
  datatype Callback = Own(tag: nat) | WriteBack(sessionId: string, context: SessionContext)

  /** The capacity with which an array that holds `count` callbacks takes one more. */
  function Grown(count: nat, capacity: nat): nat { if count >= capacity then capacity * 2 else capacity }

  /** There is room for one more exactly if the capacity is not 0: doubling 0 leaves none. */
  lemma RoomAfterGrowing(count: nat, capacity: nat)
    requires count <= capacity
    ensures count < Grown(count, capacity) <==> capacity > 0
  {}

  class CallbackArray {
    var items: array<Callback>
    var count: nat
    var capacity: nat
    ghost const initial: nat   // the capacity asked for at construction
    ghost var copied: nat      // elements moved by all reallocations so far

    ghost predicate Valid()
      reads this
    {
      && items.Length == capacity
      && initial <= capacity
      && count <= capacity
      // every reallocation moves one full buffer, so the moves add up to the growth
      && copied == capacity - initial
      && (capacity == initial || capacity < 2 * count)
    }

    ghost function Contents(): seq<Callback>
      requires Valid()
      reads this, items
    {
      items[..count]
    }

    /** hs_types_post_response_callbacks_new. */
    constructor (capacity: nat)
      ensures Valid() && Contents() == [] && fresh(items)
      ensures initial == capacity && this.capacity == capacity && copied == 0
    {
      this.capacity := capacity;
      count := 0;
      items := new Callback[capacity];
      initial := capacity;
      copied := 0;
    }

    /** hs_types_post_response_callbacks_add. All the copying that n adds ever cause, whatever
        the starting capacity, stays below 2n. An array of capacity 0 has no room to double. */
    method Add(callback: Callback)
      requires Valid() && capacity > 0
      modifies this, items
      ensures Valid() && capacity >= old(capacity) && (items == old(items) || fresh(items))
      ensures Contents() == old(Contents()) + [callback]
      ensures count == old(count) + 1 && count <= capacity
      ensures copied < 2 * count
    {
      if count >= capacity {
        var oldItems := items;
        capacity := Grown(count, capacity);
        var grown := new Callback[capacity];
        var index := 0;
        while index < count
          invariant 0 <= index <= count
          invariant grown[..index] == oldItems[..index]
          modifies grown
        {
          grown[index] := oldItems[index];
          index := index + 1;
        }
        items := grown;
        copied := copied + count;
      }
      items[count] := callback;
      count := count + 1;
    }
  }
}
