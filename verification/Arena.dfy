/** The agent arena: a fixed block of slots with a free list that reuses the slot freed last. */
module Arena {
  import opened Prelude

  datatype Container = Container(id: nat, state: nat, generation: nat, active: bool)

  /** A newly allocated agent has default state and generation zero. */
  function Fresh(id: nat): Container {
    Container(id, 0, 0, true)
  }

  datatype Error = CapacityExceeded | IndexOutOfBounds(slot: nat)

  /** The numbers of the occupied cells among the first `n`, in ascending order. */
  function Occupied(cells: seq<Option<Container>>, n: nat): (r: seq<nat>)
    requires n <= |cells|
    ensures NoDup(r)
    ensures forall i: nat :: i in r <==> i < n && cells[i].Some?
  {
    if n == 0 then []
    else if cells[n - 1].Some? then Occupied(cells, n - 1) + [n - 1]
    else Occupied(cells, n - 1)
  }

  class AgentArena {
    const capacity: nat
    const storage: array<Option<Container>>
    var freeSlots: seq<nat>
    var activeCount: nat

    /** The free list holds exactly the empty cells, each once, and the count covers the rest. */
    ghost predicate Valid()
      reads this, storage
    {
      && storage.Length == capacity
      && NoDup(freeSlots)
      && (forall i: nat :: i in freeSlots <==> i < capacity && storage[i].None?)
      && activeCount + |freeSlots| == capacity
    }

    /** The arena as a partial map from slots to agents. */
    ghost function Live(): map<nat, Container>
      requires storage.Length == capacity
      reads this, storage
    {
      map i: nat | i < capacity && storage[i].Some? :: storage[i].value
    }

    constructor (capacity: nat)
      ensures Valid() && fresh(storage) && this.capacity == capacity
      ensures Live() == map[] && freeSlots == seq(capacity, i => i)
    {
      this.capacity := capacity;
      storage := new Option<Container>[capacity](_ => None);
      freeSlots := seq(capacity, i => i);
      activeCount := 0;
      new;
      forall i: nat | i < capacity ensures i in freeSlots { assert freeSlots[i] == i; }
    }

    /** Fails exactly when every slot is taken; otherwise hands out a slot that was not live. */
    method Allocate(id: nat) returns (r: Result<nat, Error>)
      requires Valid()
      modifies this, storage
      ensures Valid()
      ensures r.Err? <==> |old(Live())| == capacity
      ensures r.Err? ==> r.error == CapacityExceeded && Live() == old(Live()) && freeSlots == old(freeSlots)
      ensures r.Ok? ==>
                && r.value < capacity && r.value !in old(Live())
                && Live() == old(Live())[r.value := Fresh(id)]
                && old(freeSlots) == [r.value] + freeSlots
    {
      CountsAgree();
      if freeSlots == [] {
        return Err(CapacityExceeded);
      }
      var slot := freeSlots[0];
      assert slot in freeSlots;
      freeSlots := freeSlots[1..];
      storage[slot] := Some(Fresh(id));
      assert old(freeSlots) == [slot] + freeSlots;
      forall i: nat ensures i in freeSlots <==> i in old(freeSlots) && i != slot {
        if i in old(freeSlots) && i != slot {
          var k :| 0 < k < |old(freeSlots)| && old(freeSlots)[k] == i;
          assert freeSlots[k - 1] == i;
        }
      }
      activeCount := activeCount + 1;
      r := Ok(slot);
    }

    /** Freeing a live slot puts it at the head of the free list; freeing a free slot does nothing. */
    method Deallocate(slot: nat) returns (r: Result<(), Error>)
      requires Valid()
      modifies this, storage
      ensures Valid()
      ensures r == if slot >= capacity then Err(IndexOutOfBounds(slot)) else Ok(())
      ensures Live() == old(Live()) - {slot}
      ensures freeSlots == (if slot in old(Live()) then [slot] else []) + old(freeSlots)
    {
      if slot >= capacity {
        return Err(IndexOutOfBounds(slot));
      }
      if storage[slot].Some? {
        CountsAgree();
        assert slot in Live();
        storage[slot] := None;
        freeSlots := [slot] + freeSlots;
        activeCount := activeCount - 1;
      }
      r := Ok(());
    }

    method Get(slot: nat) returns (r: Option<Container>)
      requires Valid()
      ensures r == if slot in Live() then Some(Live()[slot]) else None
    {
      r := if slot < capacity then storage[slot] else None;
    }

    /** Empties every slot; the slots freed by it queue up behind those already free, ascending. */
    method Clear()
      requires Valid()
      modifies this, storage
      ensures Valid() && Live() == map[]
      ensures freeSlots == old(freeSlots) + Occupied(old(storage[..]), capacity)
    {
      ghost var cells := storage[..];
      for i := 0 to capacity
        invariant freeSlots == old(freeSlots) + Occupied(cells, i)
        invariant forall j: nat :: j < capacity ==> storage[j] == if j < i then None else cells[j]
        modifies storage, this`freeSlots
      {
        if storage[i].Some? {
          storage[i] := None;
          freeSlots := freeSlots + [i];
        }
      }
      activeCount := 0;
      NoDupConcat(old(freeSlots), Occupied(cells, capacity));
      DistinctSize(freeSlots);
      forall i: nat ensures i in freeSlots <==> i < capacity {
        assert i in Occupied(cells, capacity) <==> i < capacity && cells[i].Some?;
      }
      assert Elements(freeSlots) == UpTo(capacity);
    }

    /** `activeCount` is the number of live slots. */
    lemma CountsAgree()
      requires Valid()
      ensures |Live()| == activeCount
    {
      DistinctSize(freeSlots);
      assert Live().Keys + Elements(freeSlots) == UpTo(capacity);
      assert Live().Keys !! Elements(freeSlots);
      assert |Live()| == |Live().Keys|;
    }
  }

  function Reverse<T>(s: seq<T>): (r: seq<T>)
    ensures |r| == |s| && forall i :: 0 <= i < |s| ==> r[i] == s[|s| - 1 - i]
  {
    seq(|s|, i requires 0 <= i < |s| => s[|s| - 1 - i])
  }

  method FreeAll(arena: AgentArena, slots: seq<nat>)
    requires arena.Valid() && NoDup(slots)
    requires forall k :: 0 <= k < |slots| ==> slots[k] in arena.Live()
    modifies arena, arena.storage
    ensures arena.Valid() && arena.Live() == old(arena.Live()) - Elements(slots)
    ensures arena.freeSlots == Reverse(slots) + old(arena.freeSlots)
  {
    for k := 0 to |slots|
      invariant arena.Valid() && arena.Live() == old(arena.Live()) - Elements(slots[..k])
      invariant arena.freeSlots == Reverse(slots[..k]) + old(arena.freeSlots)
    {
      assert slots[k] !in slots[..k];
      var _ := arena.Deallocate(slots[k]);
      assert slots[..k + 1] == slots[..k] + [slots[k]];
      assert Elements(slots[..k + 1]) == Elements(slots[..k]) + {slots[k]};
      assert Reverse(slots[..k + 1]) == [slots[k]] + Reverse(slots[..k]);
    }
    assert slots[..|slots|] == slots;
  }

  lemma OneMore(out: seq<nat>, slot: nat, free: seq<nat>, left: seq<nat>)
    requires free == [slot] + left
    ensures out + free == (out + [slot]) + left && Elements(out + [slot]) == Elements(out) + {slot}
  {
  }

  /** Takes the first free slots, in the order of the free list. */
  method AllocateAll(arena: AgentArena, ids: seq<nat>) returns (out: seq<nat>)
    requires arena.Valid() && |ids| <= |arena.freeSlots|
    modifies arena, arena.storage
    ensures arena.Valid() && |out| == |ids| && old(arena.freeSlots) == out + arena.freeSlots
    ensures arena.Live().Keys == old(arena.Live().Keys) + Elements(out)
  {
    out := [];
    for k := 0 to |ids|
      invariant arena.Valid() && |out| == k && old(arena.freeSlots) == out + arena.freeSlots
      invariant arena.Live().Keys == old(arena.Live().Keys) + Elements(out)
    {
      hide AgentArena.Valid, AgentArena.Live, Elements;
      arena.CountsAgree();
      ghost var free, before := arena.freeSlots, out;
      var r := arena.Allocate(ids[k]);
      out := out + [r.value];
      OneMore(before, r.value, free, arena.freeSlots);
    }
  }

  /** Slots are reused last-freed-first: freeing any distinct live slots and then allocating as
      many agents hands the same slots out again in reverse order. */
  method FreeThenReuse(arena: AgentArena, slots: seq<nat>, ids: seq<nat>) returns (out: seq<nat>)
    requires arena.Valid() && NoDup(slots) && |ids| == |slots|
    requires forall k :: 0 <= k < |slots| ==> slots[k] in arena.Live()
    modifies arena, arena.storage
    ensures arena.Valid() && out == Reverse(slots)
    ensures arena.Live().Keys == old(arena.Live().Keys) && arena.freeSlots == old(arena.freeSlots)
  {
    ghost var free := arena.freeSlots;
    FreeAll(arena, slots);
    out := AllocateAll(arena, ids);
    assert out == (Reverse(slots) + free)[..|slots|] == Reverse(slots);
    assert arena.freeSlots == (Reverse(slots) + free)[|slots|..] == free;
    assert Elements(out) == Elements(slots) by {
      forall x | x in slots ensures x in out {
        var k :| 0 <= k < |slots| && slots[k] == x;
        assert out[|slots| - 1 - k] == x;
      }
    }
  }
}
