/** The pool of reusable mutable variables. A pooled variable is shared by reference counting. */
module LocalAllocator {
  import opened Options

  type Id = nat

  datatype Item = Item(elem: nat, atomic: bool)

  /** What the allocator hands out: a counted reference to a pooled variable, or a variable of its own. */
  datatype ExpandElement = Managed(id: Id, item: Item) | Plain(id: Id, item: Item)

  type Pool = map<Item, seq<Id>>

  /** Only the pool refers to the variable. */
  predicate Unused(strongCount: map<Id, nat>, id: Id) {
    id in strongCount && strongCount[id] == 1
  }

  function WithVariable(pool: Pool, item: Item, id: Id): Pool {
    pool[item := (if item in pool then pool[item] else []) + [id]]
  }

  ghost predicate InPool(pool: Pool, item: Item, id: Id) {
    item in pool && id in pool[item]
  }

  /** Every pooled variable has one type, and its count is one more than its live handles. */
  ghost predicate PoolOk(pool: Pool, strongCount: map<Id, nat>, nextId: Id, live: multiset<ExpandElement>) {
    && (forall item: Item, id: Id ::
       InPool(pool, item, id) ==> id < nextId && id in strongCount && strongCount[id] == 1 + live[Managed(id, item)])
    && (forall item: Item, item': Item, id: Id :: InPool(pool, item, id) && InPool(pool, item', id) ==> item == item')
    && (forall e :: e in live ==> e.Managed? && InPool(pool, e.item, e.id))
  }

  /** A new variable with one reference in the pool and one given out. */
  lemma PoolGrows(pool: Pool, strongCount: map<Id, nat>, id: Id, live: multiset<ExpandElement>, item: Item)
    requires PoolOk(pool, strongCount, id, live)
    ensures PoolOk(WithVariable(pool, item, id), strongCount[id := 2], id + 1, live + multiset{Managed(id, item)})
    ensures live[Managed(id, item)] == 0
  {
    var pool' := WithVariable(pool, item, id);
    assert forall x: Item :: !InPool(pool, x, id);
    forall x: Item, y: Id
      ensures InPool(pool', x, y) <==> InPool(pool, x, y) || (x == item && y == id)
    {
    }
  }

  class Allocator {
    /** The pooled variables of each type, in the order they were added. */
    var pool: Pool
    /** The reference count of every pooled variable; the pool holds one reference itself. */
    var strongCount: map<Id, nat>
    var nextId: Id
    /** The handles to pooled variables that were given out and not dropped. */
    ghost var live: multiset<ExpandElement>

    ghost predicate Valid()
      reads this
    {
      PoolOk(pool, strongCount, nextId, live)
    }

    constructor ()
      ensures Valid() && live == multiset{} && nextId == 0
    {
      pool, strongCount, nextId, live := map[], map[], 0, multiset{};
    }

    method NewLocalIndex() returns (id: Id)
      modifies this`nextId
      ensures id == old(nextId) && nextId == id + 1
    {
      id := nextId;
      nextId := nextId + 1;
    }

    /** A variable that is never reused. */
    method CreateLocalRestricted(item: Item) returns (e: ExpandElement)
      requires Valid()
      modifies this`nextId
      ensures Valid() && e == Plain(old(nextId), item) && nextId == old(nextId) + 1
      ensures forall x: Item :: !InPool(pool, x, e.id)
    {
      var id := NewLocalIndex();
      e := Plain(id, item);
    }

    /** The last pooled variable of the type that only the pool refers to. */
    method FindUnused(item: Item) returns (r: Option<Id>)
      requires Valid()
      ensures r.Some? ==> InPool(pool, item, r.value) && strongCount[r.value] == 1
      ensures r.Some? ==> exists i :: 0 <= i < |pool[item]| && pool[item][i] == r.value && forall k ::
              i < k < |pool[item]| ==> !Unused(strongCount, pool[item][k])
      ensures r.None? ==> forall id: Id :: InPool(pool, item, id) ==> strongCount[id] > 1
    {
      if item !in pool {
        return None;
      }
      var vars := pool[item];
      assert forall k :: 0 <= k < |vars| ==> InPool(pool, item, vars[k]);
      for i := |vars| downto 0
        invariant forall k :: i <= k < |vars| ==> strongCount[vars[k]] > 1
      {
        if strongCount[vars[i]] == 1 {
          return Some(vars[i]);
        }
      }
      return None;
    }

    /** Another handle to a pooled variable. */
    method Clone(e: ExpandElement) returns (r: ExpandElement)
      requires Valid() && e in live
      modifies this`strongCount, this`live
      ensures Valid() && r == e && live == old(live) + multiset{e}
    {
      strongCount := strongCount[e.id := strongCount[e.id] + 1];
      live := live + multiset{e};
      r := e;
    }

    method Drop(e: ExpandElement)
      requires Valid() && e in live
      modifies this`strongCount, this`live
      ensures Valid() && live == old(live) - multiset{e}
    {
      assert InPool(pool, e.item, e.id);
      strongCount := strongCount[e.id := strongCount[e.id] - 1];
      live := live - multiset{e};
    }

    method AddLocalMut(item: Item) returns (id: Id)
      requires Valid()
      modifies this
      ensures Valid() && id == old(nextId) && live == old(live) + multiset{Managed(id, item)}
      ensures old(live)[Managed(id, item)] == 0
      ensures nextId == id + 1 && strongCount == old(strongCount)[id := 2]
      ensures pool.Keys == old(pool).Keys + {item}
      ensures pool[item] == (if item in old(pool) then old(pool)[item] else []) + [id]
      ensures forall x :: x in old(pool) && x != item ==> pool[x] == old(pool)[x]
    {
      id := NewLocalIndex();
      PoolGrows(pool, strongCount, id, live, item);
      strongCount := strongCount[id := 2];
      pool := pool[item := (if item in pool then pool[item] else []) + [id]];
      live := live + multiset{Managed(id, item)};
    }

    /** A variable that no other live handle refers to: a reused one if there is one, else a new one. */
    method CreateLocalMut(item: Item) returns (e: ExpandElement)
      requires Valid()
      modifies this
      ensures Valid() && e.item == item
      ensures item.atomic ==> e.Plain? && live == old(live)
      ensures !item.atomic ==> e.Managed? && live == old(live) + multiset{e}
      ensures forall other :: other in old(live) ==> other.id != e.id
      ensures !item.atomic && (exists id: Id :: InPool(old(pool), item, id) && old(live)[Managed(id, item)] == 0) ==>
                pool == old(pool) && nextId == old(nextId)
      ensures item.atomic || (forall id: Id :: InPool(old(pool), item, id) ==> old(live)[Managed(id, item)] > 0) ==>
                e.id == old(nextId) && nextId == old(nextId) + 1
    {
      if item.atomic {
        e := CreateLocalRestricted(item);
        return;
      }
      var unused := FindUnused(item);
      if unused.Some? {
        e := Managed(unused.value, item);
        strongCount := strongCount[unused.value := strongCount[unused.value] + 1];
        live := live + multiset{e};
      } else {
        var id := AddLocalMut(item);
        e := Managed(id, item);
      }
    }

    /** A live handle may be mutated in place exactly if it is the only one. */
    method CanMut(e: ExpandElement) returns (r: bool)
      requires Valid() && (e.Managed? ==> e in live)
      ensures r <==> e.Managed? && live[e] == 1
    {
      if e.Plain? {
        return false;
      }
      assert InPool(pool, e.item, e.id);
      r := strongCount[e.id] <= 2;
    }
  }
}
