/**
 The hash table object of src/hashtable.c: an array of slots updated in place by probing
 loops. Each method computes the corresponding function of the HashTables module, whatever
 the capacity and the probe step.
 */
module HashTableObject {
  import opened Basics
  import opened Primes
  import opened Hashing
  import opened HashTables
  import HashTableRuns

  class HashTable<V> {
    const cap: nat
    const items: array<Slot<V>>
    var size: nat
    var occupied: nat

    ghost function View(): Table<V>
      reads this, items
    {
      Table(items[..], size, occupied)
    }

    ghost predicate ValidFor(h: Hashes)
      reads this, items
    {
      items.Length == cap > 0 && Inv(h, View())
    }

    ghost predicate Valid()
      reads this, items
    {
      ValidFor(DJB)
    }

    /** hashtable_new_table: capacity from next_prime, all slots empty. */
    constructor (capHint: nat)
      requires capHint < SIZE_T_LIMIT
      ensures Valid() && fresh(items)
      ensures Accepted(cap)
      ensures cap == if LeastAccepted(capHint) < SIZE_T_LIMIT then LeastAccepted(capHint) else 1
      ensures View() == HashTableRuns.NewTable(cap)
    {
      size, occupied := 0, 0;
      var n := NextPrime(capHint);
      cap := n;
      items := new Slot<V>[n](_ => Empty);
      new;
      assert items[..] == HashTableRuns.NewTable<V>(cap).slots;
      HashTableRuns.NewTableKeepsInv<V>(DJB, cap);
    }

    // ------------------------------------------------------------ insertion

    /** hashtable_insert, on the calls that return: replaces the top of the key's stack, pushes, or fails. */
    method Insert(key: string, value: V) returns (ok: bool)
      requires Valid() && InsertReturns(DJB, View(), key)
      modifies this, items
      ensures Valid()
      ensures (View(), ok) == InsertTable(DJB, old(View()), key, value)
    {
      var start := ComputeDjb2(key);
      var step := ComputeDjb2a(key);
      ok := InsertFrom(DJB, key, value, start, step);
    }

    /** The probing loop of hashtable_insert, for given values of the hashes. */
    method InsertFrom(ghost h: Hashes, key: string, value: V, start: nat, step: nat) returns (ok: bool)
      requires ValidFor(h) && InsertReturns(h, View(), key)
      requires start == h.first(key) && step == h.second(key)
      modifies this, items
      ensures ValidFor(h)
      ensures (View(), ok) == InsertTable(h, old(View()), key, value)
    {
      InsertKeepsInv(h, View(), key, value);
      ghost var before := View();
      if size == cap {
        return false;
      }
      var init := start % cap;
      var loc := init;
      ghost var i := 0;
      while items[loc].Item?
        invariant i < Round(h, key, cap) && loc == Loc(h, key, cap, i) && init == Loc(h, key, cap, 0)
        invariant forall j :: 0 <= j < i ==> Blocks(before.slots[Loc(h, key, cap, j)], key)
        invariant View() == before
        decreases Round(h, key, cap) - i
      {
        if !items[loc].deleted {
          if items[loc].key == key {
            InsertsAt(h, before, key, value, i);
            items[loc] := items[loc].(value := value);
            return true;
          }
        } else {
          CountsAfterUpdate(before.slots, loc, Empty);
          occupied := occupied - 1;
          break;
        }
        InsertGoesOn(h, before, key, i);
        loc := NextLoc(loc, step, cap);
        i := i + 1;
        if loc == init {
          return false;
        }
      }
      InsertsAt(h, before, key, value, i);
      items[loc] := Item(key, value, false);
      size := size + 1;
      occupied := occupied + 1;
      return true;
    }

    // ------------------------------------------------------------ search

    /** hashtable_search, on the calls that return: reads the top of the key's stack. */
    method Search(key: string) returns (r: Option<V>)
      requires Valid() && SearchReturns(DJB, items[..], key)
      ensures r == Top(Stack(DJB, View(), key))
    {
      SearchReadsTop(DJB, View(), key);
      var start := ComputeDjb2(key);
      var step := ComputeDjb2a(key);
      r := SearchFrom(DJB, key, start, step);
    }

    method SearchFrom(ghost h: Hashes, key: string, start: nat, step: nat) returns (r: Option<V>)
      requires ValidFor(h) && SearchReturns(h, items[..], key)
      requires start == h.first(key) && step == h.second(key)
      ensures r == SearchTable(h, View(), key)
    {
      var init := start % cap;
      var loc := init;
      ghost var i := 0;
      while items[loc].Item?
        invariant i < Round(h, key, cap) && loc == Loc(h, key, cap, i) && init == Loc(h, key, cap, 0)
        invariant forall j :: 0 <= j < i ==> Skipped(items[..][Loc(h, key, cap, j)], key)
        decreases Round(h, key, cap) - i
      {
        if !items[loc].deleted {
          if items[loc].key == key {
            SearchStopsAt(h, items[..], key, i);
            return Some(items[loc].value);
          }
        }
        SearchGoesOn(h, items[..], key, i);
        loc := NextLoc(loc, step, cap);
        i := i + 1;
        if loc == init {
          return None;
        }
      }
      SearchStopsAt(h, items[..], key, i);
      return None;
    }

    // ------------------------------------------------------------ removal

    /** hashtable_remove, on the calls that return: pops the key's stack. */
    method Remove(key: string) returns (ok: bool)
      requires Valid() && RemoveReturns(DJB, items[..], key)
      modifies this, items
      ensures Valid()
      ensures (View(), ok) == RemoveTable(DJB, old(View()), key)
    {
      var start := ComputeDjb2(key);
      var step := ComputeDjb2a(key);
      ok := RemoveFrom(DJB, key, start, step);
    }

    method RemoveFrom(ghost h: Hashes, key: string, start: nat, step: nat) returns (ok: bool)
      requires ValidFor(h) && RemoveReturns(h, items[..], key)
      requires start == h.first(key) && step == h.second(key)
      modifies this, items
      ensures ValidFor(h)
      ensures (View(), ok) == RemoveTable(h, old(View()), key)
    {
      RemoveKeepsInv(h, View(), key);
      RemoveReturnsInFirstRound(h, items[..], key);
      ghost var before := items[..];
      var loc := start % cap;
      ghost var i := 0;
      while items[loc].Item?
        invariant i <= SearchStop(h, before, key, 0) && loc == Loc(h, key, cap, i)
        invariant items[..] == before && size == old(size) && occupied == old(occupied)
        decreases SearchStop(h, before, key, 0) - i
      {
        if !items[loc].deleted {
          if items[loc].key == key {
            CountsAfterUpdate(before, loc, items[loc].(deleted := true));
            items[loc] := items[loc].(deleted := true);
            size := size - 1;
            return true;
          }
        }
        loc := NextLoc(loc, step, cap);
        i := i + 1;
      }
      return false;
    }
  }
}
