/**
 The open-addressing table of src/hashtable.c as a value: what each call computes, and the
 invariant all calls keep. The class that updates an array in place is in HashTable.dfy.

 One key can have several live copies, because insertion takes the first tombstone it meets
 without looking further. The values of a key's live copies, in probe order, form its stack.

 Everything here holds for any pair of hashes `h`; the program uses djb2 and djb2a.
 */
module HashTables {
  import opened Basics
  import opened Primes
  import opened Orbits
  import opened Hashing

  /** A slot holds no item, or an item that may be flagged as deleted (a tombstone). */
  datatype Slot<V> = Empty | Item(key: string, value: V, deleted: bool)

  datatype Table<V> = Table(slots: seq<Slot<V>>, size: nat, occupied: nat)

  predicate Live<V>(s: Slot<V>) {
    s.Item? && !s.deleted
  }

  predicate Holds<V>(s: Slot<V>, key: string) {
    Live(s) && s.key == key
  }

  /** Insertion probes past live items of other keys only. */
  predicate Blocks<V>(s: Slot<V>, key: string) {
    Live(s) && s.key != key
  }

  /** Search and removal probe past every item that is not a live item of the key. */
  predicate Skipped<V>(s: Slot<V>, key: string) {
    s.Item? && !Holds(s, key)
  }

  // ---------------------------------------------------------------- probe paths

  /** The next probe as the code computes it, on 64-bit words. */
  function NextLoc(loc: nat, hash: nat, cap: nat): (next: nat)
    requires cap > 0
    ensures next < cap
  {
    (loc + hash + 1) % SIZE_T_LIMIT % cap
  }

  /** The slot of the i-th probe for a key. */
  ghost function Loc(h: Hashes, key: string, cap: nat, i: nat): (loc: nat)
    requires cap > 0
    ensures loc < cap
  {
    if i == 0 then h.first(key) % cap else NextLoc(Loc(h, key, cap, i - 1), h.second(key), cap)
  }

  /** The i-th probe meets a slot that was probed before. */
  ghost predicate Repeats(h: Hashes, key: string, cap: nat, i: nat)
    requires cap > 0
  {
    exists j :: 0 <= j < i && Loc(h, key, cap, j) == Loc(h, key, cap, i)
  }

  ghost predicate IsRound(h: Hashes, key: string, cap: nat, n: nat)
    requires cap > 0
  {
    1 <= n <= cap && Repeats(h, key, cap, n) && forall i :: 0 <= i < n ==> !Repeats(h, key, cap, i)
  }

  ghost function Probed(h: Hashes, key: string, cap: nat, n: nat): set<nat>
    requires cap > 0
  {
    set i | 0 <= i < n :: Loc(h, key, cap, i)
  }

  lemma {:induction false} ProbedSize(h: Hashes, key: string, cap: nat, n: nat)
    requires cap > 0 && forall i :: 0 <= i < n ==> !Repeats(h, key, cap, i)
    ensures |Probed(h, key, cap, n)| == n
  {
    if n > 0 {
      ProbedSize(h, key, cap, n - 1);
      var last := Loc(h, key, cap, n - 1);
      assert !Repeats(h, key, cap, n - 1);
      assert last !in Probed(h, key, cap, n - 1);
      assert Probed(h, key, cap, n) == Probed(h, key, cap, n - 1) + {last};
    }
  }

  /** There are only `cap` slots, so some probe among the first cap + 1 repeats another. */
  lemma SomeProbeRepeats(h: Hashes, key: string, cap: nat)
    requires cap > 0
    ensures exists n :: 0 <= n <= cap && Repeats(h, key, cap, n)
  {
    if forall n :: 0 <= n <= cap ==> !Repeats(h, key, cap, n) {
      ProbedSize(h, key, cap, cap + 1);
      assert Probed(h, key, cap, cap + 1) <= Below(cap);
      SubsetIsSmaller(Probed(h, key, cap, cap + 1), Below(cap));
    }
  }

  lemma RoundExists(h: Hashes, key: string, cap: nat)
    requires cap > 0
    ensures exists n :: IsRound(h, key, cap, n)
  {
    SomeProbeRepeats(h, key, cap);
    var n := 0;
    while !Repeats(h, key, cap, n)
      invariant 0 <= n <= cap
      invariant forall i :: 0 <= i < n ==> !Repeats(h, key, cap, i)
      decreases cap - n
    {
      n := n + 1;
    }
    assert IsRound(h, key, cap, n);
  }

  /** The number of different slots on the path; the probes before it are all distinct. */
  ghost function Round(h: Hashes, key: string, cap: nat): (n: nat)
    requires cap > 0
    ensures 1 <= n <= cap && IsRound(h, key, cap, n)
  {
    RoundExists(h, key, cap);
    var n :| IsRound(h, key, cap, n);
    n
  }

  lemma DistinctLocs(h: Hashes, key: string, cap: nat, i: nat, j: nat)
    requires cap > 0 && i < Round(h, key, cap) && j < Round(h, key, cap) && i != j
    ensures Loc(h, key, cap, i) != Loc(h, key, cap, j)
  {
    assert !Repeats(h, key, cap, i) && !Repeats(h, key, cap, j);
  }

  /** Probing on for ever meets only the slots of the first round. */
  lemma {:induction false} ProbesStayInRound(h: Hashes, key: string, cap: nat, i: nat) returns (r: nat)
    requires cap > 0
    ensures r < Round(h, key, cap) && Loc(h, key, cap, i) == Loc(h, key, cap, r)
  {
    var n := Round(h, key, cap);
    if i == 0 {
      r := 0;
    } else {
      r := ProbesStayInRound(h, key, cap, i - 1);
      r := r + 1;
      if r == n {
        r :| 0 <= r < n && Loc(h, key, cap, r) == Loc(h, key, cap, n);
      }
    }
  }

  /** The path comes back to its start, so that the wrap-around test ends the loop. */
  ghost predicate Closes(h: Hashes, key: string, cap: nat)
    requires cap > 0
  {
    Loc(h, key, cap, Round(h, key, cap)) == Loc(h, key, cap, 0)
  }

  lemma ClosesIff(h: Hashes, key: string, cap: nat)
    requires cap > 0
    ensures Closes(h, key, cap) <==> exists i :: 1 <= i && Loc(h, key, cap, i) == Loc(h, key, cap, 0)
  {
    if i :| 1 <= i && Loc(h, key, cap, i) == Loc(h, key, cap, 0) {
      ReturnCloses(h, key, cap, i);
    }
  }

  lemma {:induction false} ReturnCloses(h: Hashes, key: string, cap: nat, i: nat)
    requires cap > 0 && 1 <= i && Loc(h, key, cap, i) == Loc(h, key, cap, 0)
    ensures Closes(h, key, cap)
  {
    var n := Round(h, key, cap);
    if i < n {
      DistinctLocs(h, key, cap, 0, i);
    } else if i > n {
      var j :| 0 <= j < n && Loc(h, key, cap, j) == Loc(h, key, cap, n);
      if j > 0 {
        NeverBack(h, key, cap, j, i);
      }
    }
  }

  /** A path that repeats a later slot first never comes back to its start. */
  lemma {:induction false} NeverBack(h: Hashes, key: string, cap: nat, j: nat, i: nat)
    requires cap > 0 && 0 < j < Round(h, key, cap) <= i
    requires Loc(h, key, cap, j) == Loc(h, key, cap, Round(h, key, cap))
    ensures exists r :: j <= r < Round(h, key, cap) && Loc(h, key, cap, i) == Loc(h, key, cap, r)
    ensures Loc(h, key, cap, i) != Loc(h, key, cap, 0)
  {
    var n := Round(h, key, cap);
    var r := j;
    if i > n {
      NeverBack(h, key, cap, j, i - 1);
      r :| j <= r < n && Loc(h, key, cap, i - 1) == Loc(h, key, cap, r);
      r := if r + 1 == n then j else r + 1;
    }
    assert Loc(h, key, cap, i) == Loc(h, key, cap, r);
    DistinctLocs(h, key, cap, 0, r);
  }

  // ---------------------------------------------------------------- paths that are orbits

  /** The sum in NextLoc never wraps, so the path is a translation orbit. */
  predicate Fits(h: Hashes, key: string, cap: nat) {
    h.second(key) + cap < SIZE_T_LIMIT
  }

  lemma {:induction false} FittingPathIsOrbit(h: Hashes, key: string, cap: nat, i: nat)
    requires cap > 0 && Fits(h, key, cap)
    ensures Loc(h, key, cap, i) == Orbit(h.first(key), h.second(key) + 1, cap, i)
  {
    if i > 0 {
      FittingPathIsOrbit(h, key, cap, i - 1);
      NoWrap(Loc(h, key, cap, i - 1), h.second(key), cap);
    }
  }

  lemma NoWrap(loc: nat, hash: nat, cap: nat)
    requires loc < cap && hash + cap < SIZE_T_LIMIT
    ensures NextLoc(loc, hash, cap) == (loc + (hash + 1)) % cap
  {
    assert loc + hash + 1 < SIZE_T_LIMIT;
  }

  /** The program's probes: djb2 says where a key's path begins, and djb2a, plus one, how far it goes each time. */
  lemma DjbProbes(key: string, cap: nat, i: nat)
    requires cap > 0 && Djb2a(key) + cap < 0x1_0000_0000_0000_0000
    ensures Loc(DJB, key, cap, i) == (Djb2(key) + i * (Djb2a(key) + 1)) % cap
  {
    FittingPathIsOrbit(DJB, key, cap, i);
    ClosedForm(Djb2(key), Djb2a(key) + 1, cap, i);
    var step := Djb2a(key) + 1;
    DivModUnique(Laps(Djb2(key), step, cap, i), cap, Orbit(Djb2(key), step, cap, i));
  }

  /** A path that does not wrap at 2^64 comes back to its start, after a round of the orbit. */
  lemma FittingPathCloses(h: Hashes, key: string, cap: nat)
    requires cap > 0 && Fits(h, key, cap)
    ensures Closes(h, key, cap) && Round(h, key, cap) == OrbitLength(h.first(key), h.second(key) + 1, cap)
  {
    var m, n := OrbitLength(h.first(key), h.second(key) + 1, cap), Round(h, key, cap);
    FittingPathIsOrbit(h, key, cap, 0);
    FittingPathIsOrbit(h, key, cap, m);
    assert Repeats(h, key, cap, m);
    ReturnCloses(h, key, cap, m);
    if n < m {
      FittingPathIsOrbit(h, key, cap, n);
    }
  }

  /** The probes of the key's path reach every slot of the table. */
  ghost predicate CoversTable(h: Hashes, key: string, cap: nat)
    requires cap > 0
  {
    Round(h, key, cap) == cap
  }

  lemma CoveringPathReaches(h: Hashes, key: string, cap: nat, loc: nat) returns (i: nat)
    requires cap > 0 && CoversTable(h, key, cap) && loc < cap
    ensures i < cap && Loc(h, key, cap, i) == loc
  {
    ProbedSize(h, key, cap, cap);
    SubsetOfSameSize(Probed(h, key, cap, cap), Below(cap));
    assert loc in Below(cap);
    i :| 0 <= i < cap && Loc(h, key, cap, i) == loc;
  }

  /** For the capacities of new tables, which keys probe the whole table. */
  lemma CoversTableIff(h: Hashes, key: string, cap: nat)
    requires Accepted(cap) && Fits(h, key, cap)
    ensures CoversTable(h, key, cap) <==> (cap == 1 || (h.second(key) + 1) % cap != 0)
  {
    FittingPathCloses(h, key, cap);
    FullCycle(h.first(key), h.second(key) + 1, cap);
  }

  // ---------------------------------------------------------------- the stack of a key

  /** The values of the key's live copies, in probe order from the i-th probe on. */
  ghost function StackFrom<V>(h: Hashes, slots: seq<Slot<V>>, key: string, i: nat): seq<V>
    requires |slots| > 0
    decreases Round(h, key, |slots|) - i
  {
    if i >= Round(h, key, |slots|) then []
    else
      var s := slots[Loc(h, key, |slots|, i)];
      if Holds(s, key) then [s.value] + StackFrom(h, slots, key, i + 1) else StackFrom(h, slots, key, i + 1)
  }

  ghost function Stack<V>(h: Hashes, t: Table<V>, key: string): seq<V>
    requires |t.slots| > 0
  {
    StackFrom(h, t.slots, key, 0)
  }

  lemma {:induction false} StackSkips<V>(h: Hashes, slots: seq<Slot<V>>, key: string, i: nat, n: nat)
    requires |slots| > 0 && i <= n <= Round(h, key, |slots|)
    requires forall j :: i <= j < n ==> !Holds(slots[Loc(h, key, |slots|, j)], key)
    ensures StackFrom(h, slots, key, i) == StackFrom(h, slots, key, n)
    decreases n - i
  {
    if i < n {
      StackSkips(h, slots, key, i + 1, n);
    }
  }

  /** Changing a slot that holds the key neither before nor after leaves its stack alone. */
  lemma {:induction false} StackUnaffected<V>(h: Hashes, slots: seq<Slot<V>>, key: string, i: nat, loc: nat, s: Slot<V>)
    requires loc < |slots| && !Holds(slots[loc], key) && !Holds(s, key)
    ensures StackFrom(h, slots[loc := s], key, i) == StackFrom(h, slots, key, i)
    decreases Round(h, key, |slots|) - i
  {
    if i < Round(h, key, |slots|) {
      StackUnaffected(h, slots, key, i + 1, loc, s);
    }
  }

  /** Changing the slot of an earlier probe leaves the rest of the stack alone. */
  lemma {:induction false} StackAfter<V>(h: Hashes, slots: seq<Slot<V>>, key: string, i: nat, n: nat, s: Slot<V>)
    requires |slots| > 0 && n < i && n < Round(h, key, |slots|)
    ensures StackFrom(h, slots[Loc(h, key, |slots|, n) := s], key, i) == StackFrom(h, slots, key, i)
    decreases Round(h, key, |slots|) - i
  {
    if i < Round(h, key, |slots|) {
      DistinctLocs(h, key, |slots|, i, n);
      StackAfter(h, slots, key, i + 1, n, s);
    }
  }

  // ---------------------------------------------------------------- the invariant

  ghost predicate PathHeld<V>(h: Hashes, slots: seq<Slot<V>>, key: string, n: nat)
    requires |slots| > 0
  {
    forall j :: 0 <= j < n ==> slots[Loc(h, key, |slots|, j)].Item?
  }

  /** No slot before a live item on its own probe path is empty. */
  ghost predicate NoGaps<V>(h: Hashes, slots: seq<Slot<V>>)
    requires |slots| > 0
  {
    forall key: string, i: nat | i < Round(h, key, |slots|) && Holds(slots[Loc(h, key, |slots|, i)], key) ::
      PathHeld(h, slots, key, i)
  }

  ghost predicate OnOwnPath<V>(h: Hashes, slots: seq<Slot<V>>, loc: nat)
    requires loc < |slots|
  {
    slots[loc].Item? ==>
      exists i: nat :: i < Round(h, slots[loc].key, |slots|) && Loc(h, slots[loc].key, |slots|, i) == loc
  }

  ghost function CountLive<V>(slots: seq<Slot<V>>): nat {
    if slots == [] then 0
    else CountLive(slots[..|slots| - 1]) + if Live(slots[|slots| - 1]) then 1 else 0
  }

  ghost function CountItems<V>(slots: seq<Slot<V>>): nat {
    if slots == [] then 0
    else CountItems(slots[..|slots| - 1]) + if slots[|slots| - 1].Item? then 1 else 0
  }

  ghost predicate Inv<V>(h: Hashes, t: Table<V>) {
    && |t.slots| > 0
    && NoGaps(h, t.slots)
    && (forall loc :: 0 <= loc < |t.slots| ==> OnOwnPath(h, t.slots, loc))
    && t.size == CountLive(t.slots)
    && t.occupied == CountItems(t.slots)
  }

  lemma {:induction false} CountsAfterUpdate<V>(slots: seq<Slot<V>>, loc: nat, s: Slot<V>)
    requires loc < |slots|
    ensures CountLive(slots[loc := s]) + (if Live(slots[loc]) then 1 else 0)
         == CountLive(slots) + (if Live(s) then 1 else 0)
    ensures CountItems(slots[loc := s]) + (if slots[loc].Item? then 1 else 0)
         == CountItems(slots) + (if s.Item? then 1 else 0)
  {
    var n := |slots| - 1;
    if loc == n {
      assert slots[loc := s][..n] == slots[..n];
    } else {
      assert slots[loc := s][..n] == slots[..n][loc := s];
      CountsAfterUpdate(slots[..n], loc, s);
    }
  }

  lemma {:induction false} CountLiveBelowCap<V>(slots: seq<Slot<V>>)
    ensures CountLive(slots) <= CountItems(slots) <= |slots|
    ensures CountLive(slots) < |slots| ==> exists loc :: 0 <= loc < |slots| && !Live(slots[loc])
    ensures CountItems(slots) < |slots| ==> exists loc :: 0 <= loc < |slots| && slots[loc].Empty?
  {
    if slots != [] {
      var n := |slots| - 1;
      CountLiveBelowCap(slots[..n]);
      if CountLive(slots) < |slots| && Live(slots[n]) {
        var loc :| 0 <= loc < n && !Live(slots[..n][loc]);
        assert !Live(slots[loc]);
      }
      if CountItems(slots) < |slots| && slots[n].Item? {
        var loc :| 0 <= loc < n && slots[..n][loc].Empty?;
        assert slots[loc].Empty?;
      }
    }
  }

  lemma {:induction false} EmptySlots<V>(slots: seq<Slot<V>>)
    requires forall loc :: 0 <= loc < |slots| ==> slots[loc].Empty?
    ensures CountLive(slots) == 0 && CountItems(slots) == 0
  {
    if slots != [] {
      EmptySlots(slots[..|slots| - 1]);
    }
  }

  /** Beyond an empty slot on its path a key has no live copies. */
  lemma NothingPastEmpty<V>(h: Hashes, slots: seq<Slot<V>>, key: string, n: nat)
    requires |slots| > 0 && NoGaps(h, slots)
    requires n < Round(h, key, |slots|) && slots[Loc(h, key, |slots|, n)].Empty?
    ensures StackFrom(h, slots, key, n) == []
  {
    var cap := |slots|;
    forall j | n <= j < Round(h, key, cap)
      ensures !Holds(slots[Loc(h, key, cap, j)], key)
    {
      assert Holds(slots[Loc(h, key, cap, j)], key) ==> PathHeld(h, slots, key, j);
    }
    StackSkips(h, slots, key, n, Round(h, key, cap));
  }

  /** Filling or flagging a slot, never emptying one, opens no gap. */
  lemma UpdateKeepsPlacement<V>(h: Hashes, slots: seq<Slot<V>>, key: string, i: nat, s: Slot<V>)
    requires |slots| > 0 && NoGaps(h, slots)
    requires forall loc :: 0 <= loc < |slots| ==> OnOwnPath(h, slots, loc)
    requires i < Round(h, key, |slots|) && s.Item? && s.key == key
    requires Live(s) ==> PathHeld(h, slots, key, i)
    ensures var slots' := slots[Loc(h, key, |slots|, i) := s];
            NoGaps(h, slots') && forall loc :: 0 <= loc < |slots'| ==> OnOwnPath(h, slots', loc)
  {
    var cap := |slots|;
    var at := Loc(h, key, cap, i);
    var slots' := slots[at := s];
    forall k: string, n: nat | n < Round(h, k, cap) && Holds(slots'[Loc(h, k, cap, n)], k)
      ensures PathHeld(h, slots', k, n)
    {
      if Loc(h, k, cap, n) == at {
        if n != i {
          DistinctLocs(h, k, cap, n, i);
        }
        assert PathHeld(h, slots, k, n);
      } else {
        assert PathHeld(h, slots, k, n);
      }
    }
    forall loc | 0 <= loc < |slots'|
      ensures OnOwnPath(h, slots', loc)
    {
      if loc == at {
        assert Loc(h, s.key, cap, i) == loc;
      } else {
        assert OnOwnPath(h, slots, loc);
      }
    }
  }

  // ---------------------------------------------------------------- insertion

  /** The probe at which the insertion loop stops, or Round if it comes round. */
  ghost function InsertStop<V>(h: Hashes, slots: seq<Slot<V>>, key: string, i: nat): (n: nat)
    requires |slots| > 0 && i <= Round(h, key, |slots|)
    ensures i <= n <= Round(h, key, |slots|)
    ensures forall j :: i <= j < n ==> Blocks(slots[Loc(h, key, |slots|, j)], key)
    ensures n < Round(h, key, |slots|) ==> !Blocks(slots[Loc(h, key, |slots|, n)], key)
    decreases Round(h, key, |slots|) - i
  {
    if i == Round(h, key, |slots|) || !Blocks(slots[Loc(h, key, |slots|, i)], key) then i
    else InsertStop(h, slots, key, i + 1)
  }

  lemma InsertStopsAt<V>(h: Hashes, slots: seq<Slot<V>>, key: string, n: nat)
    requires |slots| > 0 && n <= Round(h, key, |slots|)
    requires forall j :: 0 <= j < n ==> Blocks(slots[Loc(h, key, |slots|, j)], key)
    requires n < Round(h, key, |slots|) ==> !Blocks(slots[Loc(h, key, |slots|, n)], key)
    ensures InsertStop(h, slots, key, 0) == n
  {
  }

  ghost function InsertTable<V>(h: Hashes, t: Table<V>, key: string, value: V): (r: (Table<V>, bool))
    requires |t.slots| > 0
    ensures |r.0.slots| == |t.slots|
  {
    var cap := |t.slots|;
    if t.size == cap then (t, false)
    else
      var n := InsertStop(h, t.slots, key, 0);
      if n == Round(h, key, cap) then (t, false)
      else
        var loc := Loc(h, key, cap, n);
        var s := t.slots[loc];
        var slots := t.slots[loc := Item(key, value, false)];
        if Live(s) then (t.(slots := slots), true)
        else if s.Item? then (Table(slots, t.size + 1, t.occupied), true)
        else (Table(slots, t.size + 1, t.occupied + 1), true)
  }

  lemma InsertsAt<V>(h: Hashes, t: Table<V>, key: string, value: V, n: nat)
    requires |t.slots| > 0 && t.size != |t.slots| && n < Round(h, key, |t.slots|)
    requires forall j :: 0 <= j < n ==> Blocks(t.slots[Loc(h, key, |t.slots|, j)], key)
    requires !Blocks(t.slots[Loc(h, key, |t.slots|, n)], key)
    ensures var loc := Loc(h, key, |t.slots|, n);
            var slots := t.slots[loc := Item(key, value, false)];
            InsertTable(h, t, key, value) ==
              if Live(t.slots[loc]) then (t.(slots := slots), true)
              else (Table(slots, t.size + 1, if t.slots[loc].Item? then t.occupied else t.occupied + 1), true)
  {
    InsertStopsAt(h, t.slots, key, n);
  }

  /** Some slot on the path is free for the key: empty, a tombstone, or its own. */
  ghost predicate HasRoom<V>(h: Hashes, slots: seq<Slot<V>>, key: string)
    requires |slots| > 0
  {
    exists i: nat :: i < Round(h, key, |slots|) && !Blocks(slots[Loc(h, key, |slots|, i)], key)
  }

  /** The key has a live copy with only live items before it on the path. */
  ghost predicate TopIsExposed<V>(h: Hashes, slots: seq<Slot<V>>, key: string)
    requires |slots| > 0
  {
    exists n: nat :: n < Round(h, key, |slots|) && Holds(slots[Loc(h, key, |slots|, n)], key) && PathLive(h, slots, key, n)
  }

  ghost predicate PathLive<V>(h: Hashes, slots: seq<Slot<V>>, key: string, n: nat)
    requires |slots| > 0
  {
    forall j :: 0 <= j < n ==> Live(slots[Loc(h, key, |slots|, j)])
  }

  lemma ExposedIffInsertStopsAtLive<V>(h: Hashes, slots: seq<Slot<V>>, key: string)
    requires |slots| > 0
    ensures TopIsExposed(h, slots, key) <==>
              var n := InsertStop(h, slots, key, 0);
              n < Round(h, key, |slots|) && Live(slots[Loc(h, key, |slots|, n)])
  {
    var n := InsertStop(h, slots, key, 0);
    if n < Round(h, key, |slots|) && Live(slots[Loc(h, key, |slots|, n)]) {
      assert PathLive(h, slots, key, n);
    }
  }

  /**
   Insertion returns at once on a full table; otherwise only if some probe meets a slot that
   is free for the key, or the path comes back to its start.
   */
  ghost predicate InsertReturns<V>(h: Hashes, t: Table<V>, key: string)
    requires |t.slots| > 0
  {
    t.size == |t.slots| || Closes(h, key, |t.slots|) || exists i: nat :: !Blocks(t.slots[Loc(h, key, |t.slots|, i)], key)
  }

  /** Insertion returns exactly when its loop stops, or comes round, within the first round. */
  lemma InsertReturnsInFirstRound<V>(h: Hashes, t: Table<V>, key: string)
    requires |t.slots| > 0
    ensures InsertReturns(h, t, key) <==>
              t.size == |t.slots| || Closes(h, key, |t.slots|) || InsertStop(h, t.slots, key, 0) < Round(h, key, |t.slots|)
  {
    var n := InsertStop(h, t.slots, key, 0);
    if i: nat :| !Blocks(t.slots[Loc(h, key, |t.slots|, i)], key) {
      var r := ProbesStayInRound(h, key, |t.slots|, i);
    }
  }

  /** In a call that returns, a probe that does not stop is back at the start just when the round is over. */
  lemma InsertGoesOn<V>(h: Hashes, t: Table<V>, key: string, i: nat)
    requires |t.slots| > 0 && InsertReturns(h, t, key) && t.size != |t.slots| && i < Round(h, key, |t.slots|)
    requires forall j :: 0 <= j <= i ==> Blocks(t.slots[Loc(h, key, |t.slots|, j)], key)
    ensures Loc(h, key, |t.slots|, i + 1) == Loc(h, key, |t.slots|, 0) <==> i + 1 == Round(h, key, |t.slots|)
    ensures i + 1 == Round(h, key, |t.slots|) ==> InsertStop(h, t.slots, key, 0) == i + 1
  {
    InsertReturnsInFirstRound(h, t, key);
    if i + 1 == Round(h, key, |t.slots|) {
      InsertStopsAt(h, t.slots, key, i + 1);
    } else {
      DistinctLocs(h, key, |t.slots|, 0, i + 1);
    }
  }

  lemma InsertSucceedsIff<V>(h: Hashes, t: Table<V>, key: string, value: V)
    requires |t.slots| > 0
    ensures InsertTable(h, t, key, value).1 <==> t.size != |t.slots| && HasRoom(h, t.slots, key)
  {
    var n := InsertStop(h, t.slots, key, 0);
  }

  lemma InsertKeepsInv<V>(h: Hashes, t: Table<V>, key: string, value: V)
    requires Inv(h, t)
    ensures Inv(h, InsertTable(h, t, key, value).0)
  {
    var (t', ok) := InsertTable(h, t, key, value);
    if ok {
      var n := InsertStop(h, t.slots, key, 0);
      var s := Item(key, value, false);
      UpdateKeepsPlacement(h, t.slots, key, n, s);
      CountsAfterUpdate(t.slots, Loc(h, key, |t.slots|, n), s);
    }
  }

  /** A successful insertion replaces the top of the key's stack, or pushes. */
  lemma InsertOnStack<V>(h: Hashes, t: Table<V>, key: string, value: V)
    requires Inv(h, t)
    ensures var (t', ok) := InsertTable(h, t, key, value);
            && (!ok ==> t' == t)
            && (ok && TopIsExposed(h, t.slots, key) ==>
                  Stack(h, t, key) != [] && Stack(h, t', key) == [value] + Stack(h, t, key)[1..] && t'.size == t.size)
            && (ok && !TopIsExposed(h, t.slots, key) ==>
                  Stack(h, t', key) == [value] + Stack(h, t, key) && t'.size == t.size + 1)
  {
    var (t', ok) := InsertTable(h, t, key, value);
    if ok {
      var cap := |t.slots|;
      var n := InsertStop(h, t.slots, key, 0);
      var loc := Loc(h, key, cap, n);
      ExposedIffInsertStopsAtLive(h, t.slots, key);
      StackSkips(h, t.slots, key, 0, n);
      forall j | 0 <= j < n
        ensures !Holds(t'.slots[Loc(h, key, cap, j)], key)
      {
        DistinctLocs(h, key, cap, j, n);
      }
      StackSkips(h, t'.slots, key, 0, n);
      StackAfter(h, t.slots, key, n + 1, n, Item(key, value, false));
      if t.slots[loc].Empty? {
        NothingPastEmpty(h, t.slots, key, n);
      }
    }
  }

  lemma InsertLeavesOthers<V>(h: Hashes, t: Table<V>, key: string, value: V, other: string)
    requires Inv(h, t) && other != key
    ensures Stack(h, InsertTable(h, t, key, value).0, other) == Stack(h, t, other)
  {
    var (t', ok) := InsertTable(h, t, key, value);
    if ok {
      var loc := Loc(h, key, |t.slots|, InsertStop(h, t.slots, key, 0));
      StackUnaffected(h, t.slots, other, 0, loc, Item(key, value, false));
    }
  }

  /** If the path covers the table, insertion fails only on a full table. */
  lemma InsertSucceedsWhenCovering<V>(h: Hashes, t: Table<V>, key: string, value: V)
    requires Inv(h, t) && CoversTable(h, key, |t.slots|)
    ensures InsertReturns(h, t, key)
    ensures InsertTable(h, t, key, value).1 <==> t.size < |t.slots|
  {
    CountLiveBelowCap(t.slots);
    InsertSucceedsIff(h, t, key, value);
    if t.size < |t.slots| {
      var loc :| 0 <= loc < |t.slots| && !Live(t.slots[loc]);
      var i := CoveringPathReaches(h, key, |t.slots|, loc);
      assert HasRoom(h, t.slots, key);
    }
  }

  /** When a round does not cover a table of a capacity that next_prime gives, it is one slot long. */
  lemma CoversOrStays(h: Hashes, key: string, cap: nat)
    requires Accepted(cap) && Fits(h, key, cap)
    ensures CoversTable(h, key, cap) || Round(h, key, cap) == 1
  {
    CoversTableIff(h, key, cap);
    FittingPathCloses(h, key, cap);
    StepIsZeroIffLengthOne(h.first(key), h.second(key) + 1, cap);
  }

  /** In the tables that the program makes, insertion fails only on a full table or a blocked single slot. */
  lemma InsertSucceedsInNewTableIff<V>(h: Hashes, t: Table<V>, key: string, value: V)
    requires Inv(h, t) && Accepted(|t.slots|) && Fits(h, key, |t.slots|)
    ensures InsertTable(h, t, key, value).1 <==>
              && t.size < |t.slots|
              && ((|t.slots| == 1 || (h.second(key) + 1) % |t.slots| != 0)
                  || !Blocks(t.slots[h.first(key) % |t.slots|], key))
  {
    CoversTableIff(h, key, |t.slots|);
    CoversOrStays(h, key, |t.slots|);
    CountLiveBelowCap(t.slots);
    if CoversTable(h, key, |t.slots|) {
      InsertSucceedsWhenCovering(h, t, key, value);
    } else {
      InsertSucceedsIff(h, t, key, value);
      assert Loc(h, key, |t.slots|, 0) == h.first(key) % |t.slots|;
      assert HasRoom(h, t.slots, key) <==> !Blocks(t.slots[Loc(h, key, |t.slots|, 0)], key);
    }
  }

  // ---------------------------------------------------------------- search

  /** The probe at which search and removal stop, or Round if they come round. */
  ghost function SearchStop<V>(h: Hashes, slots: seq<Slot<V>>, key: string, i: nat): (n: nat)
    requires |slots| > 0 && i <= Round(h, key, |slots|)
    ensures i <= n <= Round(h, key, |slots|)
    ensures forall j :: i <= j < n ==> Skipped(slots[Loc(h, key, |slots|, j)], key)
    ensures n < Round(h, key, |slots|) ==> !Skipped(slots[Loc(h, key, |slots|, n)], key)
    decreases Round(h, key, |slots|) - i
  {
    if i == Round(h, key, |slots|) || !Skipped(slots[Loc(h, key, |slots|, i)], key) then i
    else SearchStop(h, slots, key, i + 1)
  }

  lemma SearchStopsAt<V>(h: Hashes, slots: seq<Slot<V>>, key: string, n: nat)
    requires |slots| > 0 && n <= Round(h, key, |slots|)
    requires forall j :: 0 <= j < n ==> Skipped(slots[Loc(h, key, |slots|, j)], key)
    requires n < Round(h, key, |slots|) ==> !Skipped(slots[Loc(h, key, |slots|, n)], key)
    ensures SearchStop(h, slots, key, 0) == n
  {
  }

  ghost function Top<V>(s: seq<V>): Option<V> {
    if s == [] then None else Some(s[0])
  }

  ghost function SearchTable<V>(h: Hashes, t: Table<V>, key: string): Option<V>
    requires |t.slots| > 0
  {
    var n := SearchStop(h, t.slots, key, 0);
    if n < Round(h, key, |t.slots|) && t.slots[Loc(h, key, |t.slots|, n)].Item?
    then Some(t.slots[Loc(h, key, |t.slots|, n)].value)
    else None
  }

  /** Search returns only if some probe meets an empty slot or the key, or the path comes back to its start. */
  ghost predicate SearchReturns<V>(h: Hashes, slots: seq<Slot<V>>, key: string)
    requires |slots| > 0
  {
    Closes(h, key, |slots|) || exists i: nat :: !Skipped(slots[Loc(h, key, |slots|, i)], key)
  }

  lemma SearchReturnsInFirstRound<V>(h: Hashes, slots: seq<Slot<V>>, key: string)
    requires |slots| > 0
    ensures SearchReturns(h, slots, key) <==>
              Closes(h, key, |slots|) || SearchStop(h, slots, key, 0) < Round(h, key, |slots|)
  {
    var n := SearchStop(h, slots, key, 0);
    if i: nat :| !Skipped(slots[Loc(h, key, |slots|, i)], key) {
      var r := ProbesStayInRound(h, key, |slots|, i);
    }
  }

  lemma SearchGoesOn<V>(h: Hashes, slots: seq<Slot<V>>, key: string, i: nat)
    requires |slots| > 0 && SearchReturns(h, slots, key) && i < Round(h, key, |slots|)
    requires forall j :: 0 <= j <= i ==> Skipped(slots[Loc(h, key, |slots|, j)], key)
    ensures Loc(h, key, |slots|, i + 1) == Loc(h, key, |slots|, 0) <==> i + 1 == Round(h, key, |slots|)
    ensures i + 1 == Round(h, key, |slots|) ==> SearchStop(h, slots, key, 0) == i + 1
  {
    SearchReturnsInFirstRound(h, slots, key);
    if i + 1 == Round(h, key, |slots|) {
      SearchStopsAt(h, slots, key, i + 1);
    } else {
      DistinctLocs(h, key, |slots|, 0, i + 1);
    }
  }

  lemma SearchReadsTop<V>(h: Hashes, t: Table<V>, key: string)
    requires Inv(h, t)
    ensures SearchTable(h, t, key) == Top(Stack(h, t, key))
  {
    var n := SearchStop(h, t.slots, key, 0);
    StackSkips(h, t.slots, key, 0, n);
    if n < Round(h, key, |t.slots|) && t.slots[Loc(h, key, |t.slots|, n)].Empty? {
      NothingPastEmpty(h, t.slots, key, n);
    }
  }

  // ---------------------------------------------------------------- removal

  /**
   Removal has no wrap-around test: it returns only if some probe meets an empty slot or a
   live copy of the key.
   */
  ghost predicate RemoveReturns<V>(h: Hashes, slots: seq<Slot<V>>, key: string)
    requires |slots| > 0
  {
    exists i: nat :: !Skipped(slots[Loc(h, key, |slots|, i)], key)
  }

  function Decremented(size: nat): nat {
    if size == 0 then SIZE_T_LIMIT - 1 else size - 1
  }

  ghost function RemoveTable<V>(h: Hashes, t: Table<V>, key: string): (r: (Table<V>, bool))
    requires |t.slots| > 0
    ensures |r.0.slots| == |t.slots|
  {
    var cap := |t.slots|;
    var n := SearchStop(h, t.slots, key, 0);
    if n == Round(h, key, cap) then (t, false)
    else
      var loc := Loc(h, key, cap, n);
      var s := t.slots[loc];
      if s.Item? then (t.(slots := t.slots[loc := s.(deleted := true)], size := Decremented(t.size)), true)
      else (t, false)
  }

  /** Removal returns exactly when its loop stops within the first round. */
  lemma RemoveReturnsInFirstRound<V>(h: Hashes, slots: seq<Slot<V>>, key: string)
    requires |slots| > 0
    ensures RemoveReturns(h, slots, key) <==> SearchStop(h, slots, key, 0) < Round(h, key, |slots|)
  {
    var n := SearchStop(h, slots, key, 0);
    if RemoveReturns(h, slots, key) {
      var i: nat :| !Skipped(slots[Loc(h, key, |slots|, i)], key);
      var r := ProbesStayInRound(h, key, |slots|, i);
    }
  }

  /** A live key can always be removed. */
  lemma RemoveReturnsWhenLive<V>(h: Hashes, t: Table<V>, key: string)
    requires Inv(h, t) && Stack(h, t, key) != []
    ensures RemoveReturns(h, t.slots, key)
  {
    if !RemoveReturns(h, t.slots, key) {
      StackSkips(h, t.slots, key, 0, Round(h, key, |t.slots|));
    }
  }

  /** With an unused slot and a covering path, removal returns for every key. */
  lemma RemoveReturnsWhenNotFull<V>(h: Hashes, t: Table<V>, key: string)
    requires Inv(h, t) && CoversTable(h, key, |t.slots|) && t.occupied < |t.slots|
    ensures RemoveReturns(h, t.slots, key)
  {
    CountLiveBelowCap(t.slots);
    var loc :| 0 <= loc < |t.slots| && t.slots[loc].Empty?;
    var i := CoveringPathReaches(h, key, |t.slots|, loc);
  }

  lemma {:induction false} FullOfItems<V>(slots: seq<Slot<V>>, loc: nat)
    requires CountItems(slots) == |slots| && loc < |slots|
    ensures slots[loc].Item?
  {
    CountLiveBelowCap(slots[..|slots| - 1]);
    if loc < |slots| - 1 {
      FullOfItems(slots[..|slots| - 1], loc);
    }
  }

  /** On a path that covers the table, removal returns exactly for a live key or a table with an unused slot. */
  lemma RemoveReturnsIff<V>(h: Hashes, t: Table<V>, key: string)
    requires Inv(h, t) && CoversTable(h, key, |t.slots|)
    ensures RemoveReturns(h, t.slots, key) <==> Stack(h, t, key) != [] || t.occupied < |t.slots|
  {
    CountLiveBelowCap(t.slots);
    if Stack(h, t, key) != [] {
      RemoveReturnsWhenLive(h, t, key);
    } else if t.occupied < |t.slots| {
      RemoveReturnsWhenNotFull(h, t, key);
    } else {
      RemoveReturnsInFirstRound(h, t.slots, key);
      var n := SearchStop(h, t.slots, key, 0);
      if n < Round(h, key, |t.slots|) {
        FullOfItems(t.slots, Loc(h, key, |t.slots|, n));
        StackSkips(h, t.slots, key, 0, n);
      }
    }
  }

  /** On a path of one slot, removal returns exactly when that slot is unused or holds the key. */
  lemma RemoveReturnsOnOneSlotIff<V>(h: Hashes, t: Table<V>, key: string)
    requires |t.slots| > 0 && Round(h, key, |t.slots|) == 1
    ensures RemoveReturns(h, t.slots, key) <==> !Skipped(t.slots[h.first(key) % |t.slots|], key)
  {
    RemoveReturnsInFirstRound(h, t.slots, key);
    assert Loc(h, key, |t.slots|, 0) == h.first(key) % |t.slots|;
  }

  lemma RemoveKeepsInv<V>(h: Hashes, t: Table<V>, key: string)
    requires Inv(h, t)
    ensures Inv(h, RemoveTable(h, t, key).0)
  {
    var (t', ok) := RemoveTable(h, t, key);
    if ok {
      var n := SearchStop(h, t.slots, key, 0);
      var loc := Loc(h, key, |t.slots|, n);
      UpdateKeepsPlacement(h, t.slots, key, n, t.slots[loc].(deleted := true));
      CountsAfterUpdate(t.slots, loc, t.slots[loc].(deleted := true));
    }
  }

  lemma SkippedAside<V>(h: Hashes, slots: seq<Slot<V>>, key: string, j: nat, n: nat, s: Slot<V>)
    requires |slots| > 0 && j < n < Round(h, key, |slots|)
    ensures slots[Loc(h, key, |slots|, n) := s][Loc(h, key, |slots|, j)] == slots[Loc(h, key, |slots|, j)]
  {
    DistinctLocs(h, key, |slots|, j, n);
  }

  lemma SkipsOne<V>(h: Hashes, slots: seq<Slot<V>>, key: string, n: nat)
    requires |slots| > 0 && n < Round(h, key, |slots|) && !Holds(slots[Loc(h, key, |slots|, n)], key)
    requires forall j :: 0 <= j < n ==> !Holds(slots[Loc(h, key, |slots|, j)], key)
    ensures StackFrom(h, slots, key, 0) == StackFrom(h, slots, key, n + 1)
  {
    StackSkips(h, slots, key, 0, n);
  }

  lemma TakesOne<V>(h: Hashes, slots: seq<Slot<V>>, key: string, n: nat)
    requires |slots| > 0 && n < Round(h, key, |slots|) && Holds(slots[Loc(h, key, |slots|, n)], key)
    requires forall j :: 0 <= j < n ==> Skipped(slots[Loc(h, key, |slots|, j)], key)
    ensures StackFrom(h, slots, key, 0) == [slots[Loc(h, key, |slots|, n)].value] + StackFrom(h, slots, key, n + 1)
  {
    StackSkips(h, slots, key, 0, n);
  }

  lemma FlaggedIsSkipped<V>(h: Hashes, slots: seq<Slot<V>>, key: string, n: nat, s: Slot<V>, slots': seq<Slot<V>>)
    requires |slots| > 0 && n < Round(h, key, |slots|) && slots' == slots[Loc(h, key, |slots|, n) := s] && !Holds(s, key)
    requires forall j :: 0 <= j < n ==> Skipped(slots[Loc(h, key, |slots|, j)], key)
    ensures StackFrom(h, slots', key, 0) == StackFrom(h, slots', key, n + 1)
  {
    forall j | 0 <= j < n
      ensures !Holds(slots'[Loc(h, key, |slots'|, j)], key)
    {
      SkippedAside(h, slots, key, j, n, s);
      assert Skipped(slots[Loc(h, key, |slots|, j)], key);
    }
    SkipsOne(h, slots', key, n);
  }

  lemma StackBehind<V>(h: Hashes, slots: seq<Slot<V>>, key: string, n: nat, s: Slot<V>, slots': seq<Slot<V>>)
    requires |slots| > 0 && n < Round(h, key, |slots|) && slots' == slots[Loc(h, key, |slots|, n) := s]
    ensures StackFrom(h, slots', key, n + 1) == StackFrom(h, slots, key, n + 1)
  {
    StackAfter(h, slots, key, n + 1, n, s);
  }

  /** Flagging the slot at which the search stopped pops the stack of the key. */
  lemma FlagPopsStack<V>(h: Hashes, slots: seq<Slot<V>>, key: string, n: nat, s: Slot<V>, slots': seq<Slot<V>>)
    requires |slots| > 0 && n < Round(h, key, |slots|) && slots' == slots[Loc(h, key, |slots|, n) := s] && !Holds(s, key)
    requires forall j :: 0 <= j < n ==> Skipped(slots[Loc(h, key, |slots|, j)], key)
    requires Holds(slots[Loc(h, key, |slots|, n)], key)
    ensures StackFrom(h, slots, key, 0) == [slots[Loc(h, key, |slots|, n)].value] + StackFrom(h, slots', key, 0)
  {
    FlaggedIsSkipped(h, slots, key, n, s, slots');
    StackBehind(h, slots, key, n, s, slots');
    TakesOne(h, slots, key, n);
  }

  lemma RemovePopsStack<V>(h: Hashes, t: Table<V>, key: string)
    requires Inv(h, t)
    ensures var (t', ok) := RemoveTable(h, t, key);
            && (ok <==> Stack(h, t, key) != [])
            && (!ok ==> t' == t)
            && (ok ==> Stack(h, t', key) == Stack(h, t, key)[1..] && t'.size == t.size - 1)
  {
    var n := SearchStop(h, t.slots, key, 0);
    if RemoveTable(h, t, key).1 {
      var loc := Loc(h, key, |t.slots|, n);
      var s := t.slots[loc].(deleted := true);
      FlagPopsStack(h, t.slots, key, n, s, t.slots[loc := s]);
      CountsAfterUpdate(t.slots, loc, t.slots[loc].(deleted := true));
    } else {
      StackSkips(h, t.slots, key, 0, n);
      if n < Round(h, key, |t.slots|) {
        NothingPastEmpty(h, t.slots, key, n);
      }
    }
  }

  lemma RemoveLeavesOthers<V>(h: Hashes, t: Table<V>, key: string, other: string)
    requires Inv(h, t) && other != key
    ensures Stack(h, RemoveTable(h, t, key).0, other) == Stack(h, t, other)
  {
    var (t', ok) := RemoveTable(h, t, key);
    if ok {
      var loc := Loc(h, key, |t.slots|, SearchStop(h, t.slots, key, 0));
      StackUnaffected(h, t.slots, other, 0, loc, t.slots[loc].(deleted := true));
    }
  }
}
