/**
 Concrete runs of the hash table of src/hashtable.c that show what its calls do not
 guarantee: insertion can fail with room left, removal can run for ever, and a removed key
 can come back.
 */
module HashTableExamples {
  import opened Basics
  import opened Orbits
  import opened Hashing
  import opened HashTables
  import opened HashTableRuns

  /** In a table of two slots, the key probes slot 0, then slot 1. */
  ghost predicate BothSlots(h: Hashes, key: string) {
    Loc(h, key, 2, 0) == 0 && Loc(h, key, 2, 1) == 1 && Round(h, key, 2) == 2 && Fits(h, key, 2)
  }

  /** In a table of two slots, the key probes slot 1 only. */
  ghost predicate OneSlot(h: Hashes, key: string) {
    Loc(h, key, 2, 0) == 1 && Round(h, key, 2) == 1 && Fits(h, key, 2)
  }

  lemma HashesOfA()
    ensures Djb2("a") == 177670 && Djb2a("a") == 177604
  {
    assert "a"[..0] == "";
    assert Djb2("a") == 177670;
    assert Djb2aWord("a") == 177604;
  }

  lemma HashesOfB()
    ensures Djb2("b") == 177671 && Djb2a("b") == 177607
  {
    assert "b"[..0] == "";
    assert Djb2("b") == 177671;
    assert Djb2aWord("b") == 177607;
  }

  lemma HashesOfC()
    ensures Djb2("c") == 177672 && Djb2a("c") == 177606
  {
    assert "c"[..0] == "";
    assert Djb2("c") == 177672;
    assert Djb2aWord("c") == 177606;
  }

  lemma HashesOfEmpty()
    ensures Djb2("") == 5381 && Djb2a("") == 5381
  {
    assert Djb2aWord("") == 5381;
  }

  lemma OrbitInTwo(start: nat, step: nat)
    ensures Orbit(start, step, 2, 0) == start % 2
    ensures Orbit(start, step, 2, 1) == (start % 2 + step % 2) % 2
    ensures OrbitLength(start, step, 2) == if step % 2 == 0 then 1 else 2
  {
    assert Orbit(start, step, 2, 1) == (Orbit(start, step, 2, 0) + step) % 2;
  }

  lemma PathInTwo(h: Hashes, key: string)
    requires h.second(key) < 0x1_0000_0000
    ensures h.first(key) % 2 == 0 && h.second(key) % 2 == 0 ==> BothSlots(h, key)
    ensures h.first(key) % 2 == 1 && h.second(key) % 2 == 1 ==> OneSlot(h, key)
  {
    OrbitInTwo(h.first(key), h.second(key) + 1);
    FittingPathCloses(h, key, 2);
    FittingPathIsOrbit(h, key, 2, 0);
    FittingPathIsOrbit(h, key, 2, 1);
  }

  lemma PathsOfShortKeys()
    ensures BothSlots(DJB, "a") && BothSlots(DJB, "c") && OneSlot(DJB, "b") && OneSlot(DJB, "")
  {
    HashesOfA();
    HashesOfB();
    HashesOfC();
    HashesOfEmpty();
    PathInTwo(DJB, "a");
    PathInTwo(DJB, "b");
    PathInTwo(DJB, "c");
    PathInTwo(DJB, "");
  }

  // ---------------------------------------------------------------- insertion fails

  lemma SharedSingleSlot<V>(h: Hashes, a: string, c: string, v: V, w: V) returns (t1: Table<V>)
    requires a != c && OneSlot(h, a) && OneSlot(h, c)
    ensures t1.size == 1 < |t1.slots|
    ensures Leads(h, NewTable<V>(2), [Insert(a, v)] + [Insert(c, w)], t1, [Inserted(true)] + [Inserted(false)])
  {
    var t := NewTable<V>(2);
    t1 := Table([Empty, Item(a, v, false)], 1, 1);
    assert t.slots[1 := Item(a, v, false)] == t1.slots;
    assert Apply(h, t, Insert(a, v)) == (t1, Inserted(true));
    assert Apply(h, t1, Insert(c, w)) == (t1, Inserted(false));
    FirstCall(h, t, Insert(a, v));
    OneMoreCall(h, t, [Insert(a, v)], t1, [Inserted(true)], Insert(c, w));
  }

  /**
   Insertion can fail on a table that is not full: the step of the empty key is a multiple
   of the capacity, so its path is one slot long.
   */
  lemma InsertCanFailWithRoom<V>(v: V, w: V) returns (t1: Table<V>)
    ensures t1.size == 1 < |t1.slots|
    ensures Leads(DJB, NewTable<V>(2), [Insert("b", v)] + [Insert("", w)], t1, [Inserted(true)] + [Inserted(false)])
  {
    PathsOfShortKeys();
    t1 := SharedSingleSlot(DJB, "b", "", v, w);
  }

  // ---------------------------------------------------------------- removal diverges

  /** Removing a removed key from a table of one slot probes that slot for ever. */
  lemma RemoveCanDiverge<V>(h: Hashes, key: string, v: V) returns (t2: Table<V>)
    ensures |t2.slots| == 1 && !RemoveReturns(h, t2.slots, key)
    ensures Leads(h, NewTable<V>(1), [Insert(key, v)] + [Remove(key)], t2, [Inserted(true)] + [Removed(true)])
  {
    var t := NewTable<V>(1);
    var t1 := Table([Item(key, v, false)], 1, 1);
    t2 := Table([Item(key, v, true)], 0, 1);
    assert Loc(h, key, 1, 0) == 0;
    assert t.slots[0 := Item(key, v, false)] == t1.slots;
    assert t1.slots[0 := Item(key, v, true)] == t2.slots;
    assert Apply(h, t, Insert(key, v)) == (t1, Inserted(true));
    assert Apply(h, t1, Remove(key)) == (t2, Removed(true));
    assert !Skipped(t1.slots[Loc(h, key, 1, 0)], key);
    FirstCall(h, t, Insert(key, v));
    OneMoreCall(h, t, [Insert(key, v)], t1, [Inserted(true)], Remove(key));
  }

  // ---------------------------------------------------------------- a removed key comes back

  lemma FillSteps<V>(h: Hashes, a: string, c: string, u: V, v: V)
    requires a != c && BothSlots(h, a) && BothSlots(h, c)
    ensures var half := Table([Item(a, u, false), Empty], 1, 1);
            && Apply(h, NewTable<V>(2), Insert(a, u)) == (half, Inserted(true))
            && Returns(h, NewTable<V>(2), Insert(a, u))
            && Apply(h, half, Insert(c, v)) ==
                 (Table([Item(a, u, false), Item(c, v, false)], 2, 2), Inserted(true))
            && Returns(h, half, Insert(c, v))
  {
    var s, t := Item(a, u, false), Item(c, v, false);
    assert NewTable<V>(2).slots[0 := s] == [s, Empty];
    assert [s, Empty][1 := t] == [s, t];
  }

  lemma FillTwoSlots<V>(h: Hashes, a: string, c: string, u: V, v: V)
    requires a != c && BothSlots(h, a) && BothSlots(h, c)
    ensures Leads(h, NewTable<V>(2), [Insert(a, u)] + [Insert(c, v)],
                  Table([Item(a, u, false), Item(c, v, false)], 2, 2), [Inserted(true)] + [Inserted(true)])
  {
    FillSteps(h, a, c, u, v);
    FirstCall(h, NewTable<V>(2), Insert(a, u));
    OneMoreCall(h, NewTable<V>(2), [Insert(a, u)], Table([Item(a, u, false), Empty], 1, 1), [Inserted(true)],
                Insert(c, v));
  }

  lemma FlagAndReuse<V>(h: Hashes, a: string, c: string, u: V, v: V, w: V)
    requires a != c && BothSlots(h, a) && BothSlots(h, c)
    ensures var full := Table([Item(a, u, false), Item(c, v, false)], 2, 2);
            var flagged := Table([Item(a, u, true), Item(c, v, false)], 1, 2);
            var twice := Table([Item(c, w, false), Item(c, v, false)], 2, 2);
            && Apply(h, full, Remove(a)) == (flagged, Removed(true)) && Returns(h, full, Remove(a))
            && Apply(h, flagged, Insert(c, w)) == (twice, Inserted(true)) && Returns(h, flagged, Insert(c, w))
  {
    var s, t, d := Item(a, u, false), Item(c, v, false), Item(c, w, false);
    assert !Skipped([s, t][Loc(h, a, 2, 0)], a);
    assert [s, t][0 := s.(deleted := true)] == [s.(deleted := true), t];
    assert [s.(deleted := true), t][0 := d] == [d, t];
  }

  lemma RemoveAndFind<V>(h: Hashes, c: string, v: V, w: V)
    requires BothSlots(h, c)
    ensures var twice := Table([Item(c, w, false), Item(c, v, false)], 2, 2);
            var once := Table([Item(c, w, true), Item(c, v, false)], 1, 2);
            && Apply(h, twice, Remove(c)) == (once, Removed(true)) && Returns(h, twice, Remove(c))
            && Apply(h, once, Search(c)) == (once, Found(Some(v))) && Returns(h, once, Search(c))
  {
    var t, d := Item(c, v, false), Item(c, w, false);
    assert !Skipped([d, t][Loc(h, c, 2, 0)], c);
    assert [d, t][0 := d.(deleted := true)] == [d.(deleted := true), t];
  }

  lemma SharedPath<V>(h: Hashes, a: string, c: string, u: V, v: V, w: V) returns (once: Table<V>)
    requires a != c && BothSlots(h, a) && BothSlots(h, c)
    ensures Leads(h, NewTable<V>(2),
                  [Insert(a, u)] + [Insert(c, v)] + [Remove(a)] + [Insert(c, w)] + [Remove(c)] + [Search(c)],
                  once,
                  [Inserted(true)] + [Inserted(true)] + [Removed(true)] + [Inserted(true)] + [Removed(true)]
                    + [Found(Some(v))])
  {
    var t := NewTable<V>(2);
    var ops: seq<Op<V>> := [Insert(a, u)] + [Insert(c, v)];
    var outs: seq<Outcome<V>> := [Inserted(true)] + [Inserted(true)];
    FillTwoSlots(h, a, c, u, v);
    FlagAndReuse(h, a, c, u, v, w);
    RemoveAndFind(h, c, v, w);
    var full := Table([Item(a, u, false), Item(c, v, false)], 2, 2);
    var flagged := Table([Item(a, u, true), Item(c, v, false)], 1, 2);
    var twice := Table([Item(c, w, false), Item(c, v, false)], 2, 2);
    once := Table([Item(c, w, true), Item(c, v, false)], 1, 2);
    OneMoreCall(h, t, ops, full, outs, Remove(a));
    ops, outs := ops + [Remove(a)], outs + [Removed(true)];
    OneMoreCall(h, t, ops, flagged, outs, Insert(c, w));
    ops, outs := ops + [Insert(c, w)], outs + [Inserted(true)];
    OneMoreCall(h, t, ops, twice, outs, Remove(c));
    ops, outs := ops + [Remove(c)], outs + [Removed(true)];
    OneMoreCall(h, t, ops, once, outs, Search(c));
  }

  /**
   A removed key can still be found: overwriting "c" takes the tombstone of "a" and leaves
   the older copy behind, which comes back when the newer one is removed.
   */
  lemma RemovedKeyCanResurface<V>(u: V, v: V, w: V) returns (t: Table<V>)
    ensures Leads(DJB, NewTable<V>(2),
                  [Insert("a", u)] + [Insert("c", v)] + [Remove("a")] + [Insert("c", w)] + [Remove("c")] + [Search("c")],
                  t,
                  [Inserted(true)] + [Inserted(true)] + [Removed(true)] + [Inserted(true)] + [Removed(true)]
                    + [Found(Some(v))])
  {
    PathsOfShortKeys();
    t := SharedPath(DJB, "a", "c", u, v, w);
  }
}
