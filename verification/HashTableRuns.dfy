/**
 Whole runs of calls on the hash table of src/hashtable.c: every run that returns behaves as
 a stack of values per key, and some runs behave as a finite map.
 */
module HashTableRuns {
  import opened Basics
  import opened Hashing
  import opened HashTables

  datatype Op<V> = Insert(key: string, value: V) | Search(key: string) | Remove(key: string)

  datatype Outcome<V> = Inserted(ok: bool) | Found(result: Option<V>) | Removed(ok: bool)

  ghost function NewTable<V>(cap: nat): (t: Table<V>)
    requires cap > 0
    ensures |t.slots| == cap
  {
    Table(seq(cap, _ => Empty), 0, 0)
  }

  lemma NewTableKeepsInv<V>(h: Hashes, cap: nat)
    requires cap > 0
    ensures Inv(h, NewTable<V>(cap))
  {
    EmptySlots(NewTable<V>(cap).slots);
  }

  ghost function Apply<V>(h: Hashes, t: Table<V>, op: Op<V>): (r: (Table<V>, Outcome<V>))
    requires |t.slots| > 0
    ensures |r.0.slots| == |t.slots|
  {
    match op
    case Insert(k, v) => (InsertTable(h, t, k, v).0, Inserted(InsertTable(h, t, k, v).1))
    case Search(k) => (t, Found(SearchTable(h, t, k)))
    case Remove(k) => (RemoveTable(h, t, k).0, Removed(RemoveTable(h, t, k).1))
  }

  lemma ApplyKeepsInv<V>(h: Hashes, t: Table<V>, op: Op<V>)
    requires Inv(h, t)
    ensures Inv(h, Apply(h, t, op).0)
  {
    match op
    case Insert(k, v) => InsertKeepsInv(h, t, k, v);
    case Search(_) =>
    case Remove(k) => RemoveKeepsInv(h, t, k);
  }

  /** The call returns. */
  ghost predicate Returns<V>(h: Hashes, t: Table<V>, op: Op<V>)
    requires |t.slots| > 0
  {
    match op
    case Insert(k, _) => InsertReturns(h, t, k)
    case Search(k) => SearchReturns(h, t.slots, k)
    case Remove(k) => RemoveReturns(h, t.slots, k)
  }

  /** Insertion and search return for every key whose probes do not wrap at 2^64. */
  lemma FittingCallReturns<V>(h: Hashes, t: Table<V>, op: Op<V>)
    requires |t.slots| > 0 && Fits(h, op.key, |t.slots|) && !op.Remove?
    ensures Returns(h, t, op)
  {
    FittingPathCloses(h, op.key, |t.slots|);
  }

  ghost function Run<V>(h: Hashes, t: Table<V>, ops: seq<Op<V>>): (r: (Table<V>, seq<Outcome<V>>))
    requires |t.slots| > 0
    ensures |r.0.slots| == |t.slots| && |r.1| == |ops|
  {
    if ops == [] then (t, [])
    else
      var (t1, outs) := Run(h, t, ops[..|ops| - 1]);
      var (t2, out) := Apply(h, t1, ops[|ops| - 1]);
      (t2, outs + [out])
  }

  lemma {:induction false} RunKeepsInv<V>(h: Hashes, t: Table<V>, ops: seq<Op<V>>)
    requires Inv(h, t)
    ensures Inv(h, Run(h, t, ops).0)
  {
    if ops != [] {
      var n := |ops| - 1;
      RunKeepsInv(h, t, ops[..n]);
      ApplyKeepsInv(h, Run(h, t, ops[..n]).0, ops[n]);
    }
  }

  ghost predicate AllReturn<V>(h: Hashes, t: Table<V>, ops: seq<Op<V>>)
    requires |t.slots| > 0
  {
    forall i :: 0 <= i < |ops| ==> Returns(h, Run(h, t, ops[..i]).0, ops[i])
  }

  lemma {:induction false} OutcomeAt<V>(h: Hashes, t: Table<V>, ops: seq<Op<V>>, i: nat)
    requires |t.slots| > 0 && i < |ops|
    ensures Run(h, t, ops).1[i] == Apply(h, Run(h, t, ops[..i]).0, ops[i]).1
    ensures Run(h, t, ops[..i + 1]).0 == Apply(h, Run(h, t, ops[..i]).0, ops[i]).0
  {
    assert ops[..i + 1][..i] == ops[..i];
    var n := |ops| - 1;
    if i < n {
      assert ops[..n][..i] == ops[..i];
      OutcomeAt(h, t, ops[..n], i);
    }
  }

  ghost predicate Leads<V>(h: Hashes, t: Table<V>, ops: seq<Op<V>>, t': Table<V>, outs: seq<Outcome<V>>) {
    |t.slots| > 0 && Run(h, t, ops) == (t', outs) && AllReturn(h, t, ops)
  }

  lemma OneMoreCall<V>(h: Hashes, t: Table<V>, ops: seq<Op<V>>, t1: Table<V>, outs: seq<Outcome<V>>, op: Op<V>)
    requires Leads(h, t, ops, t1, outs) && Returns(h, t1, op)
    ensures Leads(h, t, ops + [op], Apply(h, t1, op).0, outs + [Apply(h, t1, op).1])
  {
    var ops' := ops + [op];
    assert ops'[..|ops|] == ops;
    forall i | 0 <= i < |ops'|
      ensures Returns(h, Run(h, t, ops'[..i]).0, ops'[i])
    {
      if i < |ops| {
        assert ops'[..i] == ops[..i];
      }
    }
  }

  lemma FirstCall<V>(h: Hashes, t: Table<V>, op: Op<V>)
    requires |t.slots| > 0 && Returns(h, t, op)
    ensures Leads(h, t, [op], Apply(h, t, op).0, [Apply(h, t, op).1])
  {
    OneMoreCall(h, t, [], t, [], op);
    assert [] + [op] == [op];
    assert [] + [Apply(h, t, op).1] == [Apply(h, t, op).1];
  }

  // ---------------------------------------------------------------- a stack per key

  /** What one call may do to the stack of one key; `mine` says that it names that key. */
  ghost predicate StackStep<V>(mine: bool, before: seq<V>, op: Op<V>, out: Outcome<V>, after: seq<V>) {
    if !mine then after == before
    else match op
      case Insert(_, v) =>
        out.Inserted? &&
        if !out.ok then after == before
        else after == [v] + before || (before != [] && after == [v] + before[1..])
      case Search(_) => out == Found(Top(before)) && after == before
      case Remove(_) => out == Removed(before != []) && after == if before == [] then [] else before[1..]
  }

  lemma ApplyRefinesStack<V>(h: Hashes, t: Table<V>, op: Op<V>, key: string)
    requires Inv(h, t)
    ensures var (t', out) := Apply(h, t, op);
            StackStep(op.key == key, Stack(h, t, key), op, out, Stack(h, t', key))
  {
    match op
    case Insert(k, v) =>
      if k == key {
        InsertOnStack(h, t, k, v);
      } else {
        InsertLeavesOthers(h, t, k, v, key);
      }
    case Search(k) => SearchReadsTop(h, t, k);
    case Remove(k) =>
      if k == key {
        RemovePopsStack(h, t, k);
      } else {
        RemoveLeavesOthers(h, t, k, key);
      }
  }

  /** Every call of every run, from every table that keeps the invariant. */
  lemma RunRefinesStacks<V>(h: Hashes, t: Table<V>, ops: seq<Op<V>>, i: nat, key: string)
    requires Inv(h, t) && AllReturn(h, t, ops) && i < |ops|
    ensures StackStep(ops[i].key == key, Stack(h, Run(h, t, ops[..i]).0, key), ops[i], Run(h, t, ops).1[i],
                      Stack(h, Run(h, t, ops[..i + 1]).0, key))
  {
    OutcomeAt(h, t, ops, i);
    RunKeepsInv(h, t, ops[..i]);
    ApplyRefinesStack(h, Run(h, t, ops[..i]).0, ops[i], key);
  }

  // ---------------------------------------------------------------- a finite map, on some runs

  ghost function MapApply<V>(m: map<string, V>, op: Op<V>): map<string, V> {
    match op
    case Insert(k, v) => m[k := v]
    case Search(_) => m
    case Remove(k) => m - {k}
  }

  ghost function MapAfter<V>(ops: seq<Op<V>>): map<string, V> {
    if ops == [] then map[] else MapApply(MapAfter(ops[..|ops| - 1]), ops[|ops| - 1])
  }

  ghost function MapOutcome<V>(m: map<string, V>, op: Op<V>): Outcome<V> {
    match op
    case Insert(_, _) => Inserted(true)
    case Search(k) => Found(if k in m then Some(m[k]) else None)
    case Remove(k) => Removed(k in m)
  }

  ghost predicate NoRemoval<V>(ops: seq<Op<V>>) {
    forall i :: 0 <= i < |ops| ==> !ops[i].Remove?
  }

  ghost predicate NoTombstones<V>(slots: seq<Slot<V>>) {
    forall loc :: 0 <= loc < |slots| ==> slots[loc].Empty? || Live(slots[loc])
  }

  ghost predicate IsMap<V>(h: Hashes, t: Table<V>, m: map<string, V>)
    requires |t.slots| > 0
  {
    && (forall k: string :: Stack(h, t, k) == if k in m then [m[k]] else [])
    && t.size == |m|
  }

  lemma LiveTopIsExposed<V>(h: Hashes, t: Table<V>, key: string)
    requires Inv(h, t) && NoTombstones(t.slots) && Stack(h, t, key) != []
    ensures TopIsExposed(h, t.slots, key)
  {
    var n := InsertStop(h, t.slots, key, 0);
    StackSkips(h, t.slots, key, 0, n);
    if n < Round(h, key, |t.slots|) && t.slots[Loc(h, key, |t.slots|, n)].Empty? {
      NothingPastEmpty(h, t.slots, key, n);
    }
    ExposedIffInsertStopsAtLive(h, t.slots, key);
  }

  /** The condition on one call under which it acts on the table as on a finite map. */
  ghost predicate MapStep<V>(h: Hashes, t: Table<V>, op: Op<V>)
    requires |t.slots| > 0
  {
    op.Insert? ==>
      && t.size != |t.slots| && HasRoom(h, t.slots, op.key)
      && (Stack(h, t, op.key) != [] ==> TopIsExposed(h, t.slots, op.key))
  }

  lemma InsertActsOnMapIff<V>(h: Hashes, t: Table<V>, m: map<string, V>, key: string, value: V)
    requires Inv(h, t) && IsMap(h, t, m)
    ensures var (t', ok) := InsertTable(h, t, key, value);
            ok && IsMap(h, t', m[key := value]) <==> MapStep(h, t, Insert(key, value))
  {
    var (t', ok) := InsertTable(h, t, key, value);
    InsertSucceedsIff(h, t, key, value);
    InsertOnStack(h, t, key, value);
    if ok {
      if MapStep(h, t, Insert(key, value)) {
        forall k: string
          ensures Stack(h, t', k) == if k in m[key := value] then [m[key := value][k]] else []
        {
          if k != key {
            InsertLeavesOthers(h, t, key, value, k);
          }
        }
      } else {
        assert |Stack(h, t', key)| == 2;
      }
    }
  }

  lemma MapRemoval<V>(m: map<string, V>, key: string)
    ensures key in m ==> |m - {key}| == |m| - 1
    ensures key !in m ==> m - {key} == m
  {
    if key in m {
      assert (m - {key}).Keys == m.Keys - {key};
    }
  }

  lemma RemoveActsOnMap<V>(h: Hashes, t: Table<V>, m: map<string, V>, key: string)
    requires Inv(h, t) && IsMap(h, t, m)
    ensures RemoveTable(h, t, key).1 <==> key in m
    ensures IsMap(h, RemoveTable(h, t, key).0, m - {key})
  {
    var (t', ok) := RemoveTable(h, t, key);
    RemovePopsStack(h, t, key);
    MapRemoval(m, key);
    forall k: string
      ensures Stack(h, t', k) == if k in m - {key} then [(m - {key})[k]] else []
    {
      if k != key {
        RemoveLeavesOthers(h, t, key, k);
      }
    }
  }

  /** One call acts as on a finite map exactly under that condition. */
  lemma ApplyActsOnMapIff<V>(h: Hashes, t: Table<V>, m: map<string, V>, op: Op<V>)
    requires Inv(h, t) && IsMap(h, t, m)
    ensures IsMap(h, Apply(h, t, op).0, MapApply(m, op)) && Apply(h, t, op).1 == MapOutcome(m, op) <==>
              MapStep(h, t, op)
  {
    match op
    case Insert(k, v) => InsertActsOnMapIff(h, t, m, k, v);
    case Search(k) => SearchReadsTop(h, t, k);
    case Remove(k) => RemoveActsOnMap(h, t, m, k);
  }

  lemma NewTableIsEmptyMap<V>(h: Hashes, cap: nat)
    requires cap > 0
    ensures IsMap(h, NewTable<V>(cap), map[]) && NoTombstones(NewTable<V>(cap).slots)
  {
    var t := NewTable<V>(cap);
    forall k: string
      ensures Stack(h, t, k) == []
    {
      StackSkips(h, t.slots, k, 0, Round(h, k, cap));
    }
  }

  lemma ApplyNoTombstones<V>(h: Hashes, t: Table<V>, op: Op<V>)
    requires |t.slots| > 0 && NoTombstones(t.slots) && !op.Remove?
    ensures NoTombstones(Apply(h, t, op).0.slots)
  {
  }

  lemma {:induction false} NoRemovalNoTombstones<V>(h: Hashes, t: Table<V>, ops: seq<Op<V>>)
    requires |t.slots| > 0 && NoTombstones(t.slots) && NoRemoval(ops)
    ensures NoTombstones(Run(h, t, ops).0.slots)
  {
    if ops != [] {
      var n := |ops| - 1;
      NoRemovalNoTombstones(h, t, ops[..n]);
      ApplyNoTombstones(h, Run(h, t, ops[..n]).0, ops[n]);
    }
  }

  /** After every call the table is the finite map of the calls so far, and every outcome is the map's. */
  ghost predicate BehavesAsMap<V>(h: Hashes, t: Table<V>, ops: seq<Op<V>>)
    requires |t.slots| > 0
  {
    && IsMap(h, Run(h, t, ops).0, MapAfter(ops))
    && (ops == [] ||
        var n := |ops| - 1;
        BehavesAsMap(h, t, ops[..n]) && Run(h, t, ops).1[n] == MapOutcome(MapAfter(ops[..n]), ops[n]))
  }

  /** Every call meets the condition on the table it finds. */
  ghost predicate MapSteps<V>(h: Hashes, t: Table<V>, ops: seq<Op<V>>)
    requires |t.slots| > 0
  {
    ops == [] ||
    var n := |ops| - 1;
    MapSteps(h, t, ops[..n]) && MapStep(h, Run(h, t, ops[..n]).0, ops[n])
  }

  lemma {:induction false} MapStepsIff<V>(h: Hashes, t: Table<V>, ops: seq<Op<V>>)
    requires Inv(h, t) && IsMap(h, t, map[])
    ensures BehavesAsMap(h, t, ops) <==> MapSteps(h, t, ops)
  {
    if ops != [] {
      var n := |ops| - 1;
      MapStepsIff(h, t, ops[..n]);
      if BehavesAsMap(h, t, ops[..n]) {
        RunKeepsInv(h, t, ops[..n]);
        ApplyActsOnMapIff(h, Run(h, t, ops[..n]).0, MapAfter(ops[..n]), ops[n]);
      }
    }
  }

  /** Exactly those runs of a new table are runs of a finite map in which every insertion meets the condition. */
  lemma RunIsMapIff<V>(h: Hashes, cap: nat, ops: seq<Op<V>>)
    requires cap > 0 && AllReturn(h, NewTable(cap), ops)
    ensures BehavesAsMap(h, NewTable(cap), ops) <==> MapSteps(h, NewTable(cap), ops)
  {
    NewTableKeepsInv<V>(h, cap);
    NewTableIsEmptyMap<V>(h, cap);
    MapStepsIff(h, NewTable(cap), ops);
  }

  // ---------------------------------------------------------------- a condition on the calls alone

  /**
   Each insertion has room, probes the whole table, and is either of a key that is not in
   the map or comes before any removal.
   */
  ghost predicate MapLike<V>(h: Hashes, ops: seq<Op<V>>, cap: nat)
    requires cap > 0
  {
    ops == [] ||
    var before, op := ops[..|ops| - 1], ops[|ops| - 1];
    && MapLike(h, before, cap)
    && (op.Insert? ==>
          && CoversTable(h, op.key, cap) && |MapAfter(before)| < cap
          && (op.key in MapAfter(before) ==> NoRemoval(before)))
  }

  lemma MapLikeStep<V>(h: Hashes, t: Table<V>, op: Op<V>)
    requires Inv(h, t)
    requires op.Insert? ==> CoversTable(h, op.key, |t.slots|) && t.size < |t.slots|
    requires op.Insert? && Stack(h, t, op.key) != [] ==> NoTombstones(t.slots)
    ensures MapStep(h, t, op)
  {
    if op.Insert? {
      InsertSucceedsWhenCovering(h, t, op.key, op.value);
      InsertSucceedsIff(h, t, op.key, op.value);
      if Stack(h, t, op.key) != [] {
        LiveTopIsExposed(h, t, op.key);
      }
    }
  }

  lemma {:induction false} MapLikeSteps<V>(h: Hashes, t: Table<V>, ops: seq<Op<V>>)
    requires Inv(h, t) && IsMap(h, t, map[]) && NoTombstones(t.slots) && MapLike(h, ops, |t.slots|)
    ensures MapSteps(h, t, ops)
  {
    if ops != [] {
      var before := ops[..|ops| - 1];
      MapLikeSteps(h, t, before);
      MapStepsIff(h, t, before);
      RunKeepsInv(h, t, before);
      if NoRemoval(before) {
        NoRemovalNoTombstones(h, t, before);
      }
      MapLikeStep(h, Run(h, t, before).0, ops[|ops| - 1]);
    }
  }

  /** A map-like run on a new table is a run of a finite map. */
  lemma RunIsMap<V>(h: Hashes, cap: nat, ops: seq<Op<V>>)
    requires cap > 0 && AllReturn(h, NewTable(cap), ops) && MapLike(h, ops, cap)
    ensures BehavesAsMap(h, NewTable(cap), ops)
  {
    NewTableKeepsInv<V>(h, cap);
    NewTableIsEmptyMap<V>(h, cap);
    MapLikeSteps(h, NewTable(cap), ops);
    RunIsMapIff(h, cap, ops);
  }

  /** Overwriting a key that has one live copy behaves as a map update exactly when that copy is exposed. */
  lemma OverwriteIsUpdateIff<V>(h: Hashes, t: Table<V>, key: string, value: V)
    requires Inv(h, t) && |Stack(h, t, key)| == 1 && InsertTable(h, t, key, value).1
    ensures Stack(h, InsertTable(h, t, key, value).0, key) == [value] <==> TopIsExposed(h, t.slots, key)
  {
    InsertOnStack(h, t, key, value);
  }
}
