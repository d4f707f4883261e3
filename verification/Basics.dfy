/** What several modules share. */
module Basics {

  datatype Option<+T> = None | Some(value: T)

  /** The byte that ends a C string. */
  const NUL: char := '\0'

  /** The C string at an index of a buffer: up to the first NUL, or to the end of the buffer. */
  function TextAt(buf: string, p: nat): (text: string)
    ensures NUL !in text
    decreases |buf| - p
  {
    if p >= |buf| || buf[p] == NUL then "" else [buf[p]] + TextAt(buf, p + 1)
  }

  function Flat<T>(ss: seq<seq<T>>): seq<T> {
    if ss == [] then [] else ss[0] + Flat(ss[1..])
  }

  lemma Associative<T>(a: seq<T>, b: seq<T>, c: seq<T>)
    ensures (a + b) + c == a + (b + c)
  {
  }

  lemma FrontAndLast<T>(s: seq<T>)
    requires s != []
    ensures s[..|s| - 1] + [s[|s| - 1]] == s
  {
  }

  lemma {:induction false} FlatAppend<T>(ss: seq<seq<T>>, s: seq<T>)
    ensures Flat(ss + [s]) == Flat(ss) + s
  {
    if ss == [] {
      assert [s][1..] == [];
    } else {
      FlatAppend(ss[1..], s);
      assert (ss + [s])[1..] == ss[1..] + [s];
      Associative(ss[0], Flat(ss[1..]), s);
    }
  }

  lemma SubsetIsSmaller<T>(a: set<T>, b: set<T>)
    requires a <= b
    ensures |a| <= |b|
  {
    assert b == a + (b - a);
  }
}
