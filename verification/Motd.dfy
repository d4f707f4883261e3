/**
 The loop of Handler_Motd in src/handlers.c that sends the message of the day in fragments
 of at most 80 bytes. The text is a C string: it holds no NUL.
 */
module Motd {
  import opened Basics

  const FRAGMENT_MAX: nat := 80

  function NumParts(len: nat): nat {
    len / FRAGMENT_MAX + (if len % FRAGMENT_MAX != 0 then 1 else 0)
  }

  /** What the j-th fragment says. The terminator of the last one stands at len % 80. */
  function Fragment(text: string, j: nat): string
    requires j < NumParts(|text|)
  {
    var from := j * FRAGMENT_MAX;
    if j < NumParts(|text|) - 1 then text[from..from + FRAGMENT_MAX]
    else text[from..from + |text| % FRAGMENT_MAX]
  }

  function Fragments(text: string, n: nat): (fs: seq<string>)
    requires n <= NumParts(|text|)
    ensures |fs| == n
  {
    if n == 0 then [] else Fragments(text, n - 1) + [Fragment(text, n - 1)]
  }

  /** strncpy(part, text + from, 80) */
  method CopyFragment(part: array<char>, text: string, from: nat)
    requires part.Length == FRAGMENT_MAX + 1 && from <= |text|
    modifies part
    ensures forall i :: 0 <= i < FRAGMENT_MAX ==> part[i] == if from + i < |text| then text[from + i] else NUL
  {
    var i := 0;
    while i < FRAGMENT_MAX && from + i < |text|
      invariant 0 <= i <= FRAGMENT_MAX && from + i <= |text|
      invariant forall k :: 0 <= k < i ==> part[k] == text[from + k]
    {
      part[i] := text[from + i];
      i := i + 1;
    }
    while i < FRAGMENT_MAX
      invariant 0 <= i <= FRAGMENT_MAX
      invariant forall k :: 0 <= k < i ==> part[k] == if from + k < |text| then text[from + k] else NUL
      invariant i < FRAGMENT_MAX ==> from + i >= |text|
    {
      part[i] := NUL;
      i := i + 1;
    }
  }

  /** The C string in a buffer, up to its first NUL. */
  method ReadString(part: array<char>) returns (s: string)
    requires exists n :: 0 <= n < part.Length && part[n] == NUL
    ensures |s| < part.Length && part[|s|] == NUL && s == part[..|s|] && NUL !in s
  {
    ghost var n :| 0 <= n < part.Length && part[n] == NUL;
    var i := 0;
    while part[i] != NUL
      invariant 0 <= i <= n && NUL !in part[..i]
      decreases n - i
    {
      i := i + 1;
    }
    return part[..i];
  }

  /** The fragments that Handler_Motd sends for a text. */
  method SendFragments(text: string) returns (sent: seq<string>)
    requires NUL !in text
    ensures sent == Fragments(text, NumParts(|text|))
  {
    var len := |text|;
    var numParts := NumParts(len);
    var part := new char[FRAGMENT_MAX + 1];
    var j := 0;
    sent := [];
    while j < numParts
      invariant 0 <= j <= numParts
      invariant sent == Fragments(text, j)
    {
      FragmentInside(text, j);
      CopyFragment(part, text, j * FRAGMENT_MAX);
      if j < numParts - 1 {
        part[FRAGMENT_MAX] := NUL;
        assert part[..FRAGMENT_MAX] == Fragment(text, j);
      } else {
        part[len % FRAGMENT_MAX] := NUL;
        assert part[..len % FRAGMENT_MAX] == Fragment(text, j);
      }
      var s := ReadString(part);
      StringIs(part[..], s, Fragment(text, j));
      sent := sent + [s];
      j := j + 1;
    }
  }

  lemma StringIs(part: string, s: string, f: string)
    requires |s| < |part| && part[|s|] == NUL && s == part[..|s|] && NUL !in s
    requires |f| < |part| && part[|f|] == NUL && f == part[..|f|] && NUL !in f
    ensures s == f
  {
  }

  lemma FragmentInside(text: string, j: nat)
    requires j < NumParts(|text|) && NUL !in text
    ensures j * FRAGMENT_MAX + |Fragment(text, j)| <= |text|
    ensures |Fragment(text, j)| == (if j < NumParts(|text|) - 1 then FRAGMENT_MAX else |text| % FRAGMENT_MAX)
    ensures NUL !in Fragment(text, j)
  {
  }

  lemma WholeFragment(text: string, n: nat, whole: nat)
    requires 0 < n < NumParts(|text|) && whole == n * FRAGMENT_MAX
    ensures FRAGMENT_MAX <= whole <= |text| && Fragment(text, n - 1) == text[whole - FRAGMENT_MAX..whole]
  {
  }

  lemma {:induction false} WholeFragments(text: string, n: nat, whole: nat)
    requires (n == 0 || n < NumParts(|text|)) && whole == n * FRAGMENT_MAX
    ensures whole <= |text| && Flat(Fragments(text, n)) == text[..whole]
  {
    if n > 0 {
      WholeFragments(text, n - 1, whole - FRAGMENT_MAX);
      WholeFragment(text, n, whole);
      FragmentsSnoc(text, n, whole - FRAGMENT_MAX, whole);
    }
  }

  /** How much of a text of this length arrives. */
  function Arriving(len: nat): (n: nat)
    ensures n <= len
  {
    if len > 0 && len % FRAGMENT_MAX == 0 then len - FRAGMENT_MAX else len
  }

  lemma LastFragment(len: nat, n: nat, whole: nat)
    requires n == NumParts(len) && n > 0 && whole == (n - 1) * FRAGMENT_MAX
    ensures whole + len % FRAGMENT_MAX == Arriving(len)
  {
  }

  lemma LastFragmentText(text: string, n: nat, whole: nat)
    requires n == NumParts(|text|) && n > 0 && whole == (n - 1) * FRAGMENT_MAX
    ensures whole <= Arriving(|text|)
    ensures Fragment(text, n - 1) == text[whole..Arriving(|text|)]
  {
    LastFragment(|text|, n, whole);
  }

  lemma FragmentsSnoc(text: string, n: nat, whole: nat, total: nat)
    requires 0 < n <= NumParts(|text|) && whole <= total <= |text|
    requires Flat(Fragments(text, n - 1)) == text[..whole] && Fragment(text, n - 1) == text[whole..total]
    ensures Flat(Fragments(text, n)) == text[..total]
  {
    OneMoreFragment(Fragments(text, n - 1), Fragment(text, n - 1), text, whole, total);
  }

  lemma AllFragments(text: string, n: nat, whole: nat)
    requires n == NumParts(|text|) && n > 0 && whole == (n - 1) * FRAGMENT_MAX
    ensures Flat(Fragments(text, n)) == text[..Arriving(|text|)]
  {
    LastFragmentText(text, n, whole);
    WholeFragments(text, n - 1, whole);
    FragmentsSnoc(text, n, whole, Arriving(|text|));
  }

  /**
   The fragments make up the whole text, unless its length is a positive multiple of 80:
   then the last 80 bytes are lost, because the last fragment is ended at its first byte.
   */
  lemma FragmentsMakeUpText(text: string)
    ensures Flat(Fragments(text, NumParts(|text|))) == text[..Arriving(|text|)]
  {
    var n := NumParts(|text|);
    if n > 0 {
      AllFragments(text, n, (n - 1) * FRAGMENT_MAX);
    }
  }

  lemma OneMoreFragment(fs: seq<string>, f: string, text: string, whole: nat, total: nat)
    requires whole <= total <= |text| && Flat(fs) == text[..whole] && f == text[whole..total]
    ensures Flat(fs + [f]) == text[..total]
  {
    FlatAppend(fs, f);
    assert text[..whole] + text[whole..total] == text[..total];
  }

  /** The whole text arrives exactly when its length is not a positive multiple of 80. */
  lemma WholeTextIff(text: string)
    ensures Flat(Fragments(text, NumParts(|text|))) == text <==> |text| == 0 || |text| % 80 != 0
  {
    FragmentsMakeUpText(text);
  }

  lemma {:induction false} FragmentsAreShort(text: string, n: nat, j: nat)
    requires j < n <= NumParts(|text|)
    ensures Fragments(text, n)[j] == Fragment(text, j)
    ensures |Fragments(text, n)[j]| <= 80 && (j < NumParts(|text|) - 1 ==> |Fragments(text, n)[j]| == 80)
  {
    if j < n - 1 {
      FragmentsAreShort(text, n - 1, j);
    }
  }
}
