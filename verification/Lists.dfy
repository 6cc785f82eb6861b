// Sequences without repetition: positions, removal and what the links of a list spell out.
module Lists {
  import opened Words

  predicate Distinct<T(==)>(s: seq<T>) {
    forall i, j :: 0 <= i < j < |s| ==> s[i] != s[j]
  }

  function IndexOf<T(==)>(s: seq<T>, x: T): (i: nat)
    requires x in s
    ensures i < |s| && s[i] == x
  {
    if s[0] == x then 0 else 1 + IndexOf(s[1..], x)
  }

  function Without<T(==)>(s: seq<T>, x: T): seq<T> {
    if x in s then s[..IndexOf(s, x)] + s[IndexOf(s, x) + 1..] else s
  }

  /** What a link to position i holds. */
  function Nth<T>(s: seq<T>, i: nat): Option<T> { if i < |s| then Some(s[i]) else None }

  lemma {:induction false} IndexUnique<T>(s: seq<T>, x: T, i: nat)
    requires Distinct(s) && i < |s| && s[i] == x
    ensures IndexOf(s, x) == i
  {
  }

  lemma WithoutKeeps<T>(s: seq<T>, x: T)
    requires Distinct(s)
    ensures Distinct(Without(s, x)) && x !in Without(s, x)
    ensures forall y :: y in s && y != x ==> y in Without(s, x)
    ensures forall y :: y in Without(s, x) ==> y in s
  {
    if x in s {
      hide IndexOf;
      CutKeeps(s, IndexOf(s, x));
    }
  }

  lemma CutKeeps<T>(s: seq<T>, i: nat)
    requires Distinct(s) && i < |s|
    ensures var rest := s[..i] + s[i + 1..];
            && Distinct(rest) && s[i] !in rest
            && (forall y :: y in s && y != s[i] ==> y in rest)
            && (forall y :: y in rest ==> y in s)
  {
    var rest := s[..i] + s[i + 1..];
    assert forall j :: 0 <= j < |rest| ==> rest[j] == s[if j < i then j else j + 1];
    forall y | y in s && y != s[i] ensures y in rest {
      var j :| 0 <= j < |s| && s[j] == y;
      assert rest[if j < i then j else j - 1] == y;
    }
  }

  lemma WithoutAt<T>(s: seq<T>, x: T, i: nat)
    requires Distinct(s) && i < |s| && s[i] == x
    ensures Without(s, x) == s[..i] + s[i + 1..]
  {
    IndexUnique(s, x, i);
  }

  lemma OthersDiffer<T>(s: seq<T>, j: nat)
    requires Distinct(s) && j < |s|
    ensures forall k: nat {:trigger s[k]} :: k < |s| && k != j ==> s[k] != s[j]
  {
  }
}
