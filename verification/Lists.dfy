/** Lists without duplicates: permutations, a filtering scan, and the random shuffle. */
module Lists {
  import opened Bytes

  ghost predicate NoDuplicates<T>(s: seq<T>) {
    forall i, j :: 0 <= i < j < |s| ==> s[i] != s[j]
  }

  lemma {:induction false} CountOne<T>(s: seq<T>, x: T)
    requires NoDuplicates(s)
    ensures multiset(s)[x] == if x in s then 1 else 0
  {
    if s != [] {
      var front, last := s[..|s| - 1], s[|s| - 1];
      assert s == front + [last] && last !in front;
      CountOne(front, x);
    }
  }

  /** Sequences without duplicates and with the same elements are permutations of each other. */
  lemma SameElements<T(!new)>(a: seq<T>, b: seq<T>)
    requires NoDuplicates(a) && NoDuplicates(b) && forall x :: x in a <==> x in b
    ensures multiset(a) == multiset(b)
  {
    forall x: T
      ensures multiset(a)[x] == multiset(b)[x]
    {
      CountOne(a, x);
      CountOne(b, x);
    }
  }

  lemma PermutationElements<T>(a: seq<T>, b: seq<T>, x: T)
    requires multiset(a) == multiset(b)
    ensures x in a <==> x in b
  {
    assert x in multiset(a) <==> x in multiset(b);
  }

  lemma PermutationNoDuplicates<T(!new)>(a: seq<T>, b: seq<T>)
    requires NoDuplicates(a) && multiset(a) == multiset(b)
    ensures NoDuplicates(b) && forall x :: x in a <==> x in b
  {
    forall x: T
      ensures x in a <==> x in b
    {
      PermutationElements(a, b, x);
    }
    forall i, j | 0 <= i < j < |b|
      ensures b[i] != b[j]
    {
      CountOne(a, b[i]);
      CountTwice(b, i, j);
    }
  }

  lemma CountTwice<T>(s: seq<T>, i: nat, j: nat)
    requires i < j < |s|
    ensures s[i] == s[j] ==> multiset(s)[s[i]] >= 2
  {
    var a, b, c := s[..i], s[i + 1..j], s[j + 1..];
    assert s == a + [s[i]] + b + [s[j]] + c;
  }

  lemma JoinNoDuplicates<T>(a: seq<T>, b: seq<T>)
    requires NoDuplicates(a) && NoDuplicates(b) && forall k :: k in a ==> k !in b
    ensures NoDuplicates(a + b)
  {
    forall i, j | 0 <= i < j < |a + b|
      ensures (a + b)[i] != (a + b)[j]
    {
      if i < |a| <= j {
        assert a[i] in a && b[j - |a|] in b;
      }
    }
  }

  ghost function Elements<T>(s: seq<T>): set<T> {
    set x | x in s
  }

  lemma ElementsJoin<T>(front: seq<T>, last: T)
    requires last !in front
    ensures Elements(front + [last]) == Elements(front) + {last} && |Elements(front + [last])| == |Elements(front)| + 1
  {
    assert Elements(front + [last]) == Elements(front) + {last};
  }

  lemma {:induction false} ElementsCount<T>(s: seq<T>)
    requires NoDuplicates(s)
    ensures |Elements(s)| == |s|
  {
    if s != [] {
      var front, last := s[..|s| - 1], s[|s| - 1];
      ElementsCount(front);
      ElementsJoin(front, last);
      assert s == front + [last];
    }
  }

  // ---------------------------------------------------------------- all but the excluded

  /** The elements that are not excluded, in their order. */
  function Rest<T(==,!new)>(s: seq<T>, excluded: seq<T>): (r: seq<T>)
    ensures forall k :: k in r <==> k in s && k !in excluded
  {
    if s == [] then [] else
    var front, last := s[..|s| - 1], s[|s| - 1];
    assert s == front + [last];
    Rest(front, excluded) + if last in excluded then [] else [last]
  }

  lemma {:induction false} RestNoDuplicates<T(!new)>(s: seq<T>, excluded: seq<T>)
    requires NoDuplicates(s)
    ensures NoDuplicates(Rest(s, excluded))
  {
    if s != [] {
      var front, last := s[..|s| - 1], s[|s| - 1];
      RestNoDuplicates(front, excluded);
      assert last !in front && last !in Rest(front, excluded);
    }
  }

  /** The front of the list and the rest make up all elements. */
  lemma RestCompletes<T(!new)>(s: seq<T>, front: seq<T>)
    requires NoDuplicates(s) && NoDuplicates(front) && forall k :: k in front ==> k in s
    ensures multiset(front + Rest(s, front)) == multiset(s)
  {
    RestNoDuplicates(s, front);
    JoinNoDuplicates(front, Rest(s, front));
    SameElements(front + Rest(s, front), s);
  }

  lemma RestNext<T(!new)>(s: seq<T>, i: nat, excluded: seq<T>)
    requires i < |s|
    ensures s[i] in excluded ==> Rest(s[..i + 1], excluded) == Rest(s[..i], excluded)
    ensures s[i] !in excluded ==> Rest(s[..i + 1], excluded) == Rest(s[..i], excluded) + [s[i]]
  {
    assert s[..i + 1][..i] == s[..i];
  }

  /** How many of the moved elements are not among the first n. */
  ghost function Left<T>(moved: seq<T>, s: seq<T>, n: nat): nat
    requires n <= |s|
  {
    |Elements(moved) - Elements(s[..n])|
  }

  lemma LeftAtStart<T>(moved: seq<T>, s: seq<T>)
    requires NoDuplicates(moved)
    ensures Left(moved, s, 0) == |moved|
  {
    ElementsCount(moved);
    assert Elements(moved) - Elements(s[..0]) == Elements(moved);
  }

  /** Meeting one more element of s leaves one less of the moved ones to meet, if it is one. */
  lemma MeetOne<T>(moved: seq<T>, s: seq<T>, i: nat)
    requires i < |s| && NoDuplicates(s)
    ensures Left(moved, s, i) == Left(moved, s, i + 1) + if s[i] in moved then 1 else 0
  {
    assert s[i] !in s[..i] && s[..i + 1] == s[..i] + [s[i]];
    var left := Elements(moved) - Elements(s[..i]);
    assert Elements(moved) - Elements(s[..i + 1]) == left - {s[i]};
  }

  function Head<T>(first: Option<T>): seq<T> {
    if first.Some? then [first.value] else []
  }

  /** One turn of the scan: an element at the front of the list is skipped, any other is in the rest. */
  lemma ScanTurn<T(!new)>(s: seq<T>, i: nat, first: Option<T>, moved: seq<T>)
    requires i < |s| && NoDuplicates(s) && (first.Some? ==> first.value !in moved)
    ensures var (before, after) := (Rest(s[..i], Head(first) + moved), Rest(s[..i + 1], Head(first) + moved));
      if first == Some(s[i]) then after == before && Left(moved, s, i + 1) == Left(moved, s, i)
      else if s[i] in moved then after == before && Left(moved, s, i + 1) + 1 == Left(moved, s, i)
      else after == before + [s[i]] && Left(moved, s, i + 1) == Left(moved, s, i)
  {
    RestNext(s, i, Head(first) + moved);
    MeetOne(moved, s, i);
  }

  /** The scan that skips the elements already at the front of the list. The lookup of moved elements
      is dropped once all of them were met, which changes nothing. None if the scan was cancelled. */
  method ScanRest<T(==,!new)>(s: seq<T>, first: Option<T>, moved: seq<T>) returns (rest: Option<seq<T>>)
    requires NoDuplicates(s) && NoDuplicates(moved) && (first.Some? ==> first.value !in moved)
    ensures rest.Some? ==> rest.value == Rest(s, Head(first) + moved)
  {
    LeftAtStart(moved, s);
    var lookup := if moved == [] then None else Some(set k | k in moved);
    var remaining := |moved|;
    var r: seq<T> := [];
    for i := 0 to |s|
      invariant r == Rest(s[..i], Head(first) + moved) && remaining == Left(moved, s, i)
      invariant lookup == if remaining == 0 then None else Some(set k | k in moved)
    {
      var cancelled: bool := *;
      if cancelled {
        return None;
      }
      ScanTurn(s, i, first, moved);
      if first == Some(s[i]) {
        continue;
      }
      if lookup.Some? && s[i] in lookup.value {
        remaining := remaining - 1;
        if remaining == 0 {
          lookup := None;
        }
        continue;
      }
      r := r + [s[i]];
    }
    assert s[..|s|] == s;
    return Some(r);
  }

  lemma FrontParts<T>(s: seq<T>, a: seq<T>, b: seq<T>)
    requires |s| >= |a| + |b| && s[..|a| + |b|] == a + b
    ensures s[..|a|] == a && forall i :: |a| <= i < |a| + |b| ==> s[i] in b
  {
    assert forall i :: 0 <= i < |a| + |b| ==> s[i] == (a + b)[i];
  }

  // ---------------------------------------------------------------- shuffle

  lemma SwapPermutes<T>(s: seq<T>, i: nat, j: nat)
    requires i < |s| && j < |s|
    ensures multiset(s[i := s[j]][j := s[i]]) == multiset(s)
  {
  }

  lemma SplitMultiset<T>(s: seq<T>, start: nat)
    requires start <= |s|
    ensures multiset(s) == multiset(s[..start]) + multiset(s[start..])
  {
    assert s == s[..start] + s[start..];
  }

  /** Fisher-Yates from position start on, for any random choices. */
  method Shuffle<T>(s: seq<T>, start: nat) returns (r: seq<T>)
    requires start <= |s|
    ensures |r| == |s| && r[..start] == s[..start] && multiset(r) == multiset(s)
    ensures multiset(r[start..]) == multiset(s[start..])
  {
    r := s;
    var i := |s| - 1;
    while i > start
      invariant |r| == |s| && r[..start] == s[..start] && multiset(r) == multiset(s)
    {
      var j :| start <= j <= i;
      SwapPermutes(r, i, j);
      r := r[i := r[j]][j := r[i]];
      i := i - 1;
    }
    SplitMultiset(s, start);
    SplitMultiset(r, start);
    assert multiset(r[start..]) == multiset(r) - multiset(r[..start]);
  }
}
