/** Sums and bags over sequences, and duplicate-free appending: the order-independent readings of loops
  * that accumulate. */
module Bags {

  ghost function Bag<T, U>(items: seq<T>, f: T -> multiset<U>): multiset<U> {
    if items == [] then multiset{} else Bag(items[..|items| - 1], f) + f(items[|items| - 1])
  }

  lemma {:induction false} BagAppend<T, U>(a: seq<T>, b: seq<T>, f: T -> multiset<U>)
    ensures Bag(a + b, f) == Bag(a, f) + Bag(b, f)
  {
    if b == [] {
      assert a + b == a;
    } else {
      BagAppend(a, b[..|b| - 1], f);
      assert (a + b)[..|a + b| - 1] == a + b[..|b| - 1];
    }
  }

  function Sum<T>(items: seq<T>, f: T -> int): int {
    if items == [] then 0 else Sum(items[..|items| - 1], f) + f(items[|items| - 1])
  }

  lemma {:induction false} SumAppend<T>(a: seq<T>, b: seq<T>, f: T -> int)
    ensures Sum(a + b, f) == Sum(a, f) + Sum(b, f)
  {
    if b == [] {
      assert a + b == a;
    } else {
      SumAppend(a, b[..|b| - 1], f);
      assert (a + b)[..|a + b| - 1] == a + b[..|b| - 1];
    }
  }

  /** Takes the last item of a out of b. */
  lemma TakeOut<T>(a: seq<T>, b: seq<T>) returns (i: nat)
    requires multiset(a) == multiset(b) && a != []
    ensures i < |b| && b[i] == a[|a| - 1]
    ensures b == b[..i] + [b[i]] + b[i + 1..]
    ensures multiset(a[..|a| - 1]) == multiset(b[..i] + b[i + 1..])
  {
    var last := |a| - 1;
    Without(a, last);
    assert a[last + 1..] == [] && a[..last] + [] == a[..last];
    assert a[last] in multiset(b);
    i :| 0 <= i < |b| && b[i] == a[last];
    Without(b, i);
  }

  lemma Without<T>(items: seq<T>, i: nat)
    requires i < |items|
    ensures items == items[..i] + [items[i]] + items[i + 1..]
    ensures multiset(items[..i] + items[i + 1..]) == multiset(items) - multiset{items[i]}
  {
    assert items == items[..i] + [items[i]] + items[i + 1..];
    assert multiset(items) == multiset(items[..i]) + multiset{items[i]} + multiset(items[i + 1..]);
  }

  /** A bag depends on the items, not on their order. */
  lemma {:induction false} BagIgnoresOrder<T, U>(a: seq<T>, b: seq<T>, f: T -> multiset<U>)
    requires multiset(a) == multiset(b)
    ensures Bag(a, f) == Bag(b, f)
  {
    if a == [] {
      assert |multiset(b)| == 0;
    } else {
      var i := TakeOut(a, b);
      BagIgnoresOrder(a[..|a| - 1], b[..i] + b[i + 1..], f);
      BagAppend(b[..i], b[i + 1..], f);
      BagAppend(b[..i] + [b[i]], b[i + 1..], f);
      BagAppend(b[..i], [b[i]], f);
      assert [b[i]][..0] == [];
    }
  }

  lemma {:induction false} SumIgnoresOrder<T>(a: seq<T>, b: seq<T>, f: T -> int)
    requires multiset(a) == multiset(b)
    ensures Sum(a, f) == Sum(b, f)
  {
    if a == [] {
      assert |multiset(b)| == 0;
    } else {
      var i := TakeOut(a, b);
      SumIgnoresOrder(a[..|a| - 1], b[..i] + b[i + 1..], f);
      SumAppend(b[..i], b[i + 1..], f);
      SumAppend(b[..i] + [b[i]], b[i + 1..], f);
      SumAppend(b[..i], [b[i]], f);
      assert [b[i]][..0] == [];
    }
  }

  lemma SameMembers<T>(a: seq<T>, b: seq<T>)
    requires multiset(a) == multiset(b)
    ensures forall x :: x in a <==> x in b
  {
    forall x
      ensures x in a <==> x in b
    {
      assert x in a <==> x in multiset(a);
      assert x in b <==> x in multiset(b);
    }
  }

  // ---- Appending without duplicates -----------------------------------------------------------------

  function AppendUnique<T(==)>(values: seq<T>, candidates: seq<T>): seq<T> {
    if candidates == [] then values
    else
      var before, last := AppendUnique(values, candidates[..|candidates| - 1]), candidates[|candidates| - 1];
      if last in before then before else before + [last]
  }

  ghost predicate NoDuplicates<T>(values: seq<T>) {
    forall i, j | 0 <= i < j < |values| :: values[i] != values[j]
  }

  lemma {:induction false} AppendUniqueIsUnion<T>(values: seq<T>, candidates: seq<T>)
    ensures forall x :: x in AppendUnique(values, candidates) <==> x in values || x in candidates
    ensures NoDuplicates(values) ==> NoDuplicates(AppendUnique(values, candidates))
  {
    if candidates != [] {
      AppendUniqueIsUnion(values, candidates[..|candidates| - 1]);
      assert candidates == candidates[..|candidates| - 1] + [candidates[|candidates| - 1]];
    }
  }

  /** The nested search-and-append loop. */
  method AppendUniqueStrings(values0: seq<string>, candidates: seq<string>) returns (values: seq<string>)
    ensures values == AppendUnique(values0, candidates)
  {
    values := values0;
    for i := 0 to |candidates|
      invariant values == AppendUnique(values0, candidates[..i])
    {
      var candidate := candidates[i];
      var found := false;
      for k := 0 to |values|
        invariant !found && candidate !in values[..k]
      {
        if values[k] == candidate {
          found := true;
          break;
        }
        assert values[..k + 1] == values[..k] + [values[k]];
      }
      assert values[..|values|] == values;
      assert candidates[..i + 1][..i] == candidates[..i];
      if !found {
        values := values + [candidate];
      }
    }
    assert candidates[..|candidates|] == candidates;
  }
}
