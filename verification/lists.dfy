/**
 * Array operations that several parts of the demo share: `indexOf` followed by
 * `splice(index, 1)`, which removes the first occurrence of an element when
 * there is one (the idiom of `removeFromList` and of three.js `remove`).
 */
module Lists {

  /** No element occurs twice. */
  predicate NoDups<T(==)>(s: seq<T>) {
    forall i, j :: 0 <= i < j < |s| ==> s[i] != s[j]
  }

  /** `list.indexOf(x)`: the first index holding `x`, or -1. */
  function IndexOf<T(==)>(s: seq<T>, x: T): (i: int)
    ensures -1 <= i < |s|
    ensures i == -1 <==> x !in s
    ensures 0 <= i ==> s[i] == x && x !in s[..i]
  {
    if s == [] then -1
    else if s[0] == x then 0
    else
      var j := IndexOf(s[1..], x);
      if j == -1 then -1
      else
        assert s[..j + 1] == [s[0]] + s[1..][..j];
        j + 1
  }

  /** The list with the first occurrence of `x` removed, unchanged when `x` is absent. */
  function RemoveFirst<T(==)>(s: seq<T>, x: T): (r: seq<T>)
  {
    var i := IndexOf(s, x);
    if i == -1 then s else s[..i] + s[i + 1..]
  }

  /**
   * `list.splice(start, 1)`: the element at `start` removed, a negative start
   * counting from the end (and below that, from the front); nothing is
   * removed when the start is past the end.
   */
  function SpliceOne<T>(s: seq<T>, start: int): seq<T> {
    var k := if start >= 0 then start else if |s| + start >= 0 then |s| + start else 0;
    if k < |s| then s[..k] + s[k + 1..] else s
  }

  /** Removing the first occurrence of `x` removes exactly one `x` when there is one. */
  lemma RemoveFirstMultiset<T>(s: seq<T>, x: T)
    ensures multiset(RemoveFirst(s, x)) == multiset(s) - multiset{x}
    ensures x !in s ==> RemoveFirst(s, x) == s
    ensures x in s ==> |RemoveFirst(s, x)| == |s| - 1
  {
    var i := IndexOf(s, x);
    if i == -1 {
      assert x !in multiset(s);
      assert multiset(s) - multiset{x} == multiset(s);
    } else {
      var r := s[..i] + s[i + 1..];
      assert s == s[..i] + [x] + s[i + 1..];
      assert multiset(s) == multiset(r) + multiset{x};
    }
  }

  /** A prefix one longer is the prefix and the next element. */
  lemma PrefixSnoc<T>(s: seq<T>, i: nat, t: seq<T>)
    requires i < |s|
    ensures s[..i + 1] == s[..i] + [s[i]]
    ensures t + s[..i + 1] == t + s[..i] + [s[i]]
  {
  }

  /** A non-empty list has its elements somewhere else only if that is non-empty too. */
  lemma NonEmptyInside<T>(a: seq<T>, b: seq<T>)
    requires forall y :: y in a ==> y in b
    ensures a != [] ==> b != []
  {
    if a != [] {
      assert a[0] in b;
    }
  }

  /** Removing an element adds nothing. */
  lemma RemoveFirstSubset<T>(s: seq<T>, x: T, y: T)
    requires y in RemoveFirst(s, x)
    ensures y in s
  {
    RemoveFirstMultiset(s, x);
    assert multiset(RemoveFirst(s, x))[y] > 0;
  }

  /** Removing from a list without duplicates keeps it without duplicates, and removes every copy of `x`. */
  lemma RemoveFirstNoDups<T>(s: seq<T>, x: T)
    requires NoDups(s)
    ensures NoDups(RemoveFirst(s, x))
    ensures x !in RemoveFirst(s, x)
    ensures forall y :: y in RemoveFirst(s, x) <==> y in s && y != x
  {
    var i := IndexOf(s, x);
    if i != -1 {
      RemoveAtNoDups(s, i);
    }
  }

  /** Taking the element at `i` out of a list without duplicates leaves exactly the others, each once. */
  lemma RemoveAtNoDups<T>(s: seq<T>, i: nat)
    requires NoDups(s) && i < |s|
    ensures NoDups(s[..i] + s[i + 1..])
    ensures forall y :: y in s[..i] + s[i + 1..] <==> y in s && y != s[i]
  {
    var r := s[..i] + s[i + 1..];
    assert |r| == |s| - 1;
    forall k | 0 <= k < |r|
      ensures r[k] == s[if k < i then k else k + 1]
    {
    }
    forall a, b | 0 <= a < b < |r|
      ensures r[a] != r[b]
    {
      var a', b' := if a < i then a else a + 1, if b < i then b else b + 1;
      assert r[a] == s[a'] && r[b] == s[b'];
    }
    forall y
      ensures y in r <==> y in s && y != s[i]
    {
      if y in r {
        var k :| 0 <= k < |r| && r[k] == y;
        var k' := if k < i then k else k + 1;
        assert s[k'] == y && k' != i;
      }
      if y in s && y != s[i] {
        var k :| 0 <= k < |s| && s[k] == y;
        assert r[if k < i then k else k - 1] == y;
      }
    }
  }

  lemma MultisetSubSub<T>(a: multiset<T>, b: multiset<T>, c: multiset<T>)
    ensures (a - b) - c == a - (b + c)
  {
    forall y
      ensures ((a - b) - c)[y] == (a - (b + c))[y]
    {
    }
  }

  /** The list with the first occurrence of each element of `xs` removed, in the order of `xs`. */
  function RemoveEach<T(==)>(s: seq<T>, xs: seq<T>): seq<T>
    decreases |xs|
  {
    if xs == [] then s else RemoveFirst(RemoveEach(s, xs[..|xs| - 1]), xs[|xs| - 1])
  }

  /** Removing `xs` then `ys` is removing `xs + ys`. */
  lemma {:induction false} RemoveEachAppend<T>(s: seq<T>, xs: seq<T>, ys: seq<T>)
    ensures RemoveEach(s, xs + ys) == RemoveEach(RemoveEach(s, xs), ys)
    decreases |ys|
  {
    if ys == [] {
      assert xs + ys == xs;
    } else {
      var ys' := ys[..|ys| - 1];
      assert (xs + ys)[..|xs + ys| - 1] == xs + ys';
      RemoveEachAppend(s, xs, ys');
    }
  }

  /** Removing each of `xs` takes away one copy of every element of `xs`, as far as there is one. */
  lemma {:induction false} RemoveEachMultiset<T>(s: seq<T>, xs: seq<T>)
    ensures multiset(RemoveEach(s, xs)) == multiset(s) - multiset(xs)
    decreases |xs|
  {
    if xs != [] {
      var xs' := xs[..|xs| - 1];
      var x := xs[|xs| - 1];
      var r' := RemoveEach(s, xs');
      assert RemoveEach(s, xs) == RemoveFirst(r', x);
      RemoveEachMultiset(s, xs');
      RemoveFirstMultiset(r', x);
      assert xs == xs' + [x];
      assert multiset(xs) == multiset(xs') + multiset{x};
      MultisetSubSub(multiset(s), multiset(xs'), multiset{x});
    }
  }

  /** Removing elements that are not there changes nothing. */
  lemma {:induction false} RemoveEachAbsent<T>(s: seq<T>, xs: seq<T>)
    requires forall x :: x in xs ==> x !in s
    ensures RemoveEach(s, xs) == s
    decreases |xs|
  {
    if xs != [] {
      var xs' := xs[..|xs| - 1];
      assert forall x :: x in xs' ==> x in xs;
      RemoveEachAbsent(s, xs');
      assert xs[|xs| - 1] in xs;
      RemoveFirstMultiset(s, xs[|xs| - 1]);
    }
  }

  /** An element that is not removed keeps all its occurrences. */
  lemma RemoveEachKeeps<T>(s: seq<T>, xs: seq<T>, x: T)
    requires x !in xs
    ensures multiset(RemoveEach(s, xs))[x] == multiset(s)[x]
  {
    RemoveEachMultiset(s, xs);
    assert x !in multiset(xs);
  }

  /** Removing never lengthens a list, and what is left was there before. */
  lemma RemoveEachShrinks<T>(s: seq<T>, xs: seq<T>)
    ensures |RemoveEach(s, xs)| <= |s|
    ensures forall y :: y in RemoveEach(s, xs) ==> y in s
  {
    RemoveEachMultiset(s, xs);
    assert |multiset(s) - multiset(xs)| <= |multiset(s)|;
    forall y | y in RemoveEach(s, xs)
      ensures y in s
    {
      assert multiset(RemoveEach(s, xs))[y] > 0;
    }
  }

  /** Removing each of `xs` from a list without duplicates leaves exactly the elements not in `xs`. */
  lemma {:induction false} RemoveEachNoDups<T>(s: seq<T>, xs: seq<T>)
    requires NoDups(s)
    ensures NoDups(RemoveEach(s, xs))
    ensures forall y :: y in RemoveEach(s, xs) <==> y in s && y !in xs
    decreases |xs|
  {
    if xs != [] {
      var xs' := xs[..|xs| - 1];
      var x := xs[|xs| - 1];
      RemoveEachNoDups(s, xs');
      RemoveFirstNoDups(RemoveEach(s, xs'), x);
      assert xs == xs' + [x];
    }
  }

  /** A list without duplicates loses one element for every element of `xs` (itself without duplicates) that it holds. */
  lemma RemoveEachLength<T>(s: seq<T>, xs: seq<T>)
    requires NoDups(s) && NoDups(xs)
    requires forall x :: x in xs ==> x in s
    ensures |RemoveEach(s, xs)| == |s| - |xs|
  {
    RemoveEachMultiset(s, xs);
    DistinctMultisetSub(s, xs);
  }

  /**
   * A list without duplicates loses exactly the elements it shares with `xs`:
   * as many as there are in `c`, a duplicate-free list of those shared elements.
   */
  lemma RemoveEachCount<T>(s: seq<T>, xs: seq<T>, c: seq<T>)
    requires NoDups(s) && NoDups(c)
    requires forall x :: x in c <==> x in xs && x in s
    ensures |RemoveEach(s, xs)| == |s| - |c|
  {
    RemoveEachMultiset(s, xs);
    NoDupsCounts(s);
    NoDupsCounts(c);
    assert multiset(s) - multiset(xs) == multiset(s) - multiset(c) by {
      forall y
        ensures (multiset(s) - multiset(xs))[y] == (multiset(s) - multiset(c))[y]
      {
        if y in s && y in xs {
          assert multiset(xs)[y] >= 1;
        }
      }
    }
    DistinctMultisetSub(s, c);
  }

  /** For lists without duplicates, `xs` contained in `s` gives `multiset(xs) <= multiset(s)`. */
  lemma {:induction false} DistinctMultisetSub<T>(s: seq<T>, xs: seq<T>)
    requires NoDups(s) && NoDups(xs)
    requires forall x :: x in xs ==> x in s
    ensures |multiset(s) - multiset(xs)| == |s| - |xs|
  {
    NoDupsCounts(s);
    NoDupsCounts(xs);
    var d := multiset(s) - multiset(xs);
    assert multiset(xs) <= multiset(s) by {
      forall x | x in multiset(xs)
        ensures multiset(xs)[x] <= multiset(s)[x]
      {
      }
    }
    assert d + multiset(xs) == multiset(s);
    assert |multiset(s)| == |s| && |multiset(xs)| == |xs|;
  }

  /** Without duplicates, every element occurs once. */
  lemma {:induction false} NoDupsCounts<T>(s: seq<T>)
    requires NoDups(s)
    ensures forall x :: x in s ==> multiset(s)[x] == 1
    decreases |s|
  {
    if s != [] {
      var t := s[..|s| - 1];
      assert s == t + [s[|s| - 1]];
      assert NoDups(t);
      NoDupsCounts(t);
      assert s[|s| - 1] !in t;
    }
  }
}
