/** Python list operations the core uses on offer-id lists, and the subsequence order relation. */
module Lists {

  /** The position of the first occurrence of x in s. */
  function FirstIndex<T(==)>(s: seq<T>, x: T): (i: nat)
    requires x in s
    ensures i < |s| && s[i] == x && x !in s[..i]
  {
    if s[0] == x then 0
    else
      var j := FirstIndex(s[1..], x);
      assert s[..j + 1] == [s[0]] + s[1..][..j];
      j + 1
  }

  /**
   * list.remove(x): drops the first occurrence of x and keeps the rest in
   * order; a list without x is left as it is.
   */
  function RemoveFirst<T(==)>(s: seq<T>, x: T): (r: seq<T>)
    ensures x in s ==> r == s[..FirstIndex(s, x)] + s[FirstIndex(s, x) + 1..]
    ensures x in s ==> multiset(r) == multiset(s) - multiset{x}
    ensures x !in s ==> r == s
  {
    if s == [] then []
    else if s[0] == x then
      assert s == [s[0]] + s[1..];
      s[1..]
    else
      assert s == [s[0]] + s[1..];
      var rest := RemoveFirst(s[1..], x);
      assert x in s ==> [s[0]] + rest == s[..FirstIndex(s, x)] + s[FirstIndex(s, x) + 1..] by {
        if x in s {
          assert FirstIndex(s, x) == FirstIndex(s[1..], x) + 1;
          SpliceTail(s, FirstIndex(s[1..], x));
        }
      }
      [s[0]] + rest
  }

  /** Deleting position j of the tail of s is deleting position j + 1 of s. */
  lemma SpliceTail<T>(s: seq<T>, j: nat)
    requires j + 1 < |s|
    ensures [s[0]] + (s[1..][..j] + s[1..][j + 1..]) == s[..j + 1] + s[j + 2..]
  {
    assert [s[0]] + s[1..][..j] == s[..j + 1];
    assert s[1..][j + 1..] == s[j + 2..];
  }

  /** a is obtained from b by deleting elements, keeping the order of the rest. */
  predicate Subsequence<T(==)>(a: seq<T>, b: seq<T>)
    decreases |b|
  {
    if a == [] then true
    else if b == [] then false
    else (a[|a| - 1] == b[|b| - 1] && Subsequence(a[..|a| - 1], b[..|b| - 1]))
         || Subsequence(a, b[..|b| - 1])
  }

  lemma SubsequenceSnoc<T>(a: seq<T>, b: seq<T>, x: T)
    requires Subsequence(a, b)
    ensures Subsequence(a + [x], b + [x])
  {
    assert (a + [x])[..|a|] == a;
    assert (b + [x])[..|b|] == b;
  }

  lemma SubsequenceExtend<T>(a: seq<T>, b: seq<T>, x: T)
    requires Subsequence(a, b)
    ensures Subsequence(a, b + [x])
  {
    assert (b + [x])[..|b|] == b;
  }

  /** One more element of b, kept in a or not: the subsequence relation survives either way. */
  lemma SubsequenceStep<T>(a: seq<T>, b: seq<T>, x: T, keep: bool)
    requires Subsequence(a, b)
    ensures Subsequence(a + (if keep then [x] else []), b + [x])
  {
    if keep {
      SubsequenceSnoc(a, b, x);
    } else {
      assert a + [] == a;
      SubsequenceExtend(a, b, x);
    }
  }

  lemma {:induction false} SubsequencePrepend<T>(a: seq<T>, b: seq<T>, x: T)
    requires Subsequence(a, b)
    ensures Subsequence(a, [x] + b)
    decreases |b|
  {
    if a != [] {
      if b == [] {
        assert false;
      } else {
        var b' := b[..|b| - 1];
        assert ([x] + b)[..|b|] == [x] + b';
        if a[|a| - 1] == b[|b| - 1] && Subsequence(a[..|a| - 1], b') {
          SubsequencePrepend(a[..|a| - 1], b', x);
        } else {
          SubsequencePrepend(a, b', x);
        }
      }
    }
  }

  lemma {:induction false} SubsequenceCons<T>(a: seq<T>, b: seq<T>, x: T)
    requires Subsequence(a, b)
    ensures Subsequence([x] + a, [x] + b)
    decreases |b|
  {
    if a == [] {
      assert [x][..0] == [];
      assert Subsequence([x], [x]);
      SubsequenceFromPrefix([x], [x], b);
      assert [x] + a == [x];
    } else if b == [] {
      assert false;
    } else {
      var a' := a[..|a| - 1];
      var b' := b[..|b| - 1];
      assert ([x] + a)[..|a|] == [x] + a';
      assert ([x] + b)[..|b|] == [x] + b';
      if a[|a| - 1] == b[|b| - 1] && Subsequence(a', b') {
        SubsequenceCons(a', b', x);
      } else {
        SubsequenceCons(a, b', x);
      }
    }
  }

  lemma {:induction false} SubsequenceFromPrefix<T>(a: seq<T>, b: seq<T>, rest: seq<T>)
    requires Subsequence(a, b)
    ensures Subsequence(a, b + rest)
    decreases |rest|
  {
    if rest == [] {
      assert b + rest == b;
    } else {
      var r' := rest[..|rest| - 1];
      SubsequenceFromPrefix(a, b, r');
      assert b + rest == (b + r') + [rest[|rest| - 1]];
      SubsequenceExtend(a, b + r', rest[|rest| - 1]);
    }
  }

  /** Moving one copy of x from b to a leaves the union unchanged. */
  lemma MoveOne<T>(a: multiset<T>, b: multiset<T>, x: T)
    requires x in b
    ensures (a + multiset{x}) + (b - multiset{x}) == a + b
  {
  }
}
