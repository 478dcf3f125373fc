/** Notions shared by the models. */
module Basics {

  datatype Option<T> = None | Some(value: T)

  ghost predicate Distinct<T>(s: seq<T>) {
    forall i, j :: 0 <= i < j < |s| ==> s[i] != s[j]
  }

  ghost function Elements<T>(s: seq<T>): set<T> {
    set x | x in s
  }

  lemma ElementsAppend<T>(s: seq<T>, x: T)
    ensures Elements(s + [x]) == Elements(s) + {x}
  {
    forall y
      ensures y in s + [x] <==> y in s || y == x
    {
    }
  }

  lemma TakeMore<T>(s: seq<T>, n: nat)
    requires n < |s|
    ensures s[..n + 1] == s[..n] + [s[n]]
  {
  }

  lemma ElementsTake<T>(s: seq<T>, n: nat)
    requires n < |s|
    ensures Elements(s[..n + 1]) == Elements(s[..n]) + {s[n]}
  {
    TakeMore(s, n);
    ElementsAppend(s[..n], s[n]);
  }

  function Front<T>(s: seq<T>): (f: seq<T>)
    requires s != []
    ensures |f| == |s| - 1 && f + [s[|s| - 1]] == s
  {
    s[..|s| - 1]
  }

  function Last<T>(s: seq<T>): T
    requires s != []
  {
    s[|s| - 1]
  }

  lemma TakeWithin<T>(a: seq<T>, b: seq<T>, k: nat)
    requires k <= |a|
    ensures (a + b)[..k] == a[..k] == a[..k] + b[..0]
  {
  }

  lemma TakeBeyond<T>(a: seq<T>, b: seq<T>, k: nat)
    requires k <= |b|
    ensures (a + b)[..|a| + k] == a + b[..k]
  {
  }

  lemma TakeFront<T>(s: seq<T>, n: nat)
    requires n < |s|
    ensures Front(s[..n + 1]) == s[..n] && Last(s[..n + 1]) == s[n]
  {
  }

  lemma PlusAssoc<T>(a: seq<T>, b: seq<T>, c: seq<T>)
    ensures a + b + c == a + (b + c)
  {
  }

  lemma PlusNone<T>(a: seq<T>)
    ensures a + [] == a
  {
  }

  lemma NonePlus<T>(a: seq<T>)
    ensures [] + a == a
  {
  }

  // ---------------------------------------------------------------------
  // Division

  lemma Distribute(d: int, x: int, y: int)
    ensures d * x + d * y == d * (x + y)
  {
  }

  lemma MultipleInRange(d: int, k: int)
    requires -d < d * k < d
    ensures k == 0
  {
    if k >= 1 {
      Distribute(d, 1, k - 1);
    } else if k <= -1 {
      Distribute(d, -1, k + 1);
    }
  }

  lemma UniqueQuotient(d: int, q: int, r: int, q': int, r': int)
    requires 0 <= r < d && 0 <= r' < d && d * q + r == d * q' + r'
    ensures q == q' && r == r'
  {
    Distribute(d, q', -q);
    NegateProduct(d, q);
    assert d * (q' + -q) == r - r';
    MultipleInRange(d, q' + -q);
  }

  lemma DivUnique(w: nat, d: nat, q: nat, r: nat)
    requires d > 0 && r < d && w == d * q + r
    ensures w / d == q && w % d == r
  {
    Division(w, d);
    UniqueQuotient(d, q, r, w / d, w % d);
  }

  lemma Division(w: nat, d: nat)
    requires d > 0
    ensures w == d * (w / d) + w % d && 0 <= w % d < d
  {
  }

  lemma NegateProduct(d: int, q: int)
    ensures d * -q == -(d * q)
  {
  }
}
