/** Sequence combinators standing for JavaScript's Array.prototype.filter and
    Array.prototype.map, with the facts the stages rely on. */
module Seqs {

  /** The items of s that satisfy p, in their original order (Array.prototype.filter). */
  function Keep<T>(p: T -> bool, s: seq<T>): (r: seq<T>)
    ensures |r| <= |s|
    ensures forall i :: 0 <= i < |r| ==> r[i] in s && p(r[i])
    ensures forall i :: 0 <= i < |s| && p(s[i]) ==> s[i] in r
    decreases |s|
  {
    if s == [] then [] else (if p(s[0]) then [s[0]] else []) + Keep(p, s[1..])
  }

  /** f applied to every item of s, in order (Array.prototype.map). */
  function Apply<A, B>(f: A -> B, s: seq<A>): (r: seq<B>)
    ensures |r| == |s|
    ensures forall i :: 0 <= i < |s| ==> r[i] == f(s[i])
    decreases |s|
  {
    if s == [] then [] else [f(s[0])] + Apply(f, s[1..])
  }

  /** Filtering distributes over concatenation: it keeps the relative order of the items. */
  lemma {:induction false} KeepConcat<T>(p: T -> bool, a: seq<T>, b: seq<T>)
    ensures Keep(p, a + b) == Keep(p, a) + Keep(p, b)
    decreases |a|
  {
    if a == [] {
      assert a + b == b;
    } else {
      assert (a + b)[1..] == a[1..] + b;
      KeepConcat(p, a[1..], b);
    }
  }

  /** Filtering keeps every occurrence of an accepted item and none of a rejected one. */
  lemma {:induction false} KeepCounts<T>(p: T -> bool, s: seq<T>, x: T)
    ensures multiset(Keep(p, s))[x] == if p(x) then multiset(s)[x] else 0
    decreases |s|
  {
    if s != [] {
      KeepCounts(p, s[1..], x);
      assert s == [s[0]] + s[1..];
    }
  }

  /** A filter that accepts every item is the identity. */
  lemma {:induction false} KeepAll<T>(p: T -> bool, s: seq<T>)
    requires forall x :: x in s ==> p(x)
    ensures Keep(p, s) == s
    decreases |s|
  {
    if s != [] {
      KeepAll(p, s[1..]);
    }
  }

  /** Two filters in a row are one filter by the conjunction. */
  lemma {:induction false} KeepKeep<T>(p: T -> bool, q: T -> bool, pq: T -> bool, s: seq<T>)
    requires forall x :: pq(x) == (p(x) && q(x))
    ensures Keep(q, Keep(p, s)) == Keep(pq, s)
    decreases |s|
  {
    if s != [] {
      KeepKeep(p, q, pq, s[1..]);
      if p(s[0]) {
        var t := Keep(p, s);
        assert t == [s[0]] + Keep(p, s[1..]);
        assert t[0] == s[0] && t[1..] == Keep(p, s[1..]);
        assert Keep(q, t) == (if q(s[0]) then [s[0]] else []) + Keep(q, t[1..]);
        assert Keep(pq, s) == (if pq(s[0]) then [s[0]] else []) + Keep(pq, s[1..]);
      } else {
        assert Keep(p, s) == [] + Keep(p, s[1..]) == Keep(p, s[1..]);
        assert Keep(pq, s) == [] + Keep(pq, s[1..]) == Keep(pq, s[1..]);
      }
    }
  }

  /** Filtering after a map is mapping after filtering by the composed test. */
  lemma {:induction false} KeepApply<A, B>(p: B -> bool, f: A -> B, pf: A -> bool, s: seq<A>)
    requires forall x :: pf(x) == p(f(x))
    ensures Keep(p, Apply(f, s)) == Apply(f, Keep(pf, s))
    decreases |s|
  {
    if s != [] {
      KeepApply(p, f, pf, s[1..]);
      assert Apply(f, s)[1..] == Apply(f, s[1..]);
      if pf(s[0]) {
        assert Keep(pf, s) == [s[0]] + Keep(pf, s[1..]);
        assert Keep(pf, s)[1..] == Keep(pf, s[1..]);
      }
    }
  }

  /** Two maps in a row are one map by the composition. */
  lemma {:induction false} ApplyApply<A, B, C>(f: A -> B, g: B -> C, gf: A -> C, s: seq<A>)
    requires forall x :: gf(x) == g(f(x))
    ensures Apply(g, Apply(f, s)) == Apply(gf, s)
  {
  }

  /** The number of times k occurs among the images is the number of items mapped to k. */
  lemma {:induction false} ApplyCount<A, B>(f: A -> B, s: seq<A>, k: B, eq: A -> bool)
    requires forall x :: eq(x) == (f(x) == k)
    ensures multiset(Apply(f, s))[k] == |Keep(eq, s)|
    decreases |s|
  {
    if s != [] {
      ApplyCount(f, s[1..], k, eq);
      assert Apply(f, s) == [f(s[0])] + Apply(f, s[1..]);
    }
  }

  /** A filter leaves something exactly when some item passes it. */
  lemma KeepNonEmpty<T>(p: T -> bool, s: seq<T>)
    ensures Keep(p, s) != [] <==> exists i :: 0 <= i < |s| && p(s[i])
  {
    if Keep(p, s) != [] {
      var x := Keep(p, s)[0];
      assert x in s && p(x);
      var i :| 0 <= i < |s| && s[i] == x;
    }
    if exists i :: 0 <= i < |s| && p(s[i]) {
      var i :| 0 <= i < |s| && p(s[i]);
      assert s[i] in Keep(p, s);
    }
  }

  /** An image of the passing items is the image of some passing item of s. */
  lemma ApplyKeepMember<A, B>(p: A -> bool, f: A -> B, s: seq<A>, y: B)
    ensures y in Apply(f, Keep(p, s)) <==> exists i :: 0 <= i < |s| && p(s[i]) && f(s[i]) == y
  {
    var t := Keep(p, s);
    if y in Apply(f, t) {
      var j :| 0 <= j < |t| && Apply(f, t)[j] == y;
      assert t[j] in s && p(t[j]);
      var i :| 0 <= i < |s| && s[i] == t[j];
    }
    if exists i :: 0 <= i < |s| && p(s[i]) && f(s[i]) == y {
      var i :| 0 <= i < |s| && p(s[i]) && f(s[i]) == y;
      assert s[i] in t;
      var j :| 0 <= j < |t| && t[j] == s[i];
      assert Apply(f, t)[j] == y;
    }
  }

  /** Filtering out one rejected item between two runs of accepted ones joins the runs. */
  lemma KeepDropOne<T>(p: T -> bool, a: seq<T>, c: T, b: seq<T>)
    requires forall i :: 0 <= i < |a| ==> p(a[i])
    requires forall i :: 0 <= i < |b| ==> p(b[i])
    requires !p(c)
    ensures Keep(p, a + [c] + b) == a + b
  {
    assert Keep(p, a + [c]) == a by {
      KeepConcat(p, a, [c]);
      KeepAll(p, a);
      assert Keep(p, [c]) == [] + Keep(p, [c][1..]);
    }
    assert Keep(p, b) == b by {
      KeepAll(p, b);
    }
    KeepConcat(p, a + [c], b);
  }
}
