/** Small facts about collections that several components need. */
module Common {

  datatype Option<+T> = None | Some(value: T)

  /** The elements of a sequence, as a set. */
  ghost function Elements<T>(s: seq<T>): (r: set<T>) {
    set x | x in s
  }

  ghost predicate NoDuplicates<T>(s: seq<T>) {
    forall i, j :: 0 <= i < j < |s| ==> s[i] != s[j]
  }

  /** A sequence has at most as many distinct elements as positions. */
  lemma {:induction false} ElementsBound<T>(s: seq<T>)
    ensures |Elements(s)| <= |s|
  {
    if s != [] {
      ElementsBound(s[1..]);
      assert Elements(s) == {s[0]} + Elements(s[1..]);
    }
  }

  /** Pigeonhole: a sequence has as many distinct elements as positions exactly
      when no element repeats. */
  lemma {:induction false} PigeonHole<T>(s: seq<T>)
    ensures |Elements(s)| == |s| <==> NoDuplicates(s)
  {
    if s != [] {
      var t := s[1..];
      PigeonHole(t);
      ElementsBound(t);
      assert Elements(s) == {s[0]} + Elements(t);
      assert NoDuplicates(t) <==> forall i, j :: 1 <= i < j < |s| ==> s[i] != s[j] by {
        assert forall i :: 1 <= i < |s| ==> s[i] == t[i - 1];
        assert forall i :: 0 <= i < |t| ==> t[i] == s[i + 1];
      }
      if s[0] in t {
        assert Elements(s) == Elements(t);
        var j :| 0 <= j < |t| && t[j] == s[0];
        assert s[j + 1] == s[0];
      } else {
        assert |Elements(s)| == |Elements(t)| + 1;
      }
    }
  }

  lemma SubsetSize<T>(a: set<T>, b: set<T>)
    requires a <= b
    ensures |a| <= |b|
    ensures |a| == |b| ==> a == b
  {
    assert b == a + (b - a);
  }

  lemma AtMostOne<T>(a: set<T>)
    ensures |a| <= 1 <==> forall x, y :: x in a && y in a ==> x == y
  {
    if a != {} {
      var x :| x in a;
      assert a == {x} + (a - {x});
      if a - {x} != {} {
        var y :| y in a - {x};
        assert y in a;
      } else {
        assert a == {x};
      }
    }
  }

  /** In a sequence without duplicates every element has multiplicity one. */
  lemma {:induction false} MultiplicityOne<T>(s: seq<T>, x: T)
    requires NoDuplicates(s)
    ensures multiset(s)[x] == if x in s then 1 else 0
  {
    if s != [] {
      var t := s[1..];
      assert forall i :: 0 <= i < |t| ==> t[i] == s[i + 1];
      assert NoDuplicates(t);
      MultiplicityOne(t, x);
      assert s == [s[0]] + t;
    }
  }

  lemma MultiplicityBound<T>(s: seq<T>, i: nat, j: nat)
    requires i < j < |s| && s[i] == s[j]
    ensures multiset(s)[s[i]] >= 2
  {
    assert s == s[..i] + [s[i]] + s[i + 1..j] + [s[j]] + s[j + 1..];
  }

  lemma SameMultisetSameElements<T>(s: seq<T>, t: seq<T>)
    requires multiset(s) == multiset(t)
    ensures |s| == |t|
    ensures forall x :: x in s <==> x in t
  {
    assert |multiset(s)| == |s| && |multiset(t)| == |t|;
    forall x ensures x in s <==> x in t {
      assert x in s <==> x in multiset(s);
      assert x in t <==> x in multiset(t);
    }
  }

  /** The integers of a half-open interval. */
  ghost function Interval(lo: int, hi: int): (r: set<int>)
    requires lo <= hi
    ensures |r| == hi - lo
    ensures forall v :: v in r <==> lo <= v < hi
    decreases hi - lo
  {
    if lo == hi then {} else Interval(lo, hi - 1) + {hi - 1}
  }

  /** The values that a map has on a set of keys, as a multiset. */
  ghost function Bag<K, V>(s: set<K>, m: map<K, V>): (r: multiset<V>)
    requires s <= m.Keys
  {
    if s == {} then multiset{}
    else var k :| k in s; multiset{m[k]} + Bag(s - {k}, m)
  }

  /** The bag does not depend on the order in which keys are taken. */
  lemma {:induction false} BagTakes<K, V>(s: set<K>, m: map<K, V>, k: K)
    requires s <= m.Keys && k in s
    ensures Bag(s, m) == multiset{m[k]} + Bag(s - {k}, m)
    decreases |s|
  {
    var l :| l in s && Bag(s, m) == multiset{m[l]} + Bag(s - {l}, m);
    if l != k {
      BagTakes(s - {l}, m, k);
      BagTakes(s - {k}, m, l);
      assert s - {l} - {k} == s - {k} - {l};
    }
  }

  ghost function KeysOf<K, V>(s: set<K>, m: map<K, V>, v: V): (r: set<K>)
    requires s <= m.Keys
  {
    set k | k in s && m[k] == v
  }

  lemma {:induction false} BagSize<K, V>(s: set<K>, m: map<K, V>)
    requires s <= m.Keys
    ensures |Bag(s, m)| == |s|
    decreases |s|
  {
    if s != {} {
      var k :| k in s;
      BagTakes(s, m, k);
      BagSize(s - {k}, m);
    }
  }

  /** The bag, counted: a value occurs once for each key that has it. */
  lemma {:induction false} BagCounts<K, V>(s: set<K>, m: map<K, V>, v: V)
    requires s <= m.Keys
    ensures Bag(s, m)[v] == |KeysOf(s, m, v)|
    decreases |s|
  {
    if s == {} {
      assert KeysOf(s, m, v) == {};
    } else {
      var k :| k in s;
      var rest := s - {k};
      BagTakes(s, m, k);
      BagCounts(rest, m, v);
      KeysOfStep(s, m, v, k);
    }
  }

  lemma KeysOfStep<K, V>(s: set<K>, m: map<K, V>, v: V, k: K)
    requires s <= m.Keys && k in s
    ensures |KeysOf(s, m, v)| == |KeysOf(s - {k}, m, v)| + if m[k] == v then 1 else 0
  {
    if m[k] == v {
      assert KeysOf(s, m, v) == KeysOf(s - {k}, m, v) + {k};
    } else {
      assert KeysOf(s, m, v) == KeysOf(s - {k}, m, v);
    }
  }

  function WithoutAt<T>(s: seq<T>, i: nat): (r: seq<T>)
    requires i < |s|
  {
    s[..i] + s[i + 1..]
  }

  lemma WithoutAtBag<T>(s: seq<T>, i: nat)
    requires i < |s|
    ensures multiset(s) == multiset(WithoutAt(s, i)) + multiset{s[i]}
  {
    assert s == s[..i] + [s[i]] + s[i + 1..];
  }

  lemma CancelOne<T>(a: multiset<T>, b: multiset<T>, x: T)
    requires a + multiset{x} == b + multiset{x}
    ensures a == b
  {
    assert a == a + multiset{x} - multiset{x};
    assert b == b + multiset{x} - multiset{x};
  }

  lemma SplitLast<T>(a: seq<T>, b: seq<T>)
    requires b != []
    ensures b == b[..|b| - 1] + [b[|b| - 1]]
    ensures a + b == (a + b[..|b| - 1]) + [b[|b| - 1]]
  {
  }

  lemma ConcatAssociative<T>(a: seq<T>, b: seq<T>, c: seq<T>)
    ensures (a + b) + c == a + (b + c)
  {
  }

  /** Taking an element from one part of a bag and appending it to the other. */
  lemma ShiftOne<T>(s: seq<T>, rest: multiset<T>, x: T, total: multiset<T>)
    requires multiset(s) + (multiset{x} + rest) == total
    ensures multiset(s + [x]) + rest == total
  {
  }
}
