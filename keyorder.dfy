/**
 * Byte-wise lexicographic order on strings and the sorted key sequence of a
 * map.  Both the JSON library (its object members) and std::map (the
 * htpasswd user table) keep their keys in this order, so every loop of the
 * gateway that walks the members of an object or the entries of a map
 * visits them as SortedKeys lists them.
 */
module KeyOrder {

  /** a <= b, comparing character codes from the front; a prefix sorts first. */
  predicate LexLe(a: string, b: string)
    decreases |a|
  {
    |a| == 0 || (|b| > 0 && (a[0] < b[0] || (a[0] == b[0] && LexLe(a[1..], b[1..]))))
  }

  lemma {:induction false} LexLeAntisymmetric(a: string, b: string)
    requires LexLe(a, b) && LexLe(b, a)
    ensures a == b
    decreases |a|
  {
    if |a| > 0 {
      LexLeAntisymmetric(a[1..], b[1..]);
      assert a == [a[0]] + a[1..];
      assert b == [b[0]] + b[1..];
    }
  }

  lemma {:induction false} LexLeTransitive(a: string, b: string, c: string)
    requires LexLe(a, b) && LexLe(b, c)
    ensures LexLe(a, c)
    decreases |a|
  {
    if |a| > 0 && a[0] == b[0] && b[0] == c[0] {
      LexLeTransitive(a[1..], b[1..], c[1..]);
    }
  }

  lemma {:induction false} LexLeTotal(a: string, b: string)
    ensures LexLe(a, b) || LexLe(b, a)
    decreases |a|
  {
    if |a| > 0 && |b| > 0 && a[0] == b[0] {
      LexLeTotal(a[1..], b[1..]);
    }
  }

  /** k is an element of s below all others. */
  predicate IsLeast(k: string, s: set<string>) {
    k in s && forall j :: j in s ==> LexLe(k, j)
  }

  /** Some element of a finite non-empty set is below all others. */
  lemma {:induction false} LeastExists(s: set<string>)
    requires s != {}
    ensures exists k :: IsLeast(k, s)
    decreases |s|
  {
    var x :| x in s;
    var rest := s - {x};
    if rest == {} {
      forall j | j in s ensures LexLe(x, j) {
        assert j !in rest;
        LexLeTotal(x, x);
      }
      assert IsLeast(x, s);
    } else {
      assert |rest| < |s|;
      LeastExists(rest);
      var m :| IsLeast(m, rest);
      LeastInsert(s, x, m);
    }
  }

  /** The smaller of x and the least element of the rest of s is the least of s. */
  lemma LeastInsert(s: set<string>, x: string, m: string)
    requires x in s && IsLeast(m, s - {x})
    ensures IsLeast(m, s) || IsLeast(x, s)
  {
    LexLeTotal(m, x);
    if LexLe(m, x) {
      forall j | j in s ensures LexLe(m, j) {
        if j != x { assert j in s - {x}; }
      }
    } else {
      forall j | j in s ensures LexLe(x, j) {
        if j != x { assert j in s - {x}; LexLeTransitive(x, m, j); } else { LexLeTotal(x, x); }
      }
    }
  }

  /** The least key of a non-empty set. */
  function Least(s: set<string>): (k: string)
    requires s != {}
    ensures k in s && forall j :: j in s ==> LexLe(k, j)
  {
    LeastExists(s);
    forall a, b | a in s && b in s && LexLe(a, b) && LexLe(b, a) ensures a == b {
      LexLeAntisymmetric(a, b);
    }
    var k :| IsLeast(k, s); k
  }

  /** A sequence with no repeated element. */
  predicate Distinct<T(==)>(s: seq<T>) {
    forall i, j :: 0 <= i < j < |s| ==> s[i] != s[j]
  }

  /** Each element of r is at or below every later one. */
  predicate Ascending(r: seq<string>) {
    forall i, j :: 0 <= i < j < |r| ==> LexLe(r[i], r[j])
  }

  /** The elements of a set of strings in ascending order, each once. */
  function Sorted(s: set<string>): (r: seq<string>)
    ensures |r| == |s|
    ensures forall k :: k in s <==> k in r
    ensures Distinct(r)
    ensures Ascending(r)
    decreases |s|
  {
    if s == {} then []
    else
      var k := Least(s);
      var tail := Sorted(s - {k});
      SortedCons(s, k, tail);
      [k] + tail
  }

  /** The least element followed by the rest in order lists the whole set in order. */
  lemma SortedCons(s: set<string>, k: string, tail: seq<string>)
    requires IsLeast(k, s)
    requires |tail| == |s - {k}| && (forall x :: x in s - {k} <==> x in tail) && Distinct(tail) && Ascending(tail)
    ensures var r := [k] + tail;
      |r| == |s| && (forall x :: x in s <==> x in r) && Distinct(r) && Ascending(r)
  {
    var r := [k] + tail;
    forall i, j | 0 <= i < j < |r| ensures r[i] != r[j] && LexLe(r[i], r[j]) {
      assert r[j] == tail[j - 1];
      if i == 0 {
        assert r[j] in s - {k};
      } else {
        assert r[i] == tail[i - 1];
      }
    }
  }

  /** The keys of a map in the order the map iterates over them. */
  function SortedKeys<V>(m: map<string, V>): (r: seq<string>)
    ensures |r| == |m|
    ensures forall k :: k in m <==> k in r
    ensures Distinct(r)
  {
    Sorted(m.Keys)
  }
}
