/**
 Ordered selection, as the ORDER BY ... LIMIT clauses of the statements use it:
 the first rows of a table by (rank, id), the lowest ids of a set, and a set in ascending order.
 */
module Ranking {
  import opened Prelude

  predicate Before(rank: map<nat, int>, a: nat, b: nat)
    requires a in rank && b in rank
  {
    rank[a] < rank[b] || (rank[a] == rank[b] && a < b)
  }

  predicate IsFirst(rank: map<nat, int>, a: nat) {
    a in rank && forall b | b in rank :: b == a || Before(rank, a, b)
  }

  lemma {:induction false} FirstExists(rank: map<nat, int>)
    requires rank.Keys != {}
    ensures exists a :: IsFirst(rank, a)
    decreases |rank.Keys|
  {
    var x :| x in rank.Keys;
    var rest := rank - {x};
    assert rest.Keys == rank.Keys - {x};
    assert forall b | b in rank :: b == x || b in rest.Keys;
    if rest.Keys == {} {
      assert IsFirst(rank, x);
    } else {
      FirstExists(rest);
      var y :| IsFirst(rest, y);
      forall b | b in rank && b != x ensures b == y || Before(rank, y, b) {
        assert b == y || Before(rest, y, b);
      }
      assert IsFirst(rank, if Before(rank, x, y) then x else y);
    }
  }

  function First(rank: map<nat, int>): (a: nat)
    requires rank.Keys != {}
    ensures IsFirst(rank, a)
  {
    FirstExists(rank);
    var a :| IsFirst(rank, a);
    a
  }

  /** Taking the first row and then the first of the others prefers earlier rows. */
  lemma FirstThenMore(rank: map<nat, int>, a: nat, more: set<nat>)
    requires IsFirst(rank, a) && more <= (rank - {a}).Keys
    requires forall x, y | x in more && y in rank - {a} && y !in more :: Before(rank - {a}, x, y)
    ensures forall x, y | x in {a} + more && y in rank && y !in {a} + more :: Before(rank, x, y)
  {
    forall x, y | x in {a} + more && y in rank && y !in {a} + more ensures Before(rank, x, y) {
      assert y in rank - {a};
      assert x != a ==> Before(rank - {a}, x, y);
    }
  }

  /** ORDER BY rank, id LIMIT n. */
  function FirstBy(rank: map<nat, int>, n: nat): (r: set<nat>)
    ensures r <= rank.Keys
    ensures |r| == Min(n, |rank.Keys|)
    ensures forall a, b | a in r && b in rank && b !in r :: Before(rank, a, b)
    decreases n
  {
    if n == 0 || rank.Keys == {} then {}
    else
      var a := First(rank);
      assert (rank - {a}).Keys == rank.Keys - {a};
      var more := FirstBy(rank - {a}, n - 1);
      FirstThenMore(rank, a, more);
      {a} + more
  }

  /** Of two selections that prefer earlier rows the smaller lies inside the larger. */
  lemma SelectionsNest(rank: map<nat, int>, r: set<nat>, s: set<nat>)
    requires r <= rank.Keys && s <= rank.Keys && |r| <= |s|
    requires forall a, b | a in r && b in rank && b !in r :: Before(rank, a, b)
    requires forall a, b | a in s && b in rank && b !in s :: Before(rank, a, b)
    ensures r <= s
  {
    forall a | a in r ensures a in s {
      if a !in s {
        forall b | b in s ensures b in r - {a} {}
        SubsetSize(s, r - {a});
      }
    }
  }

  /** A set with the three properties above is the one FirstBy picks. */
  lemma FirstByUnique(rank: map<nat, int>, n: nat, r: set<nat>)
    requires r <= rank.Keys
    requires |r| == Min(n, |rank.Keys|)
    requires forall a, b | a in r && b in rank && b !in r :: Before(rank, a, b)
    ensures r == FirstBy(rank, n)
  {
    var s := FirstBy(rank, n);
    SelectionsNest(rank, r, s);
    SubsetSize(r, s);
  }

  lemma {:induction false} SubsetSize<T>(a: set<T>, b: set<T>)
    requires a <= b
    ensures |a| <= |b|
    ensures |a| == |b| ==> a == b
  {
    if a != {} {
      var x :| x in a;
      SubsetSize(a - {x}, b - {x});
    }
  }

  /** ORDER BY id LIMIT n. */
  function Lowest(s: set<nat>, n: nat): (r: set<nat>)
    ensures r <= s
    ensures |r| == Min(n, |s|)
    ensures forall a, b | a in r && b in s && b !in r :: a < b
    ensures n >= |s| ==> r == s
  {
    var rank := map i | i in s :: 0;
    assert rank.Keys == s;
    var r := FirstBy(rank, n);
    SubsetSize(r, s);
    r
  }

  function Least(s: set<nat>): (a: nat)
    requires s != {}
    ensures a in s && forall b | b in s :: a <= b
  {
    var rank := map i | i in s :: 0;
    assert rank.Keys == s;
    var a := First(rank);
    assert forall b | b in s :: b == a || Before(rank, a, b);
    a
  }

  function Greatest(s: set<nat>): (a: nat)
    requires s != {}
    ensures a in s && forall b | b in s :: b <= a
  {
    var rank: map<nat, int> := map i: nat | i in s :: -(i as int);
    assert rank.Keys == s;
    var a := First(rank);
    assert forall b | b in s :: b == a || Before(rank, a, b);
    a
  }

  lemma GreatestHolds(s: set<nat>)
    requires s != {}
    ensures Greatest(s) in s && forall b | b in s :: b <= Greatest(s)
  {
  }

  predicate Distinct(q: seq<nat>) {
    forall i, j | 0 <= i < j < |q| :: q[i] != q[j]
  }

  lemma DistinctJoin(p: seq<nat>, q: seq<nat>)
    requires Distinct(p) && Distinct(q) && forall m | m in p :: m !in q
    ensures Distinct(p + q)
  {
    forall i, j | 0 <= i < j < |p + q| ensures (p + q)[i] != (p + q)[j] {
      if i < |p| <= j {
        assert p[i] in p && q[j - |p|] in q;
      }
    }
  }

  predicate Ascending(q: seq<nat>) {
    forall i, j | 0 <= i < j < |q| :: q[i] < q[j]
  }

  lemma AscendingDistinct(q: seq<nat>, i: nat, j: nat)
    requires Ascending(q) && i < |q| && j < |q| && q[i] == q[j]
    ensures i == j
  {
  }

  /** ORDER BY id, also what sorting a vector of distinct ids leaves. */
  function Sorted(s: set<nat>): (q: seq<nat>)
    ensures Ascending(q) && |q| == |s|
    ensures forall x :: x in q <==> x in s
    decreases |s|
  {
    if s == {} then []
    else
      var a := Least(s);
      var rest := Sorted(s - {a});
      InFront(a, rest);
      [a] + rest
  }

  lemma InFront(a: nat, rest: seq<nat>)
    requires Ascending(rest) && forall x | x in rest :: a < x
    ensures Ascending([a] + rest)
    ensures forall x :: x in [a] + rest <==> x == a || x in rest
  {
    forall i, j | 0 <= i < j < |[a] + rest| ensures ([a] + rest)[i] < ([a] + rest)[j] {
      assert ([a] + rest)[j] == rest[j - 1] && rest[j - 1] in rest;
    }
  }

  lemma SortedHolds(s: set<nat>)
    ensures Ascending(Sorted(s)) && |Sorted(s)| == |s| && forall x :: x in Sorted(s) <==> x in s
  {
  }

  lemma {:induction false} AscendingUnique(p: seq<nat>, q: seq<nat>)
    requires Ascending(p) && Ascending(q)
    requires forall x :: x in p <==> x in q
    ensures p == q
    decreases |p|
  {
    assert |q| > 0 ==> q[0] in q;
    if p != [] {
      assert p[0] in q;
      assert q[0] in p;
      var i :| 0 <= i < |q| && q[i] == p[0];
      var j :| 0 <= j < |p| && p[j] == q[0];
      assert p[0] == q[0];
      forall x ensures x in p[1..] <==> x in q[1..] {
        assert x in p <==> x == p[0] || x in p[1..];
        assert x in q <==> x == q[0] || x in q[1..];
        assert p[0] !in p[1..] && q[0] !in q[1..];
      }
      AscendingUnique(p[1..], q[1..]);
    }
  }

  lemma SortedIs(q: seq<nat>)
    requires Ascending(q)
    ensures Sorted(set x | x in q) == q
  {
    AscendingUnique(Sorted(set x | x in q), q);
  }

  /** MIN over a column: null for no rows. */
  function Minimum(column: map<nat, int>): (m: Option<int>)
    ensures m.None? <==> column.Keys == {}
    ensures m.Some? ==> (exists a :: a in column && column[a] == m.value)
    ensures m.Some? ==> forall a | a in column :: m.value <= column[a]
  {
    if column.Keys == {} then None
    else
      var a := First(column);
      assert forall b | b in column :: b == a || Before(column, a, b);
      Some(column[a])
  }

  // ---- Names ----------------------------------------------------------------------------

  /** The order of names: by code point, which is the order of their UTF-8 bytes. */
  predicate NameBefore(a: string, b: string) {
    if b == "" then false
    else if a == "" then true
    else a[0] < b[0] || (a[0] == b[0] && NameBefore(a[1..], b[1..]))
  }

  lemma {:induction false} NamesComparable(a: string, b: string)
    requires a != b
    ensures NameBefore(a, b) || NameBefore(b, a)
  {
    if a != "" && b != "" && a[0] == b[0] {
      assert a == [a[0]] + a[1..] && b == [b[0]] + b[1..];
      NamesComparable(a[1..], b[1..]);
    }
  }

  lemma {:induction false} NamesChain(a: string, b: string, c: string)
    requires NameBefore(a, b) && NameBefore(b, c)
    ensures NameBefore(a, c)
  {
    if a != "" && a[0] == b[0] == c[0] {
      NamesChain(a[1..], b[1..], c[1..]);
    }
  }

  predicate NamesAscending(names: map<nat, string>, order: seq<nat>)
    requires forall c | c in order :: c in names
  {
    forall i, j | 0 <= i < j < |order| :: NameBefore(names[order[i]], names[order[j]])
  }

  /** Puts one id into its place by name. */
  method InsertByName(names: map<nat, string>, order: seq<nat>, c: nat) returns (longer: seq<nat>)
    requires c in names && (forall d | d in order :: d in names && names[d] != names[c]) && NamesAscending(names, order)
    ensures forall d :: d in longer <==> d == c || d in order
    ensures |longer| == |order| + 1 && NamesAscending(names, longer)
  {
    var i := 0;
    while i < |order| && NameBefore(names[order[i]], names[c])
      invariant i <= |order| && forall j | 0 <= j < i :: NameBefore(names[order[j]], names[c])
    {
      i := i + 1;
    }
    longer := order[..i] + [c] + order[i..];
    InsertedInOrder(names, order, c, i);
  }

  lemma InsertedInOrder(names: map<nat, string>, order: seq<nat>, c: nat, i: nat)
    requires c in names && (forall d | d in order :: d in names && names[d] != names[c]) && NamesAscending(names, order)
    requires i <= |order| && (forall j | 0 <= j < i :: NameBefore(names[order[j]], names[c]))
    requires i < |order| ==> !NameBefore(names[order[i]], names[c])
    ensures var longer := order[..i] + [c] + order[i..];
      && (forall d :: d in longer <==> d == c || d in order)
      && NamesAscending(names, longer)
  {
    hide NameBefore;
    var longer := order[..i] + [c] + order[i..];
    assert order == order[..i] + order[i..];
    LaterNames(names, order, c, i);
    forall a, b | 0 <= a < b < |longer| ensures NameBefore(names[longer[a]], names[longer[b]]) {
      var p, q := if a < i then a else a - 1, if b < i then b else b - 1;
      assert a != i ==> longer[a] == order[p];
      assert b != i ==> longer[b] == order[q];
    }
  }

  lemma LaterNames(names: map<nat, string>, order: seq<nat>, c: nat, i: nat)
    requires c in names && (forall d | d in order :: d in names && names[d] != names[c]) && NamesAscending(names, order)
    requires i < |order| ==> !NameBefore(names[order[i]], names[c])
    ensures forall j | i <= j < |order| :: NameBefore(names[c], names[order[j]])
  {
    hide NameBefore;
    forall j | i <= j < |order| ensures NameBefore(names[c], names[order[j]]) {
      NamesComparable(names[order[i]], names[c]);
      if i < j {
        NamesChain(names[c], names[order[i]], names[order[j]]);
      }
    }
  }

  /** ORDER BY name, for rows with different names. */
  method SortByName(names: map<nat, string>) returns (order: seq<nat>)
    requires forall c, d | c in names && d in names && names[c] == names[d] :: c == d
    ensures (forall c :: c in order <==> c in names) && |order| == |names| && NamesAscending(names, order)
  {
    order := [];
    var left := names.Keys;
    while left != {}
      invariant left <= names.Keys && forall c :: c in order <==> c in names && c !in left
      invariant |order| + |left| == |names.Keys| && NamesAscending(names, order)
      decreases |left|
    {
      var c :| c in left;
      order := InsertByName(names, order, c);
      left := left - {c};
    }
  }

  lemma OrderedByNameIsDistinct(names: map<nat, string>, order: seq<nat>)
    requires (forall c | c in order :: c in names) && NamesAscending(names, order)
    ensures Distinct(order)
  {
    forall i, j | 0 <= i < j < |order| ensures order[i] != order[j] {
      NotBeforeItself(names[order[i]]);
    }
  }

  lemma {:induction false} NotBeforeItself(a: string)
    ensures !NameBefore(a, a)
  {
    if a != "" {
      NotBeforeItself(a[1..]);
    }
  }
}
