/** Coloured balances: addition, totals over maps, and uint64 subtraction. */
module Balances {
  import opened Collections

  datatype Color = ColorZIPP | ColorMint | Colored(id: nat)

  type Balances = map<Color, nat>

  const TWO_TO_THE_64: nat := 0x1_0000_0000_0000_0000

  /** A missing entry of a Go map reads as zero. */
  function Get(b: Balances, c: Color): nat {
    if c in b then b[c] else 0
  }

  /** What NewColoredBalances guarantees: zero entries are dropped. */
  ghost predicate Positive(b: Balances) {
    forall c | c in b :: 0 < b[c]
  }

  function DropZeros(b: Balances): (r: Balances)
    ensures forall c :: c in r <==> c in b && b[c] != 0
    ensures forall c | c in r :: r[c] == b[c]
  {
    b - (set c | c in b && b[c] == 0)
  }

  /** The sum, with an entry for every colour of either. */
  ghost function Plus(a: Balances, b: Balances): (r: Balances)
    ensures forall c {:trigger c in r} :: c in r <==> c in a || c in b
    ensures forall c {:trigger Get(r, c)} :: Get(r, c) == Get(a, c) + Get(b, c)
  {
    Tabulate(a.Keys + b.Keys, c => Get(a, c) + Get(b, c))
  }

  /** Subtraction on uint64: below zero it wraps around. */
  function Sub64(a: nat, b: nat): nat {
    (a - b) % TWO_TO_THE_64
  }

  lemma SmallModulus(n: nat)
    requires n < TWO_TO_THE_64
    ensures n % TWO_TO_THE_64 == n
  {
  }

  ghost predicate Fits64(b: Balances) {
    forall c | c in b :: b[c] < TWO_TO_THE_64
  }

  ghost predicate Covers(funds: Balances, target: Balances) {
    forall c | c in target :: target[c] <= Get(funds, c)
  }

  ghost predicate SameAmounts(a: Balances, b: Balances) {
    forall c :: Get(a, c) == Get(b, c)
  }

  lemma SameBalances(a: Balances, b: Balances)
    requires forall c :: (c in a <==> c in b) && Get(a, c) == Get(b, c)
    ensures a == b
  {
    assert forall c | c in a :: a[c] == Get(a, c);
  }

  lemma PlusNone(b: Balances)
    ensures Plus(map[], b) == b && Plus(b, map[]) == b
  {
    SameBalances(Plus(map[], b), b);
    SameBalances(Plus(b, map[]), b);
  }

  lemma PlusCommutes(a: Balances, b: Balances)
    ensures Plus(a, b) == Plus(b, a)
  {
  }

  lemma PlusAssociates(a: Balances, b: Balances, c: Balances)
    ensures Plus(Plus(a, b), c) == Plus(a, Plus(b, c))
  {
    SameBalances(Plus(Plus(a, b), c), Plus(a, Plus(b, c)));
  }

  lemma PlusSwaps(a: Balances, b: Balances, c: Balances)
    ensures Plus(Plus(a, b), c) == Plus(Plus(a, c), b)
  {
    PlusAssociates(a, b, c);
    PlusCommutes(b, c);
    PlusAssociates(a, c, b);
  }

  /** Everything that the entries of a map hold together. */
  ghost function Total<K>(m: map<K, Balances>): Balances
    decreases |m|
  {
    if m == map[] then
      map[]
    else
      var k :| k in m;
      assert |m - {k}| < |m| by { assert (m - {k}).Keys == m.Keys - {k}; }
      Plus(Total(m - {k}), m[k])
  }

  /** The total does not depend on the order in which the entries are added. */
  lemma {:induction false} TotalRemove<K>(m: map<K, Balances>, k: K)
    requires k in m
    ensures Total(m) == Plus(Total(m - {k}), m[k])
    decreases |m|
  {
    var j :| j in m && Total(m) == Plus(Total(m - {j}), m[j]);
    if j != k {
      assert (m - {j}).Keys == m.Keys - {j} && (m - {k}).Keys == m.Keys - {k};
      var both := m - {j} - {k};
      assert m - {k} - {j} == both;
      TotalRemove(m - {j}, k);
      TotalRemove(m - {k}, j);
      PlusSwaps(Total(both), m[k], m[j]);
    }
  }

  lemma TotalInsert<K>(m: map<K, Balances>, k: K, b: Balances)
    requires k !in m
    ensures Total(m[k := b]) == Plus(Total(m), b)
  {
    TotalRemove(m[k := b], k);
    assert m[k := b] - {k} == m;
  }

  lemma PlusNothing<K>(a: map<K, Balances>, b: map<K, Balances>)
    requires b == map[]
    ensures Total(a + b) == Plus(Total(a), Total(b))
  {
    assert a + b == a;
    assert Plus(Total(a), map[]) == Total(a);
  }

  lemma UnionRemove<K>(a: map<K, Balances>, b: map<K, Balances>, k: K)
    requires a.Keys !! b.Keys && k in b
    ensures (a + b) - {k} == a + (b - {k}) && |b - {k}| < |b|
  {
    assert (b - {k}).Keys == b.Keys - {k};
  }

  /** Disjoint parts add up. */
  lemma {:induction false} TotalUnion<K>(a: map<K, Balances>, b: map<K, Balances>)
    requires a.Keys !! b.Keys
    ensures Total(a + b) == Plus(Total(a), Total(b))
    decreases |b|
  {
    if b == map[] {
      PlusNothing(a, b);
    } else {
      var k :| k in b;
      UnionRemove(a, b, k);
      TotalUnion(a, b - {k});
      TotalRemove(b, k);
      TotalRemove(a + b, k);
      PlusAssociates(Total(a), Total(b - {k}), b[k]);
    }
  }

  lemma {:induction false} TotalPositive<K>(m: map<K, Balances>)
    requires forall k | k in m :: Positive(m[k])
    ensures Positive(Total(m))
    decreases |m|
  {
    if m != map[] {
      var k :| k in m;
      assert (m - {k}).Keys == m.Keys - {k};
      TotalRemove(m, k);
      TotalPositive(m - {k});
    }
  }

  /** A part holds at most what the whole holds. */
  lemma TotalOfPart<K>(part: map<K, Balances>, whole: map<K, Balances>, c: Color)
    requires forall k | k in part :: k in whole && part[k] == whole[k]
    ensures Get(Total(part), c) <= Get(Total(whole), c)
  {
    PartAndRest(part, whole);
    TotalUnion(part, whole - part.Keys);
  }

  lemma PartAndRest<K>(part: map<K, Balances>, whole: map<K, Balances>)
    requires forall k | k in part :: k in whole && part[k] == whole[k]
    ensures part + (whole - part.Keys) == whole
  {
  }

  /** A colour is in the total exactly if it is in some entry. */
  lemma {:induction false} TotalKeys<K>(m: map<K, Balances>, c: Color)
    ensures c in Total(m) <==> exists k :: k in m && c in m[k]
    decreases |m|
  {
    if m != map[] {
      var k :| k in m;
      assert (m - {k}).Keys == m.Keys - {k};
      TotalRemove(m, k);
      TotalKeys(m - {k}, c);
      assert forall j | j in m :: j == k || j in m - {k};
    }
  }

  /** The sum along a list. */
  ghost function Sum(s: seq<Balances>): Balances {
    if s == [] then map[] else Plus(Sum(s[..|s| - 1]), s[|s| - 1])
  }

  lemma SumSnoc(s: seq<Balances>, b: Balances)
    ensures Sum(s + [b]) == Plus(Sum(s), b)
  {
    assert (s + [b])[..|s|] == s;
  }

  lemma {:induction false} SumConcat(s: seq<Balances>, t: seq<Balances>)
    ensures Sum(s + t) == Plus(Sum(s), Sum(t))
  {
    if t == [] {
      assert s + t == s;
      assert Plus(Sum(s), map[]) == Sum(s);
    } else {
      var front, last := t[..|t| - 1], t[|t| - 1];
      SumConcat(s, front);
      assert s + t == (s + front) + [last];
      SumSnoc(s + front, last);
      PlusAssociates(Sum(s), Sum(front), last);
    }
  }

  lemma {:induction false} SumPrefix(s: seq<Balances>, n: nat, c: Color)
    requires n <= |s|
    ensures Get(Sum(s[..n]), c) <= Get(Sum(s), c)
  {
    assert s == s[..n] + s[n..];
    SumConcat(s[..n], s[n..]);
  }

  lemma SumOfOne(b: Balances)
    ensures Sum([b]) == b
  {
    assert [b] == [] + [b];
    SumSnoc([], b);
    PlusNone(b);
  }

  /** Adding colour by colour, as the closures handed to ForEach do. */
  method AddAll(acc: Balances, b: Balances) returns (r: Balances)
    ensures r == Plus(acc, b)
  {
    r := acc;
    var todo := b.Keys;
    while todo != {}
      invariant todo <= b.Keys
      invariant forall c :: c in r <==> c in acc || (c in b && c !in todo)
      invariant forall c :: Get(r, c) == Get(acc, c) + if c in todo then 0 else Get(b, c)
    {
      var c :| c in todo;
      r := r[c := Get(r, c) + b[c]];
      todo := todo - {c};
    }
    SameBalances(r, Plus(acc, b));
  }
}
