/** Options, iteration orders and the two-level maps that the wallet passes around. */
module Collections {

  datatype Option<+T> = None | Some(value: T)

  ghost predicate Distinct<T>(s: seq<T>) {
    forall i, j | 0 <= i < j < |s| :: s[i] != s[j]
  }

  function Elements<T>(s: seq<T>): set<T> {
    set x | x in s
  }

  lemma ConcatAssociates<T>(a: seq<T>, b: seq<T>, c: seq<T>)
    ensures a + b + c == a + (b + c)
  {
  }

  lemma PrefixStep<T>(s: seq<T>, i: nat)
    requires i < |s|
    ensures s[..i + 1] == s[..i] + [s[i]]
  {
  }

  /** A sequence without repetitions has as many elements as positions. */
  lemma {:induction false} DistinctCount<T>(s: seq<T>)
    requires Distinct(s)
    ensures |Elements(s)| == |s|
  {
    if s != [] {
      var front, last := s[..|s| - 1], s[|s| - 1];
      DistinctCount(front);
      assert s == front + [last];
      assert Elements(s) == Elements(front) + {last};
    }
  }

  /** The order in which Go visits the keys of a map: every key once, in an order the program cannot choose. */
  method SomeOrder<T(==)>(keys: set<T>) returns (order: seq<T>)
    ensures Distinct(order)
    ensures Elements(order) == keys
    ensures |order| == |keys|
  {
    order := [];
    var todo := keys;
    while todo != {}
      invariant todo <= keys
      invariant Distinct(order)
      invariant Elements(order) == keys - todo
    {
      var k :| k in todo;
      assert Elements(order + [k]) == Elements(order) + {k};
      order := order + [k];
      todo := todo - {k};
    }
    DistinctCount(order);
  }

  /** The part of a map that belongs to the given keys. */
  function Only<K, V>(m: map<K, V>, keys: set<K>): (part: map<K, V>)
    ensures part.Keys == m.Keys * keys
    ensures forall k | k in part :: part[k] == m[k]
  {
    m - (m.Keys - keys)
  }

  /** The map that assigns f(k) to every given key k. */
  ghost function Tabulate<K, V>(keys: set<K>, f: K --> V): (m: map<K, V>)
    requires forall k | k in keys :: f.requires(k)
    ensures m.Keys == keys
    ensures forall k | k in keys :: m[k] == f(k)
  {
    if keys == {} then map[]
    else
      var k :| k in keys;
      Tabulate(keys - {k}, f)[k := f(k)]
  }

  /** Maps with the same entries are equal. */
  lemma SameMap<K, V>(a: map<K, V>, b: map<K, V>)
    requires a.Keys == b.Keys && forall k | k in a :: a[k] == b[k]
    ensures a == b
  {
  }

  lemma OnlyAll<K, V>(m: map<K, V>, keys: set<K>)
    requires m.Keys <= keys
    ensures Only(m, keys) == m
  {
    SameMap(Only(m, keys), m);
  }

  lemma OnlyGrows<K, V>(m: map<K, V>, done: set<K>, k: K)
    requires k in m
    ensures Only(m, done + {k}) == Only(m, done)[k := m[k]]
  {
  }
}
