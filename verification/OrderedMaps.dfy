/** The source's absent values and its insertion-ordered maps. */
module Optional {
  datatype Option<T> = None | Some(value: T)
}

module OrderedMaps {
  import opened Sequences

  type OrderedMap<K, V> = seq<(K, V)>

  ghost predicate Unique<K, V>(m: OrderedMap<K, V>) {
    forall i, j | 0 <= i < j < |m| :: m[i].0 != m[j].0
  }

  /** Where the key is, or the size of the map. */
  function Find<K(==), V>(m: OrderedMap<K, V>, key: K): (i: nat)
    ensures i <= |m|
    ensures i < |m| ==> m[i].0 == key
    ensures i == |m| ==> forall j | 0 <= j < |m| :: m[j].0 != key
  {
    if m == [] then 0
    else
      var i := Find(m[..|m| - 1], key);
      if i < |m| - 1 then i
      else if m[|m| - 1].0 == key then |m| - 1 else |m|
  }

  function Get<K(==), V>(m: OrderedMap<K, V>, key: K, absent: V): V {
    var i := Find(m, key);
    if i < |m| then m[i].1 else absent
  }

  /** Overwrites in place, or appends. */
  function Put<K(==), V>(m: OrderedMap<K, V>, key: K, value: V): OrderedMap<K, V> {
    var i := Find(m, key);
    if i < |m| then m[i := (key, value)] else m + [(key, value)]
  }

  lemma PutUnique<K, V>(m: OrderedMap<K, V>, key: K, value: V)
    requires Unique(m)
    ensures Unique(Put(m, key, value))
    ensures forall p | p in Put(m, key, value) :: p in m || p == (key, value)
  {
  }

  lemma PutFound<K, V>(m: OrderedMap<K, V>, key: K, value: V)
    ensures |Put(m, key, value)| == if Find(m, key) < |m| then |m| else |m| + 1
    ensures Find(Put(m, key, value), key) < |Put(m, key, value)|
  {
    var after := Put(m, key, value);
    assert after[Find(m, key)] == (key, value);
  }

  lemma SumReplace<T>(s: seq<T>, i: nat, x: T, weight: T -> int)
    requires i < |s|
    ensures SumOver(s[i := x], weight) == SumOver(s, weight) - weight(s[i]) + weight(x)
  {
    var r := s[i := x];
    SumWithout(s, i, weight);
    SumWithout(r, i, weight);
    assert r[..i] == s[..i] && r[i + 1..] == s[i + 1..];
  }

  /** What one Put does to any sum over the entries. */
  lemma PutSum<K, V>(m: OrderedMap<K, V>, key: K, value: V, weight: ((K, V)) -> int)
    ensures SumOver(Put(m, key, value), weight) ==
            SumOver(m, weight) + weight((key, value))
            - if Find(m, key) < |m| then weight((key, m[Find(m, key)].1)) else 0
  {
    var i := Find(m, key);
    if i < |m| {
      SumReplace(m, i, (key, value), weight);
    } else {
      assert (m + [(key, value)])[..|m|] == m;
    }
  }

  lemma GetPut<K, V>(m: OrderedMap<K, V>, key: K, value: V, other: K, absent: V)
    requires Unique(m)
    ensures Get(Put(m, key, value), other, absent) == if other == key then value else Get(m, other, absent)
  {
    var after := Put(m, key, value);
    PutUnique(m, key, value);
    if other == key {
      assert after[Find(m, key)] == (key, value);
      FoundAt(after, Find(m, key));
    } else if Find(m, other) < |m| {
      assert after[Find(m, other)] == m[Find(m, other)];
      FoundAt(after, Find(m, other));
    }
  }

  lemma FoundAt<K, V>(m: OrderedMap<K, V>, i: nat)
    requires Unique(m) && i < |m|
    ensures Find(m, m[i].0) == i
  {
  }

  /** Every value changed alike, keys and order kept. */
  function WithValues<K, V, W>(m: OrderedMap<K, V>, f: V -> W): (r: OrderedMap<K, W>)
    ensures |r| == |m|
    ensures forall i | 0 <= i < |m| :: r[i] == (m[i].0, f(m[i].1))
  {
    seq(|m|, i requires 0 <= i < |m| => (m[i].0, f(m[i].1)))
  }

  lemma {:induction false} FindWithValues<K, V, W>(m: OrderedMap<K, V>, f: V -> W, key: K)
    ensures Find(WithValues(m, f), key) == Find(m, key)
  {
    if m != [] {
      FindWithValues(m[..|m| - 1], f, key);
      assert WithValues(m, f)[..|m| - 1] == WithValues(m[..|m| - 1], f);
    }
  }

  lemma PutWithValues<K, V, W>(m: OrderedMap<K, V>, f: V -> W, key: K, value: V, absent: V)
    ensures Put(WithValues(m, f), key, f(value)) == WithValues(Put(m, key, value), f)
    ensures Get(WithValues(m, f), key, f(absent)) == f(Get(m, key, absent))
  {
    FindWithValues(m, f, key);
  }
}
