/** A least-recently-used map with a bound on its length, most recently used entry first. */
module Lru {
  import opened Base

  function Find<K(==), V>(e: seq<(K, V)>, k: K): (r: Option<V>) {
    if e == [] then None else if e[0].0 == k then Some(e[0].1) else Find(e[1..], k)
  }

  function Without<K(==), V>(e: seq<(K, V)>, k: K): (r: seq<(K, V)>)
    ensures |r| <= |e|
  {
    if e == [] then [] else if e[0].0 == k then Without(e[1..], k) else [e[0]] + Without(e[1..], k)
  }

  /** Looking an entry up makes it the most recent one. */
  function Touch<K(==), V>(e: seq<(K, V)>, k: K): (r: seq<(K, V)>) {
    if Find(e, k).Some? then [(k, Find(e, k).value)] + Without(e, k) else e
  }

  /** The new entry goes first; if that makes one too many, the oldest goes. */
  function Insert<K(==), V>(e: seq<(K, V)>, k: K, v: V, capacity: nat): (r: seq<(K, V)>) {
    var all := [(k, v)] + Without(e, k);
    if |all| > capacity then all[..|all| - 1] else all
  }

  ghost predicate Wf<K, V>(e: seq<(K, V)>, capacity: nat) {
    && |e| <= capacity
    && (forall i, j :: 0 <= i < j < |e| ==> e[i].0 != e[j].0)
  }

  lemma FindWithout<K, V>(e: seq<(K, V)>, k: K, q: K)
    ensures Find(Without(e, k), q) == if q == k then None else Find(e, q)
  {
  }

  lemma FindMember<K, V>(e: seq<(K, V)>, k: K)
    ensures Find(e, k).Some? ==> (k, Find(e, k).value) in e
    ensures Find(e, k).None? ==> forall i :: 0 <= i < |e| ==> e[i].0 != k
  {
    if e != [] && e[0].0 != k {
      FindMember(e[1..], k);
      forall i | 0 <= i < |e| && Find(e, k).None? ensures e[i].0 != k { if i > 0 { assert e[i] == e[1..][i - 1]; } }
    }
  }

  lemma MemberFound<K, V>(e: seq<(K, V)>, capacity: nat, x: (K, V))
    requires Wf(e, capacity) && x in e
    ensures Find(e, x.0) == Some(x.1)
  {
    if e[0] != x {
      var i :| 0 <= i < |e| && e[i] == x;
      assert e[0].0 != x.0;
      assert x in e[1..] by { assert e[1..][i - 1] == x; }
      MemberFound(e[1..], capacity, x);
    }
  }

  lemma WithoutMembers<K, V>(e: seq<(K, V)>, k: K, x: (K, V))
    ensures x in Without(e, k) <==> x in e && x.0 != k
  {
  }

  lemma WithoutWf<K, V>(e: seq<(K, V)>, k: K, capacity: nat)
    requires Wf(e, capacity)
    ensures Wf(Without(e, k), capacity)
    ensures Find(e, k).Some? ==> |Without(e, k)| < |e|
  {
    if e != [] {
      WithoutWf(e[1..], k, capacity);
      var rest := Without(e[1..], k);
      forall i | 0 <= i < |rest| ensures rest[i].0 != e[0].0 {
        WithoutMembers(e[1..], k, rest[i]);
        var j :| 0 <= j < |e[1..]| && e[1..][j] == rest[i];
        assert e[1..][j] == e[j + 1];
      }
    }
  }

  lemma PrefixFind<K, V>(e: seq<(K, V)>, capacity: nat, k: K)
    requires Wf(e, capacity) && e != []
    ensures var cut := e[..|e| - 1]; Find(cut, k) == if k == e[|e| - 1].0 then None else Find(e, k)
  {
    var cut := e[..|e| - 1];
    FindMember(e, k);
    FindMember(cut, k);
    if Find(cut, k).Some? {
      assert (k, Find(cut, k).value) in e;
      MemberFound(e, capacity, (k, Find(cut, k).value));
    } else if Find(e, k).Some? {
      var x := (k, Find(e, k).value);
      assert x in e;
      assert x !in cut;
      assert e == cut + [e[|e| - 1]];
    }
  }

  /** A lookup changes the order and nothing else. */
  lemma TouchFinds<K, V>(e: seq<(K, V)>, k: K, capacity: nat, q: K)
    requires Wf(e, capacity)
    ensures Wf(Touch(e, k), capacity) && Find(Touch(e, k), q) == Find(e, q)
  {
    WithoutWf(e, k, capacity);
    FindWithout(e, k, q);
    FindMember(Without(e, k), k);
    FindWithout(e, k, k);
    var t := Touch(e, k);
    if Find(e, k).Some? {
      assert t[1..] == Without(e, k);
    }
  }

  /**
    After an insertion the new entry is there, the bound holds, and any other key is found
    with its old value, unless it was the least recently used one and there was no room.
   */
  lemma InsertFinds<K, V>(e: seq<(K, V)>, k: K, v: V, capacity: nat, q: K)
    requires Wf(e, capacity) && capacity > 0
    ensures var r := Insert(e, k, v, capacity);
            && Wf(r, capacity) && Find(r, k) == Some(v)
            && (q != k ==>
                  Find(r, q) == if Find(e, k).None? && |e| == capacity && q == e[capacity - 1].0 then None
                                else Find(e, q))
  {
    if Find(e, k).Some? {
      InsertKnown(e, k, v, capacity, q);
    } else if |e| < capacity {
      WithoutAbsent(e, k);
      ConsFinds(e, k, v, capacity - 1, q);
      ConsFinds(e, k, v, capacity - 1, k);
    } else {
      InsertEvicts(e, k, v, capacity, q);
    }
  }

  lemma InsertKnown<K, V>(e: seq<(K, V)>, k: K, v: V, capacity: nat, q: K)
    requires Wf(e, capacity) && Find(e, k).Some?
    ensures var r := Insert(e, k, v, capacity);
            Wf(r, capacity) && Find(r, k) == Some(v) && (q != k ==> Find(r, q) == Find(e, q))
  {
    var rest := Without(e, k);
    WithoutWf(e, k, capacity);
    FindWithout(e, k, q);
    FindWithout(e, k, k);
    assert |rest| < capacity;
    assert Insert(e, k, v, capacity) == [(k, v)] + rest;
    ConsFinds(rest, k, v, capacity - 1, q);
    ConsFinds(rest, k, v, capacity - 1, k);
  }

  lemma InsertEvicts<K, V>(e: seq<(K, V)>, k: K, v: V, capacity: nat, q: K)
    requires Wf(e, capacity) && |e| == capacity > 0 && Find(e, k).None?
    ensures var r := Insert(e, k, v, capacity);
            && Wf(r, capacity) && Find(r, k) == Some(v)
            && (q != k ==> Find(r, q) == if q == e[capacity - 1].0 then None else Find(e, q))
  {
    var kept := e[..capacity - 1];
    WithoutAbsent(e, k);
    assert Insert(e, k, v, capacity) == [(k, v)] + kept;
    PrefixFind(e, capacity, q);
    PrefixFind(e, capacity, k);
    ConsFinds(kept, k, v, capacity - 1, q);
    ConsFinds(kept, k, v, capacity - 1, k);
  }

  lemma ConsFinds<K, V>(e: seq<(K, V)>, k: K, v: V, capacity: nat, q: K)
    requires Wf(e, capacity) && Find(e, k).None?
    ensures var r := [(k, v)] + e; Wf(r, capacity + 1) && Find(r, q) == if q == k then Some(v) else Find(e, q)
  {
    FindMember(e, k);
    assert ([(k, v)] + e)[1..] == e;
  }

  lemma WithoutAbsent<K, V>(e: seq<(K, V)>, k: K)
    requires Find(e, k).None?
    ensures Without(e, k) == e
  {
  }

  // ----- As a map -----

  ghost function AsMap<K(!new), V>(e: seq<(K, V)>): (m: map<K, V>)
    ensures forall k :: k in m <==> Find(e, k).Some?
    ensures forall k :: k in m ==> Find(e, k) == Some(m[k])
  {
    if e == [] then map[] else AsMap(e[1..])[e[0].0 := e[0].1]
  }

  /** What an insertion under this key throws out. */
  ghost function Evicted<K(!new), V>(e: seq<(K, V)>, k: K, capacity: nat): set<K> {
    if Find(e, k).None? && |e| == capacity > 0 then {e[capacity - 1].0} else {}
  }

  lemma InsertAsMap<K(!new), V>(e: seq<(K, V)>, k: K, v: V, capacity: nat)
    requires Wf(e, capacity) && capacity > 0
    ensures Wf(Insert(e, k, v, capacity), capacity)
    ensures AsMap(Insert(e, k, v, capacity)) == (AsMap(e) - Evicted(e, k, capacity))[k := v]
    ensures k !in Evicted(e, k, capacity)
  {
    var r := Insert(e, k, v, capacity);
    var m := (AsMap(e) - Evicted(e, k, capacity))[k := v];
    InsertFinds(e, k, v, capacity, k);
    FindMember(e, k);
    forall q ensures Lookup(AsMap(r), q) == Lookup(m, q) {
      InsertFinds(e, k, v, capacity, q);
    }
    SameLookups(AsMap(r), m);
  }

  lemma TouchAsMap<K(!new), V>(e: seq<(K, V)>, k: K, capacity: nat)
    requires Wf(e, capacity)
    ensures Wf(Touch(e, k), capacity) && AsMap(Touch(e, k)) == AsMap(e)
  {
    TouchFinds(e, k, capacity, k);
    forall q ensures Lookup(AsMap(Touch(e, k)), q) == Lookup(AsMap(e), q) {
      TouchFinds(e, k, capacity, q);
    }
    SameLookups(AsMap(Touch(e, k)), AsMap(e));
  }

  lemma WithoutAsMap<K(!new), V>(e: seq<(K, V)>, k: K, capacity: nat)
    requires Wf(e, capacity)
    ensures Wf(Without(e, k), capacity) && AsMap(Without(e, k)) == AsMap(e) - {k}
  {
    WithoutWf(e, k, capacity);
    forall q ensures Lookup(AsMap(Without(e, k)), q) == Lookup(AsMap(e) - {k}, q) {
      FindWithout(e, k, q);
    }
    SameLookups(AsMap(Without(e, k)), AsMap(e) - {k});
  }

  lemma SameLookups<K(!new), V>(a: map<K, V>, b: map<K, V>)
    requires forall k :: Lookup(a, k) == Lookup(b, k)
    ensures a == b
  {
    forall k ensures k in a <==> k in b { assert Lookup(a, k) == Lookup(b, k); }
    forall k | k in a ensures a[k] == b[k] { assert Lookup(a, k) == Lookup(b, k); }
  }

  // ----- Recency -----

  /** The entry looked up comes first; the others keep their order. */
  lemma {:induction false} TouchedIsFirst<K, V>(e: seq<(K, V)>, k: K, capacity: nat) returns (i: nat)
    requires Wf(e, capacity) && Find(e, k).Some?
    ensures i < |e| && e[i] == (k, Find(e, k).value) && Touch(e, k) == [e[i]] + e[..i] + e[i + 1..]
  {
    FindMember(e, k);
    i :| 0 <= i < |e| && e[i] == (k, Find(e, k).value);
    WithoutAt(e, k, capacity, i);
    assert [e[i]] + (e[..i] + e[i + 1..]) == [e[i]] + e[..i] + e[i + 1..];
  }

  lemma {:induction false} WithoutAt<K, V>(e: seq<(K, V)>, k: K, capacity: nat, i: nat)
    requires Wf(e, capacity) && i < |e| && e[i].0 == k
    ensures Without(e, k) == e[..i] + e[i + 1..]
  {
    if i == 0 {
      FindMember(e[1..], k);
      forall j | 0 <= j < |e[1..]| ensures e[1..][j].0 != k { assert e[0].0 != e[j + 1].0; }
      WithoutAbsent(e[1..], k);
    } else {
      assert e[0].0 != e[i].0;
      WithoutAt(e[1..], k, capacity, i - 1);
      assert e[1..][..i - 1] == e[1..i] && e[1..][i..] == e[i + 1..];
      assert [e[0]] + e[1..i] == e[..i];
    }
  }

  /** So the next insertion does not throw it out, as long as there is room for two. */
  lemma TouchedIsSpared<K, V>(e: seq<(K, V)>, k: K, capacity: nat, q: K, v: V)
    requires Wf(e, capacity) && Find(e, k).Some? && capacity > 1 && q != k
    ensures Find(Insert(Touch(e, k), q, v, capacity), k) == Find(e, k)
  {
    TouchFinds(e, k, capacity, k);
    InsertFinds(Touch(e, k), q, v, capacity, k);
    var t := Touch(e, k);
    if |t| == capacity {
      assert t[0].0 == k && t[0].0 != t[capacity - 1].0;
    }
  }
}
