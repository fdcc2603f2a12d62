/** Python's insertion-ordered `dict` / `OrderedDict` with string keys, as an
    association sequence. `Put` is `d[k] = v`: an existing key keeps its place
    and gets the new value, a new key goes at the end. */
module OrderedDict {
  import opened Wrappers

  type Entries<V> = seq<(string, V)>

  function Keys<V>(e: Entries<V>): seq<string>
  {
    if e == [] then [] else [e[0].0] + Keys(e[1..])
  }

  function Values<V>(e: Entries<V>): set<V>
  {
    if e == [] then {} else {e[0].1} + Values(e[1..])
  }

  /** No key occurs twice: the shape every Python dict has. */
  predicate UniqueKeys<V>(e: Entries<V>)
  {
    e == [] || (e[0].0 !in Keys(e[1..]) && UniqueKeys(e[1..]))
  }

  /** `d.get(k)`: the value stored under `k`, if any. */
  function Lookup<V>(e: Entries<V>, k: string): (r: Option<V>)
    ensures r.Some? <==> k in Keys(e)
    ensures r.Some? ==> r.value in Values(e)
  {
    if e == [] then None
    else if e[0].0 == k then Some(e[0].1)
    else Lookup(e[1..], k)
  }

  /** `d[k] = v`. */
  function Put<V>(e: Entries<V>, k: string, v: V): (r: Entries<V>)
    ensures Keys(r) == if k in Keys(e) then Keys(e) else Keys(e) + [k]
    ensures Lookup(r, k) == Some(v)
    ensures forall k' :: k' != k ==> Lookup(r, k') == Lookup(e, k')
    ensures UniqueKeys(e) ==> UniqueKeys(r)
    ensures Values(r) <= Values(e) + {v}
    ensures k !in Keys(e) ==> r == e + [(k, v)]
  {
    if e == [] then [(k, v)]
    else if e[0].0 == k then
      assert ([(k, v)] + e[1..])[1..] == e[1..];
      [(k, v)] + e[1..]
    else
      var tail := Put(e[1..], k, v);
      var r := [e[0]] + tail;
      assert r[1..] == tail && r[0] == e[0];
      assert Keys(r) == [e[0].0] + Keys(tail);
      assert k !in Keys(e) ==> r == e + [(k, v)] by {
        if k !in Keys(e) {
          assert e == [e[0]] + e[1..];
        }
      }
      r
  }

  /** The keys of two lists of entries laid end to end. */
  lemma {:induction false} KeysAppend<V>(a: Entries<V>, b: Entries<V>)
    ensures Keys(a + b) == Keys(a) + Keys(b)
  {
    if a != [] {
      assert (a + b)[1..] == a[1..] + b;
      KeysAppend(a[1..], b);
      assert (a + b)[0] == a[0];
    } else {
      assert a + b == b;
    }
  }

  /** The `i`-th key is the key of the `i`-th entry. */
  lemma {:induction false} KeysIndex<V>(e: Entries<V>)
    ensures |Keys(e)| == |e| && forall i :: 0 <= i < |e| ==> Keys(e)[i] == e[i].0
  {
    if e != [] {
      KeysIndex(e[1..]);
    }
  }

  /** The values of two lists of entries laid end to end. */
  lemma {:induction false} ValuesAppend<V>(a: Entries<V>, b: Entries<V>)
    ensures Values(a + b) == Values(a) + Values(b)
  {
    if a != [] {
      assert (a + b)[1..] == a[1..] + b;
      ValuesAppend(a[1..], b);
      assert (a + b)[0] == a[0];
    } else {
      assert a + b == b;
    }
  }

  /** In a dict, every value is stored under some key that finds it. */
  lemma {:induction false} ValueKey<V>(e: Entries<V>, v: V) returns (k: string)
    requires UniqueKeys(e) && v in Values(e)
    ensures k in Keys(e) && Lookup(e, k) == Some(v)
  {
    if e[0].1 == v {
      k := e[0].0;
    } else {
      k := ValueKey(e[1..], v);
      assert k != e[0].0;
    }
  }
}
