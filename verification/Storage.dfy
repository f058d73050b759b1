/** Key-value mutations shared by every store, and what a list of them amounts to. */
module Storage {
  import opened Common

  datatype Mutation<K, V> = Put(key: K, value: V) | Delete(key: K)

  function Applied<K(==), V>(f: map<K, V>, m: Mutation<K, V>): map<K, V> {
    match m
    case Put(key, value) => f[key := value]
    case Delete(key) => f - {key}
  }

  function ApplyAll<K(==), V>(f: map<K, V>, ms: seq<Mutation<K, V>>): map<K, V>
    decreases |ms|
  {
    if ms == [] then f else Applied(ApplyAll(f, ms[..|ms| - 1]), ms[|ms| - 1])
  }

  function Lookup<K(==), V>(f: map<K, V>, key: K): Option<V> {
    if key in f then Some(f[key]) else None
  }

  function Effect<K, V>(m: Mutation<K, V>): Option<V> {
    if m.Put? then Some(m.value) else None
  }

  /** Index just past the last mutation of `key`, or 0. */
  function LastUse<K(==), V>(ms: seq<Mutation<K, V>>, key: K): (n: nat)
    ensures n <= |ms|
    ensures n > 0 ==> ms[n - 1].key == key
    ensures forall j :: n <= j < |ms| ==> ms[j].key != key
    decreases |ms|
  {
    if ms == [] then 0
    else if ms[|ms| - 1].key == key then |ms|
    else LastUse(ms[..|ms| - 1], key)
  }

  /** The last mutation of a key decides it; an unmentioned key keeps its value. */
  lemma {:induction false} LastMutationDecides<K, V>(f: map<K, V>, ms: seq<Mutation<K, V>>, key: K)
    ensures Lookup(ApplyAll(f, ms), key) ==
            if LastUse(ms, key) > 0 then Effect(ms[LastUse(ms, key) - 1]) else Lookup(f, key)
    decreases |ms|
  {
    if ms != [] {
      LastMutationDecides(f, ms[..|ms| - 1], key);
    }
  }

  lemma SameLookups<K(!new), V>(f: map<K, V>, g: map<K, V>)
    requires forall key :: Lookup(f, key) == Lookup(g, key)
    ensures f == g
  {
    forall key ensures (key in f <==> key in g) && (key in f ==> f[key] == g[key]) {
      assert Lookup(f, key) == Lookup(g, key);
    }
  }

  /** Replay is idempotent: any prefix followed by the whole list is the whole list. */
  lemma ReplayAfterPrefix<K(!new), V>(f: map<K, V>, ms: seq<Mutation<K, V>>, n: nat)
    requires n <= |ms|
    ensures ApplyAll(ApplyAll(f, ms[..n]), ms) == ApplyAll(f, ms)
  {
    var g := ApplyAll(f, ms[..n]);
    forall key ensures Lookup(ApplyAll(g, ms), key) == Lookup(ApplyAll(f, ms), key) {
      LastMutationDecides(f, ms, key);
      LastMutationDecides(g, ms, key);
      LastMutationDecides(f, ms[..n], key);
    }
    SameLookups(ApplyAll(g, ms), ApplyAll(f, ms));
  }

  lemma ApplyOneMore<K, V>(f: map<K, V>, ms: seq<Mutation<K, V>>, m: Mutation<K, V>)
    ensures ApplyAll(f, ms + [m]) == Applied(ApplyAll(f, ms), m)
  {
    assert (ms + [m])[..|ms|] == ms;
  }

  /** The storage interface the engine is written against; a batch takes effect at once. */
  class KeyValueStore<K(==), V> {
    var data: map<K, V>

    constructor ()
      ensures data == map[]
    {
      data := map[];
    }

    method Put(key: K, value: V)
      modifies this
      ensures data == Applied(old(data), Mutation.Put(key, value))
    {
      data := data[key := value];
    }

    method ApplyBatch(ms: seq<Mutation<K, V>>)
      modifies this
      ensures data == ApplyAll(old(data), ms)
    {
      var i := 0;
      while i < |ms|
        invariant 0 <= i <= |ms|
        invariant data == ApplyAll(old(data), ms[..i])
      {
        assert ms[..i + 1] == ms[..i] + [ms[i]];
        ApplyOneMore(old(data), ms[..i], ms[i]);
        match ms[i] {
          case Put(key, value) => data := data[key := value];
          case Delete(key) => data := data - {key};
        }
        i := i + 1;
      }
      assert ms[..|ms|] == ms;
    }
  }
}
