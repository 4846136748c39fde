/** A JavaScript `Map` with string keys, as the list of its entries in insertion order:
    `for...of` over `entries()` and `keys()` visit the entries in this order. */
module OrderedMap {
  import opened Wrappers

  type Entries<V> = seq<(string, V)>

  /** The keys of the entries, in order (`Array.from(m.keys())`). */
  function Keys<V>(m: Entries<V>): seq<string>
  {
    seq(|m|, i requires 0 <= i < |m| => m[i].0)
  }

  /** No key occurs twice. */
  predicate Distinct(ks: seq<string>)
  {
    forall i, j :: 0 <= i < j < |ks| ==> ks[i] != ks[j]
  }

  /** `m.get(k)`, with `None` for a missing key. */
  function Get<V>(m: Entries<V>, k: string): Option<V>
  {
    if m == [] then None
    else if m[0].0 == k then Some(m[0].1)
    else Get(m[1..], k)
  }

  /** `m.set(k, v)`: a key already present keeps its position and takes the new value;
      a new key is appended at the end. */
  function Set<V>(m: Entries<V>, k: string, v: V): (r: Entries<V>)
    ensures Keys(r) == if k in Keys(m) then Keys(m) else Keys(m) + [k]
    ensures k !in Keys(m) ==> r == m + [(k, v)]
    ensures Get(r, k) == Some(v)
    ensures forall k' :: k' != k ==> Get(r, k') == Get(m, k')
  {
    if m == [] then [(k, v)]
    else if m[0].0 == k then
      assert Keys(m)[0] == k;
      var r := [(k, v)] + m[1..];
      assert Keys(r) == Keys(m);
      r
    else
      assert Keys(m) == [m[0].0] + Keys(m[1..]);
      var r := [m[0]] + Set(m[1..], k, v);
      assert r[1..] == Set(m[1..], k, v);
      assert Keys(r) == [m[0].0] + Keys(Set(m[1..], k, v));
      r
  }

  /** The map that `set` leaves behind when called once per pair, in order. */
  function FromPairs<V>(pairs: seq<(string, V)>): Entries<V>
  {
    if pairs == [] then []
    else
      var last := pairs[|pairs| - 1];
      Set(FromPairs(pairs[..|pairs| - 1]), last.0, last.1)
  }

  /** Building from one more pair is one more `set`. */
  lemma FromPairsSnoc<V>(pairs: seq<(string, V)>, i: nat)
    requires i < |pairs|
    ensures FromPairs(pairs[..i + 1]) == Set(FromPairs(pairs[..i]), pairs[i].0, pairs[i].1)
  {
    assert pairs[..i + 1][..i] == pairs[..i];
  }

  /** The keys of `ks` in the order of their first occurrence. */
  function Dedup(ks: seq<string>): seq<string>
  {
    if ks == [] then []
    else
      var d := Dedup(ks[..|ks| - 1]);
      if ks[|ks| - 1] in d then d else d + [ks[|ks| - 1]]
  }

  /** The value paired with `k` by the last pair that has key `k`. */
  function LastValue<V>(pairs: seq<(string, V)>, k: string): Option<V>
  {
    if pairs == [] then None
    else if pairs[|pairs| - 1].0 == k then Some(pairs[|pairs| - 1].1)
    else LastValue(pairs[..|pairs| - 1], k)
  }

  /** A repeated key stays where it was first set. */
  lemma {:induction false} FromPairsKeys<V>(pairs: seq<(string, V)>)
    ensures Keys(FromPairs(pairs)) == Dedup(Keys(pairs))
  {
    if pairs != [] {
      var n := |pairs| - 1;
      FromPairsKeys(pairs[..n]);
      assert Keys(pairs[..n]) == Keys(pairs)[..n];
    }
  }

  /** A repeated key takes the value that was set last. */
  lemma {:induction false} FromPairsGet<V>(pairs: seq<(string, V)>, k: string)
    ensures Get(FromPairs(pairs), k) == LastValue(pairs, k)
  {
    if pairs != [] {
      FromPairsGet(pairs[..|pairs| - 1], k);
    }
  }

  /** With no key repeated, the map holds exactly the pairs, in the same order. */
  lemma {:induction false} FromPairsDistinct<V>(pairs: seq<(string, V)>)
    requires Distinct(Keys(pairs))
    ensures FromPairs(pairs) == pairs
  {
    if pairs != [] {
      var n := |pairs| - 1;
      assert Keys(pairs[..n]) == Keys(pairs)[..n];
      FromPairsDistinct(pairs[..n]);
      assert pairs[n].0 !in Keys(pairs[..n]) by {
        forall i | 0 <= i < n ensures Keys(pairs[..n])[i] != pairs[n].0 {
          assert Keys(pairs)[i] != Keys(pairs)[n];
        }
      }
      assert pairs == pairs[..n] + [pairs[n]];
    }
  }

  /** The keys of a built map are never repeated. */
  lemma FromPairsKeysDistinct<V>(pairs: seq<(string, V)>)
    ensures Distinct(Keys(FromPairs(pairs)))
  {
    FromPairsKeys(pairs);
    DedupDistinct(Keys(pairs));
  }

  /** Removing repetitions keeps every key. */
  lemma {:induction false} DedupMembers(ks: seq<string>)
    ensures forall k :: k in Dedup(ks) <==> k in ks
  {
    if ks != [] {
      DedupMembers(ks[..|ks| - 1]);
      assert ks == ks[..|ks| - 1] + [ks[|ks| - 1]];
    }
  }

  lemma {:induction false} DedupDistinct(ks: seq<string>)
    ensures Distinct(Dedup(ks))
  {
    if ks != [] {
      DedupDistinct(ks[..|ks| - 1]);
    }
  }

  /** Looking up the key of entry `i` of a map without repeated keys finds entry `i`. */
  lemma {:induction false} GetDistinct<V>(m: Entries<V>, i: nat)
    requires Distinct(Keys(m)) && i < |m|
    ensures Get(m, m[i].0) == Some(m[i].1)
  {
    if i > 0 {
      assert Keys(m)[0] != Keys(m)[i];
      assert Keys(m[1..]) == Keys(m)[1..];
      GetDistinct(m[1..], i - 1);
    }
  }
}
