/**
  Kotlin's `LinkedHashMap`, the map every `associate`, `associateBy` and
  `associateByTo` of the codec builds, as an association list: a sequence of
  entries whose key is given by a key function. `Put` keeps the position of
  the first insertion of a key and the value of the last one.
 */
module LinkedMaps {
  import opened Wrappers

  /** The keys of the entries, in map order. */
  function Keys<E, K>(m: seq<E>, key: E -> K): (ks: seq<K>)
    ensures |ks| == |m|
    ensures forall i :: 0 <= i < |m| ==> ks[i] == key(m[i])
  {
    seq(|m|, i requires 0 <= i < |m| => key(m[i]))
  }

  /** The values of a map of pairs, in map order. */
  function Values<K, V>(m: seq<(K, V)>): (vs: seq<V>)
    ensures |vs| == |m|
    ensures forall i :: 0 <= i < |m| ==> vs[i] == m[i].1
  {
    seq(|m|, i requires 0 <= i < |m| => m[i].1)
  }

  predicate Distinct<K(==,!new)>(ks: seq<K>) {
    forall i, j :: 0 <= i < j < |ks| ==> ks[i] != ks[j]
  }

  /** The position of the entry with key `k`, or -1. */
  function IndexOf<E, K(==,!new)>(m: seq<E>, key: E -> K, k: K): (i: int)
    ensures -1 <= i < |m|
    ensures 0 <= i ==> key(m[i]) == k
    ensures 0 <= i ==> forall j :: 0 <= j < i ==> key(m[j]) != k
    ensures i < 0 <==> k !in Keys(m, key)
    decreases |m|
  {
    if m == [] then -1
    else if key(m[0]) == k then 0
    else
      var i := IndexOf(m[1..], key, k);
      assert Keys(m, key) == [key(m[0])] + Keys(m[1..], key);
      if i < 0 then -1 else i + 1
  }

  /** `map[k]`: the entry stored under `k`, if any. */
  function Get<E, K(==,!new)>(m: seq<E>, key: E -> K, k: K): (r: Option<E>)
    ensures r.Some? <==> k in Keys(m, key)
    ensures r.Some? ==> r.value in m && key(r.value) == k
  {
    var i := IndexOf(m, key, k);
    if i < 0 then None else Some(m[i])
  }

  /** `map[key(e)] = e`: an existing key keeps its position and takes the new value; a new key goes last. */
  function Put<E, K(==,!new)>(m: seq<E>, key: E -> K, e: E): (r: seq<E>)
    ensures Keys(r, key) == if key(e) in Keys(m, key) then Keys(m, key) else Keys(m, key) + [key(e)]
    ensures Get(r, key, key(e)) == Some(e)
    ensures forall k :: k != key(e) ==> Get(r, key, k) == Get(m, key, k)
    ensures forall x :: x in r ==> x in m || x == e
  {
    var i := IndexOf(m, key, key(e));
    if i < 0 then
      assert Keys(m + [e], key) == Keys(m, key) + [key(e)];
      PutNewGet(m, key, e);
      m + [e]
    else
      assert Keys(m[i := e], key) == Keys(m, key);
      PutExistingGet(m, key, e, i);
      m[i := e]
  }

  /** `k` is not a key of `m` exactly when no entry of `m` carries it. */
  lemma NotInKeys<E, K(!new)>(m: seq<E>, key: E -> K, k: K)
    ensures k !in Keys(m, key) <==> forall j :: 0 <= j < |m| ==> key(m[j]) != k
  {
    if k in Keys(m, key) {
      var j :| 0 <= j < |m| && Keys(m, key)[j] == k;
      assert key(m[j]) == k;
    }
  }

  /** The first entry carrying `k` is the one `IndexOf` finds. */
  lemma IndexOfIs<E, K(!new)>(m: seq<E>, key: E -> K, k: K, i: int)
    requires 0 <= i < |m| && key(m[i]) == k
    requires forall j :: 0 <= j < i ==> key(m[j]) != k
    ensures IndexOf(m, key, k) == i
  {
    assert Keys(m, key)[i] == k;
  }

  lemma PutNewGet<E, K(!new)>(m: seq<E>, key: E -> K, e: E)
    requires key(e) !in Keys(m, key)
    ensures Get(m + [e], key, key(e)) == Some(e)
    ensures forall k :: k != key(e) ==> Get(m + [e], key, k) == Get(m, key, k)
  {
    var r := m + [e];
    NotInKeys(m, key, key(e));
    IndexOfIs(r, key, key(e), |m|);
    forall k | k != key(e)
      ensures Get(r, key, k) == Get(m, key, k)
    {
      var j := IndexOf(m, key, k);
      if 0 <= j {
        IndexOfIs(r, key, k, j);
      } else {
        NotInKeys(m, key, k);
        NotInKeys(r, key, k);
      }
    }
  }

  lemma PutExistingGet<E, K(!new)>(m: seq<E>, key: E -> K, e: E, i: int)
    requires i == IndexOf(m, key, key(e)) && 0 <= i
    ensures Get(m[i := e], key, key(e)) == Some(e)
    ensures forall k :: k != key(e) ==> Get(m[i := e], key, k) == Get(m, key, k)
  {
    var r := m[i := e];
    IndexOfIs(r, key, key(e), i);
    forall k | k != key(e)
      ensures Get(r, key, k) == Get(m, key, k)
    {
      var j := IndexOf(m, key, k);
      if 0 <= j {
        IndexOfIs(r, key, k, j);
      } else {
        NotInKeys(m, key, k);
        NotInKeys(r, key, k);
      }
    }
  }

  /** `associateByTo(map)`: put every element of `es` in turn. */
  function PutAll<E, K(==,!new)>(m: seq<E>, key: E -> K, es: seq<E>): seq<E>
    decreases |es|
  {
    if es == [] then m else PutAll(Put(m, key, es[0]), key, es[1..])
  }

  /** Putting `a + b` is putting `a`, then `b`. */
  lemma {:induction false} PutAllAppend<E, K(!new)>(m: seq<E>, key: E -> K, a: seq<E>, b: seq<E>)
    ensures PutAll(m, key, a + b) == PutAll(PutAll(m, key, a), key, b)
    decreases |a|
  {
    if a == [] {
      assert a + b == b;
    } else {
      var m' := Put(m, key, a[0]);
      assert (a + b)[0] == a[0] && (a + b)[1..] == a[1..] + b;
      assert PutAll(m, key, a + b) == PutAll(m', key, a[1..] + b);
      PutAllAppend(m', key, a[1..], b);
    }
  }

  /** Every entry of a `PutAll` result comes from the map or from the elements put. */
  lemma {:induction false} PutAllFrom<E, K(!new)>(m: seq<E>, key: E -> K, es: seq<E>)
    ensures forall x :: x in PutAll(m, key, es) ==> x in m || x in es
    decreases |es|
  {
    if es != [] {
      PutAllFrom(Put(m, key, es[0]), key, es[1..]);
    }
  }

  /** `associateBy`: a fresh map holding every element of `es`. */
  function AssociateBy<E, K(==,!new)>(es: seq<E>, key: E -> K): seq<E> {
    PutAll([], key, es)
  }

  /** `map.remove(k)`: drop the entry with key `k`, if any. */
  function Remove<E, K(==,!new)>(m: seq<E>, key: E -> K, k: K): (r: seq<E>)
    ensures Distinct(Keys(m, key)) ==> k !in Keys(r, key) && Distinct(Keys(r, key))
    ensures forall k' :: k' != k ==> Get(r, key, k') == Get(m, key, k')
    ensures forall k' :: k' in Keys(r, key) ==> k' in Keys(m, key)
    ensures forall x :: x in r ==> x in m
  {
    var i := IndexOf(m, key, k);
    if i < 0 then m
    else
      RemoveGet(m, key, k, i);
      m[..i] + m[i + 1..]
  }

  lemma RemoveKeys<E, K(!new)>(m: seq<E>, key: E -> K, i: int)
    requires 0 <= i < |m|
    ensures Keys(m[..i] + m[i + 1..], key) == Keys(m, key)[..i] + Keys(m, key)[i + 1..]
  {
  }

  /** Dropping position `i` of a list without repeats leaves no repeats and no `ks[i]`. */
  lemma DistinctRemoveAt<K(!new)>(ks: seq<K>, i: int)
    requires 0 <= i < |ks| && Distinct(ks)
    ensures Distinct(ks[..i] + ks[i + 1..]) && ks[i] !in ks[..i] + ks[i + 1..]
  {
    var r := ks[..i] + ks[i + 1..];
    assert forall q :: 0 <= q < |r| ==> r[q] == ks[if q < i then q else q + 1];
  }

  lemma RemoveGet<E, K(!new)>(m: seq<E>, key: E -> K, k: K, i: int)
    requires i == IndexOf(m, key, k) && 0 <= i
    ensures Distinct(Keys(m, key)) ==> k !in Keys(m[..i] + m[i + 1..], key) && Distinct(Keys(m[..i] + m[i + 1..], key))
    ensures forall k' :: k' != k ==> Get(m[..i] + m[i + 1..], key, k') == Get(m, key, k')
    ensures Keys(m[..i] + m[i + 1..], key) == Keys(m, key)[..i] + Keys(m, key)[i + 1..]
  {
    RemoveKeys(m, key, i);
    if Distinct(Keys(m, key)) {
      DistinctRemoveAt(Keys(m, key), i);
    }
    forall k' | k' != k
      ensures Get(m[..i] + m[i + 1..], key, k') == Get(m, key, k')
    {
      RemoveGetOther(m, key, k, i, k');
    }
  }

  lemma RemoveGetOther<E, K(!new)>(m: seq<E>, key: E -> K, k: K, i: int, k': K)
    requires i == IndexOf(m, key, k) && 0 <= i && k' != k
    ensures Get(m[..i] + m[i + 1..], key, k') == Get(m, key, k')
  {
    var r := m[..i] + m[i + 1..];
    assert forall q :: 0 <= q < |r| ==> r[q] == m[if q < i then q else q + 1];
    var j := IndexOf(m, key, k');
    if 0 <= j {
      assert j != i;
      var p := if j < i then j else j - 1;
      assert r[p] == m[j];
      assert forall q :: 0 <= q < p ==> key(r[q]) != k' by {
        forall q | 0 <= q < p
          ensures key(r[q]) != k'
        {
          assert r[q] == m[if q < i then q else q + 1];
        }
      }
      IndexOfIs(r, key, k', p);
    } else {
      NotInKeys(m, key, k');
      assert forall q :: 0 <= q < |r| ==> key(r[q]) != k' by {
        forall q | 0 <= q < |r|
          ensures key(r[q]) != k'
        {
          assert r[q] == m[if q < i then q else q + 1];
        }
      }
      NotInKeys(r, key, k');
    }
  }

  /** The keys of `ks` appended to `acc` in order of first occurrence, each once. */
  function DedupOnto<K(==,!new)>(acc: seq<K>, ks: seq<K>): (r: seq<K>)
    ensures Distinct(acc) ==> Distinct(r)
    ensures forall x :: x in r <==> x in acc || x in ks
    ensures |acc| <= |r| && r[..|acc|] == acc
    decreases |ks|
  {
    if ks == [] then acc
    else DedupOnto(if ks[0] in acc then acc else acc + [ks[0]], ks[1..])
  }

  /** The position of the first occurrence of `x` in `s`, or -1. */
  function FirstIndex<K(==)>(s: seq<K>, x: K): (i: int)
    ensures -1 <= i < |s|
    ensures i < 0 <==> x !in s
    ensures 0 <= i ==> s[i] == x && x !in s[..i]
    decreases |s|
  {
    if s == [] then -1
    else if s[0] == x then 0
    else
      var i := FirstIndex(s[1..], x);
      if i < 0 then -1
      else
        assert s[..i + 1] == [s[0]] + s[1..][..i];
        i + 1
  }

  /** A sequence without repeats is kept as it is, after an accumulator it shares nothing with. */
  lemma {:induction false} DedupOntoDistinct<K(!new)>(acc: seq<K>, ks: seq<K>)
    requires Distinct(acc + ks)
    ensures DedupOnto(acc, ks) == acc + ks
    decreases |ks|
  {
    if ks != [] {
      assert ks[0] == (acc + ks)[|acc|];
      assert ks[0] !in acc by {
        forall i | 0 <= i < |acc| ensures acc[i] != ks[0] {
          assert acc[i] == (acc + ks)[i];
        }
      }
      assert (acc + [ks[0]]) + ks[1..] == acc + ks;
      DedupOntoDistinct(acc + [ks[0]], ks[1..]);
    }
  }

  /** The keys `DedupOnto` adds come in the order of their first occurrence in `ks`. */
  lemma {:induction false} DedupOntoOrder<K(!new)>(acc: seq<K>, ks: seq<K>)
    requires Distinct(acc)
    ensures InFirstOccurrenceOrder(ks, DedupOnto(acc, ks), |acc|)
    decreases |ks|
  {
    if ks != [] {
      var acc' := if ks[0] in acc then acc else acc + [ks[0]];
      assert Distinct(acc') by {
        if ks[0] !in acc {
          forall i, j | 0 <= i < j < |acc'| ensures acc'[i] != acc'[j] {
            if j == |acc| {
              assert acc'[i] == acc[i];
            }
          }
        }
      }
      var r := DedupOnto(acc', ks[1..]);
      DedupOntoOrder(acc', ks[1..]);
      assert forall x :: x in r ==> x in acc' || x in ks by {
        forall x | x in r && x !in acc' ensures x in ks {
          var i :| 0 <= i < |ks[1..]| && ks[1..][i] == x;
          assert ks[i + 1] == x;
        }
      }
      OrderCons(acc, acc', ks, r);
    }
  }

  /** The elements of `r` from `start` on occur in `ks`, in the order of their first occurrence there. */
  predicate InFirstOccurrenceOrder<K(==)>(ks: seq<K>, r: seq<K>, start: nat) {
    && (forall i :: start <= i < |r| ==> 0 <= FirstIndex(ks, r[i]))
    && (forall i, j :: start <= i < j < |r| ==> FirstIndex(ks, r[i]) < FirstIndex(ks, r[j]))
  }

  /** One step of `DedupOnto`: the order on the tail of `ks` gives the order on `ks`. */
  lemma OrderCons<K(!new)>(acc: seq<K>, acc': seq<K>, ks: seq<K>, r: seq<K>)
    requires ks != [] && acc' == (if ks[0] in acc then acc else acc + [ks[0]])
    requires Distinct(r) && |acc'| <= |r| && r[..|acc'|] == acc'
    requires forall x :: x in r ==> x in acc' || x in ks
    requires InFirstOccurrenceOrder(ks[1..], r, |acc'|)
    ensures InFirstOccurrenceOrder(ks, r, |acc|)
  {
    forall i | |acc| <= i < |r|
      ensures 0 <= FirstIndex(ks, r[i])
    {
      if i < |acc'| {
        assert r[i] == acc'[i];
      } else {
        Later(acc, acc', ks, r, i);
      }
    }
    forall i, j | |acc| <= i < j < |r|
      ensures FirstIndex(ks, r[i]) < FirstIndex(ks, r[j])
    {
      Later(acc, acc', ks, r, j);
      if i < |acc'| {
        assert r[i] == acc'[i];
      } else {
        Later(acc, acc', ks, r, i);
      }
    }
  }

  /** A key `DedupOnto` adds after the head's turn comes from the tail of `ks`, one place further on in `ks`. */
  lemma Later<K(!new)>(acc: seq<K>, acc': seq<K>, ks: seq<K>, r: seq<K>, j: int)
    requires ks != [] && ks[0] in acc' && acc <= acc'
    requires Distinct(r) && |acc'| <= j < |r| && r[..|acc'|] == acc'
    requires forall x :: x in r ==> x in acc' || x in ks
    ensures r[j] in ks && r[j] != ks[0] && r[j] !in acc
    ensures FirstIndex(ks, r[j]) == FirstIndex(ks[1..], r[j]) + 1 >= 1
  {
    NewAfter(acc', r, j, acc);
    FirstIndexOfTail(ks, r[j]);
  }

  /** An element of `r` past `acc` is, as `r` has no repeats, in neither `acc` nor a prefix of it. */
  lemma NewAfter<K(!new)>(acc: seq<K>, r: seq<K>, j: int, prefix: seq<K>)
    requires Distinct(r) && |acc| <= j < |r| && r[..|acc|] == acc && prefix <= acc
    ensures r[j] !in acc && r[j] !in prefix
  {
    forall i | 0 <= i < |acc| ensures acc[i] != r[j] {
      assert acc[i] == r[i];
    }
  }

  /** Past the head, the first occurrence moves by one. */
  lemma FirstIndexOfTail<K>(ks: seq<K>, x: K)
    requires ks != [] && x != ks[0] && x in ks
    ensures FirstIndex(ks, x) == FirstIndex(ks[1..], x) + 1 >= 1
  {
    assert x in ks[1..] by {
      var i :| 0 <= i < |ks| && ks[i] == x;
      assert ks[1..][i - 1] == x;
    }
  }

  /**
    Kotlin's `keys + otherKeys` on a `LinkedHashSet`: the keys of `a`, each
    once, then the keys of `b` not already there, in the order of their first
    occurrence in `b`.
   */
  function Union<K(==,!new)>(a: seq<K>, b: seq<K>): (r: seq<K>)
    ensures Distinct(r)
    ensures forall x :: x in r <==> x in a || x in b
    ensures Distinct(a) ==> |a| <= |r| && r[..|a|] == a
    ensures Distinct(a) ==> forall i :: |a| <= i < |r| ==> 0 <= FirstIndex(b, r[i])
    ensures Distinct(a) ==> forall i, j :: |a| <= i < j < |r| ==> FirstIndex(b, r[i]) < FirstIndex(b, r[j])
  {
    var first := DedupOnto([], a);
    if Distinct(a) then
      assert [] + a == a;
      DedupOntoDistinct([], a);
      DedupOntoOrder(a, b);
      DedupOnto(first, b)
    else
      DedupOnto(first, b)
  }

  /** The position of the last element of `es` with key `k`, or -1. */
  function LastIndexOf<E, K(==,!new)>(es: seq<E>, key: E -> K, k: K): (i: int)
    ensures -1 <= i < |es|
    ensures 0 <= i ==> key(es[i]) == k
    ensures forall j :: i < j < |es| ==> key(es[j]) != k
    decreases |es|
  {
    if es == [] then -1
    else
      var i := LastIndexOf(es[1..], key, k);
      assert forall j :: 0 <= j < |es| - 1 ==> es[1..][j] == es[j + 1];
      if 0 <= i then i + 1
      else if key(es[0]) == k then 0
      else -1
  }

  /** `associateBy` keeps, for each key, the LAST element carrying it. */
  lemma {:induction false} PutAllGet<E, K(!new)>(m: seq<E>, key: E -> K, es: seq<E>, k: K)
    ensures var i := LastIndexOf(es, key, k);
            Get(PutAll(m, key, es), key, k) == if 0 <= i then Some(es[i]) else Get(m, key, k)
    decreases |es|
  {
    if es != [] {
      var rest := es[1..];
      var m' := Put(m, key, es[0]);
      PutAllGet(m', key, rest, k);
      var i' := LastIndexOf(rest, key, k);
      if 0 <= i' {
        assert rest[i'] == es[i' + 1];
      } else if key(es[0]) == k {
        assert Get(m', key, k) == Some(es[0]);
      } else {
        assert Get(m', key, k) == Get(m, key, k);
      }
    }
  }

  /** `associateBy` keeps, for each key, the position of its FIRST occurrence. */
  lemma {:induction false} PutAllKeys<E, K(!new)>(m: seq<E>, key: E -> K, es: seq<E>)
    ensures Keys(PutAll(m, key, es), key) == DedupOnto(Keys(m, key), Keys(es, key))
    decreases |es|
  {
    if es != [] {
      assert Keys(es, key)[1..] == Keys(es[1..], key);
      PutAllKeys(Put(m, key, es[0]), key, es[1..]);
    }
  }

  /** The keys of a map built by `associateBy` are the element keys in order of first occurrence, without repeats. */
  lemma AssociateByKeys<E, K(!new)>(es: seq<E>, key: E -> K)
    ensures Keys(AssociateBy(es, key), key) == DedupOnto([], Keys(es, key))
    ensures Distinct(Keys(AssociateBy(es, key), key))
  {
    assert Keys([], key) == [];
    PutAllKeys([], key, es);
  }

  /** The entry a map built by `associateBy` stores under `k` is the last element with key `k`. */
  lemma AssociateByGet<E, K(!new)>(es: seq<E>, key: E -> K, k: K)
    ensures var i := LastIndexOf(es, key, k);
            Get(AssociateBy(es, key), key, k) == if 0 <= i then Some(es[i]) else None
  {
    PutAllGet([], key, es, k);
  }
}
