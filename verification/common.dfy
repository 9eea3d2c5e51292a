/** Small vocabulary shared by the models: optional values, suffixes of a sequence and sums. */
module Common {

  datatype Option<+T> = None | Some(value: T)

  function Min(a: int, b: int): int { if a < b then a else b }

  function Max(a: int, b: int): int { if a < b then b else a }

  function Pow2(n: nat): nat { if n == 0 then 1 else 2 * Pow2(n - 1) }

  /** The last `n` elements of `s`, or all of it when it is shorter. */
  function LastN<T>(s: seq<T>, n: nat): seq<T> {
    if |s| <= n then s else s[|s| - n..]
  }

  ghost predicate Distinct<T>(s: seq<T>) {
    forall i, j :: 0 <= i < j < |s| ==> s[i] != s[j]
  }

  lemma {:induction false} LastNAppend<T>(s: seq<T>, x: T, n: nat)
    requires n > 0
    ensures LastN(LastN(s, n) + [x], n) == LastN(s + [x], n)
  {
    assert s + [x] == s[..|s|] + [x];
  }

  /** A multiset of keys summed once each. The choice of the removed key does not matter (SumPick). */
  ghost function SumSet<K(!new)>(keys: set<K>, f: K -> int): int
  {
    if keys == {} then 0 else
      var k :| k in keys;
      f(k) + SumSet(keys - {k}, f)
  }

  lemma {:induction false} SumPick<K(!new)>(keys: set<K>, k: K, f: K -> int)
    requires k in keys
    ensures SumSet(keys, f) == f(k) + SumSet(keys - {k}, f)
    decreases keys
  {
    var p :| p in keys && SumSet(keys, f) == f(p) + SumSet(keys - {p}, f);
    if p != k {
      SumPick(keys - {p}, k, f);
      SumPick(keys - {k}, p, f);
      assert keys - {p} - {k} == keys - {k} - {p};
    }
  }

  /** Two functions that agree on the keys have the same sum. */
  lemma {:induction false} SumAgree<K(!new)>(keys: set<K>, f: K -> int, g: K -> int)
    requires forall k :: k in keys ==> f(k) == g(k)
    ensures SumSet(keys, f) == SumSet(keys, g)
    decreases keys
  {
    if keys != {} {
      var k :| k in keys;
      SumPick(keys, k, f);
      SumPick(keys, k, g);
      SumAgree(keys - {k}, f, g);
    }
  }

  /** Raising one key by `d`, the key being new or not, raises the sum by `d`. */
  lemma {:induction false} SumBump<K(!new)>(keys: set<K>, k: K, d: int, f: K -> int, g: K -> int)
    requires forall j :: j in keys && j != k ==> g(j) == f(j)
    requires g(k) == (if k in keys then f(k) else 0) + d
    ensures SumSet(keys + {k}, g) == SumSet(keys, f) + d
  {
    SumPick(keys + {k}, k, g);
    assert keys + {k} - {k} == keys - {k};
    SumAgree(keys - {k}, f, g);
    if k in keys {
      SumPick(keys, k, f);
    } else {
      assert keys - {k} == keys;
    }
  }
}
