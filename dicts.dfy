/** A plain JavaScript object used as a dictionary with string keys: a value per key,
    and the keys in insertion order (which is what `Object.keys` and `Object.entries`
    report for keys that are not array indices, as every date and period key here is). */
module Dicts {
  import opened Common

  datatype Dict<V> = Dict(keys: seq<string>, vals: map<string, V>)

  predicate Distinct(s: seq<string>)
  {
    forall i, j :: 0 <= i < j < |s| ==> s[i] != s[j]
  }

  /** The object's own keys are listed once each, and exactly the keys that have a value. */
  ghost predicate Valid<V>(d: Dict<V>)
  {
    Distinct(d.keys) && (forall k :: k in d.vals <==> k in d.keys)
  }

  function Empty<V>(): (d: Dict<V>)
    ensures Valid(d) && d.keys == []
  {
    Dict([], map[])
  }

  /** `d[k] = v`: an existing key keeps its place, a new key goes to the end. */
  function Put<V>(d: Dict<V>, k: string, v: V): (r: Dict<V>)
    ensures r.vals == d.vals[k := v]
    ensures r.keys == if k in d.vals then d.keys else d.keys + [k]
  {
    if k in d.vals then Dict(d.keys, d.vals[k := v]) else Dict(d.keys + [k], d.vals[k := v])
  }

  /** Assigning a property keeps the object's key list exact and free of repeats. */
  lemma {:induction false} PutValid<V>(d: Dict<V>, k: string, v: V)
    requires Valid(d)
    ensures Valid(Put(d, k, v))
  {
    if k !in d.vals {
      assert forall i :: 0 <= i < |d.keys| ==> d.keys[i] != k;
    }
  }

  /** `d[k] || 0` for a dictionary of numbers: a missing key reads as 0. */
  function Lookup(d: Dict<int>, k: string): int
  {
    if k in d.vals then d.vals[k] else 0
  }

  /** Sum of the values, key by key in key order. */
  function SumOver(keys: seq<string>, vals: map<string, int>): int
  {
    if keys == [] then 0
    else SumOver(keys[..|keys| - 1], vals) + (if keys[|keys| - 1] in vals then vals[keys[|keys| - 1]] else 0)
  }

  function SumValues(d: Dict<int>): int
  {
    SumOver(d.keys, d.vals)
  }

  /** Changing the value of one key that occurs once changes the sum by the difference. */
  lemma {:induction false} SumOverUpdate(keys: seq<string>, vals: map<string, int>, k: string, v: int)
    requires Distinct(keys)
    requires forall x :: x in keys ==> x in vals
    ensures k in keys ==> SumOver(keys, vals[k := v]) == SumOver(keys, vals) - vals[k] + v
    ensures k !in keys ==> SumOver(keys, vals[k := v]) == SumOver(keys, vals)
  {
    if keys != [] {
      var n := |keys|;
      var init := keys[..n - 1];
      assert Distinct(init);
      assert k in init ==> keys[n - 1] != k by {
        if k in init {
          var i :| 0 <= i < n - 1 && init[i] == k;
          assert keys[i] == k;
        }
      }
      assert k in keys && keys[n - 1] != k ==> k in init by {
        if k in keys && keys[n - 1] != k {
          var i :| 0 <= i < n && keys[i] == k;
          assert init[i] == k;
        }
      }
      SumOverUpdate(init, vals, k, v);
    }
  }

  /** `d[k] = (d[k] || 0) + x`. */
  function Add(d: Dict<int>, k: string, x: int): Dict<int>
  {
    Put(d, k, Lookup(d, k) + x)
  }

  /** Adding `x` to the value of key `k` (a missing key counting as 0) adds `x` to the sum. */
  lemma {:induction false} SumAfterAdd(d: Dict<int>, k: string, x: int)
    requires Valid(d)
    ensures SumValues(Add(d, k, x)) == SumValues(d) + x
  {
    var v := Lookup(d, k) + x;
    var r := Put(d, k, v);
    SumOverUpdate(d.keys, d.vals, k, v);
    if k !in d.vals {
      assert SumOver(d.keys, r.vals) == SumValues(d);
      assert r.keys[..|r.keys| - 1] == d.keys;
    } else {
      assert SumOver(d.keys, r.vals) == SumValues(d) - Lookup(d, k) + v;
    }
  }

  /** The distinct elements of `ks` in the order each is first met: the key order of an
      object whose keys are assigned in that order, and the contents of a `Set` (or a list
      guarded by one) that they are added to. */
  function KeysSeen(ks: seq<string>): seq<string>
  {
    if ks == [] then []
    else
      var prev := KeysSeen(ks[..|ks| - 1]);
      if ks[|ks| - 1] in prev then prev else prev + [ks[|ks| - 1]]
  }

  lemma {:induction false} KeysSeenMembers(ks: seq<string>)
    ensures forall k :: k in KeysSeen(ks) <==> k in ks
    ensures Distinct(KeysSeen(ks))
    ensures |KeysSeen(ks)| <= |ks|
  {
    if ks != [] {
      var n := |ks|;
      KeysSeenMembers(ks[..n - 1]);
      assert ks == ks[..n - 1] + [ks[n - 1]];
      var prev := KeysSeen(ks[..n - 1]);
      if ks[n - 1] !in prev {
        assert forall i :: 0 <= i < |prev| ==> prev[i] != ks[n - 1];
      }
    }
  }

  /** Index of the first occurrence of `k`. */
  function FirstIndex(ks: seq<string>, k: string): (i: nat)
    requires k in ks
    ensures i < |ks| && ks[i] == k
    ensures forall j :: 0 <= j < i ==> ks[j] != k
  {
    if ks[0] == k then 0 else 1 + FirstIndex(ks[1..], k)
  }

  /** Appending does not move a key's first occurrence. */
  lemma {:induction false} FirstIndexAppend(ks: seq<string>, x: string, k: string)
    requires k in ks
    ensures FirstIndex(ks + [x], k) == FirstIndex(ks, k)
  {
    var a, b := FirstIndex(ks + [x], k), FirstIndex(ks, k);
    assert (ks + [x])[b] == k;
    assert a <= b;
    assert ks[a] == (ks + [x])[a];
  }

  /** Every key of `r` occurs in `ks`, and keys listed earlier occur first earlier. */
  predicate InFirstSeenOrder(r: seq<string>, ks: seq<string>)
  {
    forall a, b :: 0 <= a < b < |r| ==> r[a] in ks && r[b] in ks && FirstIndex(ks, r[a]) < FirstIndex(ks, r[b])
  }

  lemma {:induction false} KeysSeenOrder(ks: seq<string>)
    ensures InFirstSeenOrder(KeysSeen(ks), ks)
  {
    if ks != [] {
      var n := |ks|;
      var init, last := ks[..n - 1], ks[n - 1];
      var prev := KeysSeen(init);
      KeysSeenOrder(init);
      KeysSeenMembers(init);
      assert ks == init + [last];
      forall k | k in prev ensures k in ks && FirstIndex(ks, k) == FirstIndex(init, k) {
        FirstIndexAppend(init, last, k);
      }
      if last !in prev {
        assert FirstIndex(ks, last) == n - 1 by {
          assert forall j :: 0 <= j < n - 1 ==> ks[j] == init[j];
        }
      }
      var r := KeysSeen(ks);
      assert r == if last in prev then prev else prev + [last];
      assert InFirstSeenOrder(prev, init);
      forall a, b | 0 <= a < b < |r|
        ensures r[a] in ks && r[b] in ks && FirstIndex(ks, r[a]) < FirstIndex(ks, r[b])
      {
        assert r[a] == prev[a] && prev[a] in prev;
        if b < |prev| {
          assert r[b] == prev[b] && prev[b] in prev;
        } else {
          assert r[b] == last;
        }
      }
      assert InFirstSeenOrder(r, ks);
    }
  }
}
