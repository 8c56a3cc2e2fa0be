/** Lists of objects indexed by key, as the state cache keeps them. A list comes with the keys of its objects, in order. */
module Indexes {
  predicate Distinct(keys: seq<string>) {
    forall i, j | 0 <= i < j < |keys| :: keys[i] != keys[j]
  }

  /** The map is the list by key: the same objects, each once. */
  predicate Indexed<T(==)>(keys: seq<string>, s: seq<T>, m: map<string, T>) {
    && |keys| == |s| && Distinct(keys)
    && (forall i | 0 <= i < |keys| :: keys[i] in m && m[keys[i]] == s[i])
    && (forall k | k in m :: k in keys)
  }

  /** A lookup in the index answers exactly what a scan of the list does. */
  lemma LookupIsScan<T>(keys: seq<string>, s: seq<T>, m: map<string, T>, key: string)
    requires Indexed(keys, s, m)
    ensures key in m <==> key in keys
    ensures forall i | 0 <= i < |s| && keys[i] == key :: key in m && s[i] == m[key]
    ensures |m| == |s|
  {
    if i :| 0 <= i < |keys| && keys[i] == key {
      assert keys[i] in m;
    }
    SizesAgree(keys, s, m);
  }

  lemma {:induction false} SizesAgree<T>(keys: seq<string>, s: seq<T>, m: map<string, T>)
    requires Indexed(keys, s, m)
    ensures |m| == |s|
  {
    if s == [] {
      assert m.Keys == {};
    } else {
      var i := |s| - 1;
      RemoveKeeps(keys, s, m, i);
      assert s[..i] + s[i + 1..] == s[..i] && keys[..i] + keys[i + 1..] == keys[..i];
      var m' := m - {keys[i]};
      SizesAgree(keys[..i], s[..i], m');
      assert m.Keys == m'.Keys + {keys[i]};
      assert |m.Keys| == |m'.Keys| + 1;
    }
  }

  /** A new key goes to the end of the list. */
  lemma AppendKeeps<T>(keys: seq<string>, s: seq<T>, m: map<string, T>, key: string, x: T)
    requires Indexed(keys, s, m) && key !in m
    ensures Indexed(keys + [key], s + [x], m[key := x])
  {
  }

  /** Removing one place of the list and its key. */
  lemma RemoveKeeps<T>(keys: seq<string>, s: seq<T>, m: map<string, T>, i: nat)
    requires Indexed(keys, s, m) && i < |s|
    ensures Indexed(keys[..i] + keys[i + 1..], s[..i] + s[i + 1..], m - {keys[i]})
  {
    var keys', m' := keys[..i] + keys[i + 1..], m - {keys[i]};
    assert forall k | 0 <= k < |keys'| :: keys'[k] == keys[if k < i then k else k + 1];
    forall k | k in m' ensures k in keys' {
      var j :| 0 <= j < |keys| && keys[j] == k;
      assert keys'[if j < i then j else j - 1] == k;
    }
  }

  /** The index of a list, built from the front: a later object takes the place of an earlier one with its key. */
  function IndexOf<T(==)>(keys: seq<string>, s: seq<T>): map<string, T>
    requires |keys| == |s|
  {
    if s == [] then map[]
    else
      var n := |s| - 1;
      IndexOf(keys[..n], s[..n])[keys[n] := s[n]]
  }

  /** A key is indexed to the last object that has it. */
  lemma {:induction false} LastOneIsIndexed<T>(keys: seq<string>, s: seq<T>, i: nat)
    requires i < |keys| == |s| && forall j | i < j < |keys| :: keys[j] != keys[i]
    ensures keys[i] in IndexOf(keys, s) && IndexOf(keys, s)[keys[i]] == s[i]
  {
    var n := |s| - 1;
    if i < n {
      LastOneIsIndexed(keys[..n], s[..n], i);
    }
  }

  lemma {:induction false} IndexHasKeys<T>(keys: seq<string>, s: seq<T>)
    requires |keys| == |s|
    ensures forall k :: k in IndexOf(keys, s) <==> k in keys
  {
    if s != [] {
      var n := |s| - 1;
      IndexHasKeys(keys[..n], s[..n]);
      assert keys == keys[..n] + [keys[n]];
    }
  }

  /** The index agrees with its list exactly when the keys are distinct. */
  lemma {:induction false} IndexAgreesIffDistinct<T>(keys: seq<string>, s: seq<T>)
    requires |keys| == |s|
    ensures Indexed(keys, s, IndexOf(keys, s)) <==> Distinct(keys)
  {
    if Distinct(keys) && s != [] {
      var n := |s| - 1;
      IndexAgreesIffDistinct(keys[..n], s[..n]);
      IndexHasKeys(keys[..n], s[..n]);
      AppendKeeps(keys[..n], s[..n], IndexOf(keys[..n], s[..n]), keys[n], s[n]);
      assert keys[..n] + [keys[n]] == keys && s[..n] + [s[n]] == s;
    }
  }
}
