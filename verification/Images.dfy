/**
 Objects in a nested map, and the values they hold. `held` gives the value of each object, so an image of a map is the
 same map with values for objects.
 */
module Images {
  import opened Indexes

  type Nested<T> = map<string, map<string, T>>

  ghost predicate Covered<T, V>(m: Nested<T>, held: map<T, V>) {
    forall g, k | g in m && k in m[g] :: m[g][k] in held
  }

  /** No object is found in two places. */
  ghost predicate Unshared<T>(m: Nested<T>) {
    forall g, k, g', k' | g in m && k in m[g] && g' in m && k' in m[g'] && m[g][k] == m[g'][k'] :: g == g' && k == k'
  }

  ghost function Inner<T, V>(m: map<string, T>, held: map<T, V>): map<string, V>
    requires forall k | k in m :: m[k] in held
  {
    map k | k in m :: held[m[k]]
  }

  ghost function Image<T, V>(m: Nested<T>, held: map<T, V>): Nested<V>
    requires Covered(m, held)
  {
    map g | g in m :: Inner(m[g], held)
  }

  /** Overwriting one object changes the value in its one place. */
  lemma OverwrittenImage<T, V>(m: Nested<T>, held: map<T, V>, g: string, k: string, v: V)
    requires Covered(m, held) && Unshared(m) && g in m && k in m[g]
    ensures Covered(m, held[m[g][k] := v])
    ensures Image(m, held[m[g][k] := v]) == Image(m, held)[g := Image(m, held)[g][k := v]]
  {
    var held' := held[m[g][k] := v];
    forall h | h in m ensures Inner(m[h], held') == if h == g then Inner(m[h], held)[k := v] else Inner(m[h], held) {
      assert forall i | i in m[h] :: m[h][i] == m[g][k] ==> h == g && i == k;
    }
  }

  /** The objects of a new inner map are its own: each has one key, and none is found in another guild. */
  ghost predicate Own<T>(m: Nested<T>, g: string, inner: map<string, T>) {
    && (forall k, k' | k in inner && k' in inner && inner[k] == inner[k'] :: k == k')
    && forall h, k, k' | h in m && h != g && k in m[h] && k' in inner :: m[h][k] != inner[k']
  }

  lemma ReplacedUnshared<T>(m: Nested<T>, g: string, inner: map<string, T>)
    requires Unshared(m) && Own(m, g, inner)
    ensures Unshared(m[g := inner])
  {
    var m' := m[g := inner];
    forall h, k, h', k' | h in m' && k in m'[h] && h' in m' && k' in m'[h'] && m'[h][k] == m'[h'][k']
      ensures h == h' && k == k'
    {
    }
  }

  /** One guild gets a new inner map. */
  lemma ReplacedImage<T, V>(m: Nested<T>, held: map<T, V>, g: string, inner: map<string, T>, held': map<T, V>)
    requires Covered(m, held) && Unshared(m) && Own(m, g, inner)
    requires forall x | x in held :: x in held' && held'[x] == held[x]
    requires forall k | k in inner :: inner[k] in held'
    ensures Covered(m[g := inner], held') && Unshared(m[g := inner])
    ensures Image(m[g := inner], held') == Image(m, held)[g := Inner(inner, held')]
  {
    ReplacedUnshared(m, g, inner);
    hide Unshared, Own;
    WiderImage(m, held, held');
    var m' := m[g := inner];
    assert Covered(m', held') by {
      forall h, k | h in m' && k in m'[h] ensures m'[h][k] in held' {
        if h != g {
          assert m[h][k] in held';
        }
      }
    }
    UpdatedImage(m, held', g, inner);
  }

  lemma UpdatedImage<T, V>(m: Nested<T>, held: map<T, V>, g: string, inner: map<string, T>)
    requires Covered(m, held) && Covered(m[g := inner], held) && forall k | k in inner :: inner[k] in held
    ensures Image(m[g := inner], held) == Image(m, held)[g := Inner(inner, held)]
  {
    hide Inner;
  }

  lemma NewObjectIsOwn<T, V>(m: Nested<T>, held: map<T, V>, g: string, k: string, x: T)
    requires Covered(m, held) && Unshared(m) && g in m && x !in held
    ensures Own(m, g, m[g][k := x])
  {
    assert forall h, i | h in m && i in m[h] :: m[h][i] in held;
    assert Own(m, g, m[g]);
  }

  /** A new object in one place. */
  lemma JoinedImage<T, V>(m: Nested<T>, held: map<T, V>, g: string, k: string, x: T, v: V)
    requires Covered(m, held) && Unshared(m) && g in m && x !in held
    ensures var m', held' := m[g := m[g][k := x]], held[x := v];
      Covered(m', held') && Unshared(m') && Image(m', held') == Image(m, held)[g := Image(m, held)[g][k := v]]
  {
    hide Unshared, Own;
    var inner, held' := m[g][k := x], held[x := v];
    assert Inner(inner, held') == Inner(m[g], held)[k := v] by {
      assert forall i | i in m[g] :: m[g][i] in held;
    }
    NewObjectIsOwn(m, held, g, k, x);
    ReplacedImage(m, held, g, inner, held');
  }

  /** One place is given up. */
  lemma LeftImage<T, V>(m: Nested<T>, held: map<T, V>, g: string, k: string)
    requires Covered(m, held) && Unshared(m) && g in m
    ensures var m' := m[g := m[g] - {k}];
      Covered(m', held) && Unshared(m') && Image(m', held) == Image(m, held)[g := Image(m, held)[g] - {k}]
  {
    var inner := m[g] - {k};
    assert forall i | i in inner :: i in m[g] && inner[i] == m[g][i];
    assert Own(m, g, inner);
    hide Unshared, Own;
    ReplacedImage(m, held, g, inner, held);
    assert Inner(inner, held) == Inner(m[g], held) - {k};
  }

  lemma ForgottenImage<T, V>(m: Nested<T>, held: map<T, V>, g: string)
    requires Covered(m, held) && Unshared(m)
    ensures Covered(m - {g}, held) && Unshared(m - {g}) && Image(m - {g}, held) == Image(m, held) - {g}
  {
    var m' := m - {g};
    assert forall h | h in m' :: h in m && m'[h] == m[h];
  }

  /** Objects that are not in the map do not matter to its image. */
  lemma WiderImage<T, V>(m: Nested<T>, held: map<T, V>, held': map<T, V>)
    requires Covered(m, held) && forall x | x in held :: x in held' && held'[x] == held[x]
    ensures Covered(m, held') && Image(m, held') == Image(m, held)
  {
    forall g | g in m ensures Inner(m[g], held') == Inner(m[g], held) {
    }
  }

  /** The index of a list of objects shows the index of their values. */
  lemma {:induction false} IndexImage<T, V>(keys: seq<string>, s: seq<T>, held: map<T, V>, values: seq<V>)
    requires |keys| == |s| == |values| && forall i | 0 <= i < |s| :: s[i] in held && held[s[i]] == values[i]
    ensures forall k | k in IndexOf(keys, s) :: IndexOf(keys, s)[k] in s
    ensures Inner(IndexOf(keys, s), held) == IndexOf(keys, values)
  {
    if s != [] {
      var n := |s| - 1;
      IndexImage(keys[..n], s[..n], held, values[..n]);
    }
  }

  lemma NewObjectsAreOwn<T, V>(m: Nested<T>, held: map<T, V>, g: string, keys: seq<string>, s: seq<T>, index: map<string, T>)
    requires Covered(m, held) && Indexed(keys, s, index)
    requires forall i | 0 <= i < |s| :: s[i] !in held
    requires forall i, j | 0 <= i < j < |s| :: s[i] != s[j]
    ensures Own(m, g, index)
  {
    forall k | k in index ensures index[k] !in held {
      var i :| 0 <= i < |keys| && keys[i] == k;
      assert index[keys[i]] == s[i];
    }
    forall k, k' | k in index && k' in index && index[k] == index[k'] ensures k == k' {
      var i :| 0 <= i < |keys| && keys[i] == k;
      var j :| 0 <= j < |keys| && keys[j] == k';
      assert index[keys[i]] == s[i] && index[keys[j]] == s[j];
    }
  }

  /** One guild gets an index of new objects, each with its own key. */
  lemma IndexedImage<T, V>(m: Nested<T>, held: map<T, V>, g: string, keys: seq<string>, s: seq<T>, held': map<T, V>,
                           values: seq<V>)
    requires Covered(m, held) && Unshared(m)
    requires forall x | x in held :: x in held' && held'[x] == held[x]
    requires |keys| == |s| == |values| && Distinct(keys)
    requires forall i | 0 <= i < |s| :: s[i] !in held && s[i] in held' && held'[s[i]] == values[i]
    requires forall i, j | 0 <= i < j < |s| :: s[i] != s[j]
    ensures var m' := m[g := IndexOf(keys, s)];
      Covered(m', held') && Unshared(m') && Image(m', held') == Image(m, held)[g := IndexOf(keys, values)]
  {
    IndexImage(keys, s, held', values);
    IndexAgreesIffDistinct(keys, s);
    var index := IndexOf(keys, s);
    assert Own(m, g, index) by {
      NewObjectsAreOwn(m, held, g, keys, s, index);
    }
    hide Unshared, Own, IndexOf;
    ReplacedImage(m, held, g, index, held');
  }
}
