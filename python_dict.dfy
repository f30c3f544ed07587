/** The parts of Python's `dict` that a CleverDict stands on: hashable keys
    compared with Python's `==`, and an insertion-ordered table of entries
    in which item assignment overwrites in place or appends. */
module PyDicts {

  datatype Option<T> = None | Some(value: T)

  /** The two exceptions the model raises. `KeyError` carries the key that
      was looked up, as `UserDict.__getitem__` raises it; the `AttributeError`
      raised by `CleverDict.__getattr__` carries nothing. */
  datatype PyError = KeyError(key: Key) | AttributeError

  datatype Result<T> = Ok(value: T) | Err(error: PyError)

  /** A hashable Python key: an `int`, a `bool`, a `str`, or any other
      object, which is equal only to itself. */
  datatype Key = IntK(i: int) | BoolK(b: bool) | StrK(s: string) | OtherK(id: nat)

  /** The representative of a key's class under Python's `==` on keys:
      `False == 0` and `True == 1`, so a `bool` stands for its `int`.
      Equal keys share one dictionary slot. */
  function EqClass(k: Key): (c: Key)
    ensures !c.BoolK?
    ensures !k.BoolK? ==> c == k
  {
    match k
    case BoolK(b) => IntK(if b then 1 else 0)
    case _ => k
  }

  /** Python's `a == b` on keys. */
  predicate PyEq(a: Key, b: Key) {
    EqClass(a) == EqClass(b)
  }

  /** `==` on keys relates a bool only to itself and to 0 or 1, and
      otherwise only equal keys. */
  lemma PyEqCases(a: Key, b: Key)
    ensures PyEq(a, b) <==>
      || a == b
      || (a.BoolK? && b == IntK(if a.b then 1 else 0))
      || (b.BoolK? && a == IntK(if b.b then 1 else 0))
  {
  }

  /** A dictionary's contents: its (key, value) entries in insertion order. */
  type Entries<V> = seq<(Key, V)>

  /** No two entries have keys that Python considers equal. */
  predicate DistinctKeys<V>(es: Entries<V>) {
    forall i, j | 0 <= i < j < |es| :: !PyEq(es[i].0, es[j].0)
  }

  /** The position of the entry whose key equals `k`, if any. */
  function Find<V>(es: Entries<V>, k: Key): (r: Option<nat>)
    ensures r.Some? ==> r.value < |es| && PyEq(es[r.value].0, k)
    ensures r.Some? ==> forall j | 0 <= j < r.value :: !PyEq(es[j].0, k)
    ensures r.None? ==> forall j | 0 <= j < |es| :: !PyEq(es[j].0, k)
  {
    if es == [] then None
    else if PyEq(es[0].0, k) then Some(0)
    else match Find(es[1..], k)
      case Some(j) => Some(j + 1)
      case None => None
  }

  /** `d[k]` (`dict.__getitem__`, reached through `UserDict.__getitem__`). */
  function Get<V>(es: Entries<V>, k: Key): (r: Result<V>)
    ensures r.Err? <==> forall j | 0 <= j < |es| :: !PyEq(es[j].0, k)
    ensures r.Err? ==> r.error == KeyError(k)
  {
    match Find(es, k)
    case Some(i) => Ok(es[i].1)
    case None => Err(KeyError(k))
  }

  /** In a dictionary without duplicate keys, the search for an entry's own
      key (or any key equal to it) stops at that entry. */
  lemma FindEntry<V>(es: Entries<V>, i: nat, k: Key)
    requires DistinctKeys(es) && i < |es| && PyEq(es[i].0, k)
    ensures Find(es, k) == Some(i)
  {
    var j := Find(es, k).value;
    assert !(j < i) && !(i < j);
  }

  /** In a dictionary without duplicate keys, looking up an entry's own key
      (or any key equal to it) finds that entry's value. */
  lemma GetEntry<V>(es: Entries<V>, i: nat, k: Key)
    requires DistinctKeys(es) && i < |es| && PyEq(es[i].0, k)
    ensures Get(es, k) == Ok(es[i].1)
  {
    FindEntry(es, i, k);
  }

  /** `d[k] = v`: an existing entry with an equal key keeps its key object and
      its position and takes the new value; otherwise the entry is appended. */
  function Set<V>(es: Entries<V>, k: Key, v: V): (r: Entries<V>)
    ensures |r| == if Find(es, k).Some? then |es| else |es| + 1
    ensures forall j | 0 <= j < |es| :: r[j].0 == es[j].0
    ensures forall j | 0 <= j < |es| && !PyEq(es[j].0, k) :: r[j] == es[j]
  {
    match Find(es, k)
    case Some(i) => es[i := (es[i].0, v)]
    case None => es + [(k, v)]
  }

  /** After `d[k] = v`, `d[k]` is `v`. */
  lemma SetThenGet<V>(es: Entries<V>, k: Key, v: V)
    ensures Get(Set(es, k, v), k) == Ok(v)
  {
    var r := Set(es, k, v);
    match Find(es, k)
    case Some(i) =>
      assert Find(r, k) == Some(i) by {
        assert PyEq(r[i].0, k);
        assert forall j | 0 <= j < i :: !PyEq(r[j].0, k);
      }
    case None =>
      assert Find(r, k) == Some(|es|) by {
        assert PyEq(r[|es|].0, k);
      }
  }

  /** `d[k] = v` leaves every lookup of a key not equal to `k` as it was. */
  lemma SetKeepsOthers<V>(es: Entries<V>, k: Key, v: V, k': Key)
    requires !PyEq(k', k)
    ensures Get(Set(es, k, v), k') == Get(es, k')
  {
    var r := Set(es, k, v);
    match Find(es, k)
    case Some(i) =>
      assert r == es[i := (es[i].0, v)];
      SameKeysFind(es, r, k');
    case None =>
      assert r == es + [(k, v)];
      FindAppend(es, (k, v), k');
  }

  /** The search sees only keys: replacing values leaves it alone. */
  lemma SameKeysFind<V>(a: Entries<V>, b: Entries<V>, k: Key)
    requires |a| == |b| && forall j | 0 <= j < |a| :: a[j].0 == b[j].0
    ensures Find(a, k) == Find(b, k)
  {
    if Find(a, k).Some? {
      assert PyEq(b[Find(a, k).value].0, k);
    }
  }

  /** Searching after an append finds an old entry first, else the new one. */
  lemma {:induction false} FindAppend<V>(es: Entries<V>, e: (Key, V), k: Key)
    ensures Find(es + [e], k) ==
      if Find(es, k).Some? then Find(es, k)
      else if PyEq(e.0, k) then Some(|es|) else None
  {
    if es == [] {
      assert [] + [e] == [e];
    } else if !PyEq(es[0].0, k) {
      assert (es + [e])[1..] == es[1..] + [e];
      FindAppend(es[1..], e, k);
    }
  }

  /** `d[k] = v` never introduces a duplicate key. */
  lemma SetKeepsDistinct<V>(es: Entries<V>, k: Key, v: V)
    requires DistinctKeys(es)
    ensures DistinctKeys(Set(es, k, v))
  {
  }

  /** `d1 == d2` for dictionaries: the same number of entries, and every
      entry of `d1` is found in `d2` with an equal value (the order of the
      entries does not matter). */
  predicate DictEq<V(==)>(a: Entries<V>, b: Entries<V>) {
    |a| == |b| && forall i | 0 <= i < |a| :: Get(b, a[i].0) == Ok(a[i].1)
  }

  lemma DictEqReflexive<V>(es: Entries<V>)
    requires DistinctKeys(es)
    ensures DictEq(es, es)
  {
    forall i | 0 <= i < |es| ensures Get(es, es[i].0) == Ok(es[i].1) {
      GetEntry(es, i, es[i].0);
    }
  }

  /** The key classes that a sequence of stored keys occupies. */
  function KeyClasses(keys: seq<Key>): set<Key> {
    set i | 0 <= i < |keys| :: EqClass(keys[i])
  }

  /** A hash table as CPython keeps one: the stored key objects in insertion
      order, and a map from each key's class to its value. */
  ghost predicate Represents<V>(keys: seq<Key>, table: map<Key, V>) {
    && table.Keys == KeyClasses(keys)
    && forall i, j | 0 <= i < j < |keys| :: EqClass(keys[i]) != EqClass(keys[j])
  }

  /** The entries a hash table holds, in insertion order. */
  function Tabulate<V>(keys: seq<Key>, table: map<Key, V>): Entries<V>
    requires forall i | 0 <= i < |keys| :: EqClass(keys[i]) in table
  {
    seq(|keys|, i requires 0 <= i < |keys| => (keys[i], table[EqClass(keys[i])]))
  }

  /** The table's entries have no duplicate keys. */
  lemma TabulateDistinct<V>(keys: seq<Key>, table: map<Key, V>)
    requires Represents(keys, table)
    ensures DistinctKeys(Tabulate(keys, table))
  {
  }

  /** A lookup by hash, `EqClass(k) in table`, agrees with a search of the
      entries. */
  lemma TabulateGet<V>(keys: seq<Key>, table: map<Key, V>, k: Key)
    requires Represents(keys, table)
    ensures Get(Tabulate(keys, table), k) ==
      if EqClass(k) in table then Ok(table[EqClass(k)]) else Err(KeyError(k))
  {
    var es := Tabulate(keys, table);
    if EqClass(k) in table {
      var i :| 0 <= i < |keys| && EqClass(keys[i]) == EqClass(k);
      TabulateDistinct(keys, table);
      GetEntry(es, i, k);
    }
  }

  /** Item assignment on the hash table, for a key whose class is present:
      the class's value is overwritten and the key objects stay as they are;
      on the entries this is `Set`. */
  lemma TabulateOverwrite<V>(keys: seq<Key>, table: map<Key, V>, k: Key, v: V)
    requires Represents(keys, table) && EqClass(k) in table
    ensures Represents(keys, table[EqClass(k) := v])
    ensures Tabulate(keys, table[EqClass(k) := v]) == Set(Tabulate(keys, table), k, v)
  {
    var es := Tabulate(keys, table);
    var c := EqClass(k);
    var table' := table[c := v];
    assert table'.Keys == table.Keys;
    var i :| 0 <= i < |keys| && EqClass(keys[i]) == c;
    TabulateDistinct(keys, table);
    FindEntry(es, i, k);
    var r := Tabulate(keys, table');
    forall m | 0 <= m < |keys| ensures r[m] == es[i := (es[i].0, v)][m] {
      if m != i {
        assert EqClass(keys[m]) != c;
      }
    }
  }

  /** Appending a key adds its class to the occupied classes. */
  lemma KeyClassesAppend(keys: seq<Key>, k: Key)
    ensures KeyClasses(keys + [k]) == KeyClasses(keys) + {EqClass(k)}
  {
    var keys' := keys + [k];
    forall x | x in KeyClasses(keys') ensures x in KeyClasses(keys) + {EqClass(k)} {
      var i :| 0 <= i < |keys'| && EqClass(keys'[i]) == x;
      if i < |keys| { assert keys'[i] == keys[i]; }
    }
    forall x | x in KeyClasses(keys) ensures x in KeyClasses(keys') {
      var i :| 0 <= i < |keys| && EqClass(keys[i]) == x;
      assert keys'[i] == keys[i];
    }
    assert keys'[|keys|] == k;
  }

  /** Inserting a key of an absent class keeps the table a representation. */
  lemma RepresentsInsert<V>(keys: seq<Key>, table: map<Key, V>, k: Key, v: V)
    requires Represents(keys, table) && EqClass(k) !in table
    ensures forall i | 0 <= i < |keys| :: EqClass(keys[i]) != EqClass(k)
    ensures Represents(keys + [k], table[EqClass(k) := v])
  {
    var keys' := keys + [k];
    KeyClassesAppend(keys, k);
    forall i | 0 <= i < |keys| ensures EqClass(keys[i]) != EqClass(k) {
      assert EqClass(keys[i]) in KeyClasses(keys);
    }
    forall i, j | 0 <= i < j < |keys'| ensures EqClass(keys'[i]) != EqClass(keys'[j]) {
      assert keys'[i] == keys[i];
      if j < |keys| {
        assert keys'[j] == keys[j];
      }
    }
  }

  /** Item assignment on the hash table, for a key whose class is absent:
      the key object is appended and its class gets the value; on the
      entries this is `Set`. */
  lemma TabulateInsert<V>(keys: seq<Key>, table: map<Key, V>, k: Key, v: V)
    requires Represents(keys, table) && EqClass(k) !in table
    ensures Represents(keys + [k], table[EqClass(k) := v])
    ensures Tabulate(keys + [k], table[EqClass(k) := v]) == Set(Tabulate(keys, table), k, v)
  {
    var es := Tabulate(keys, table);
    var keys' := keys + [k];
    var table' := table[EqClass(k) := v];
    RepresentsInsert(keys, table, k, v);
    assert Find(es, k).None?;
    var r := Tabulate(keys', table');
    forall m | 0 <= m < |keys'| ensures r[m] == (es + [(k, v)])[m] {
      if m < |keys| {
        assert keys'[m] == keys[m];
      }
    }
  }
}
