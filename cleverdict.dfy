/** `CleverDict`: a `UserDict` whose item writes and attribute writes are
    one operation. A write normalises its key, sends the name "data" to the
    instance's backing store, and otherwise stores the entry and then calls
    the class-level `save` hook with the normalised name and the value.
    Attribute reads are item lookups whose `KeyError` becomes an
    `AttributeError`; `repr` and `str` list the entries in insertion order. */
module CleverDicts {
  import opened PyStrings
  import opened PyDicts

  /** The name that `__setitem__` routes to `UserDict`'s own `data`
      attribute instead of storing it as an entry. */
  const DataName: Key := StrK("data")

  /** The class name at the head of `repr`. */
  const ClassName: string := "CleverDict"

  /** A key that normalisation leaves alone: neither an exact `int` nor the
      empty string. A `bool` is not an exact `int`. */
  predicate Normalised(k: Key) {
    !k.IntK? && k != StrK("")
  }

  /** The key rewriting at the top of `__setitem__`: an exact `int`, or the
      empty string, becomes `"_" + str(key)`. */
  function Normalise(k: Key): (r: Key)
    ensures Normalised(r)
    ensures Normalised(k) ==> r == k
  {
    match k
    case IntK(i) => StrK("_" + IntToStr(i))
    case StrK(s) => if s == "" then StrK("_") else k
    case _ => k
  }

  /** A write stores under a new name exactly for an exact `int` or the empty
      string: `n` becomes `"_n"`, `""` becomes `"_"`; `bool`s and every other
      key are stored unchanged. */
  lemma NormaliseRule(k: Key)
    ensures Normalise(k) != k <==> k.IntK? || k == StrK("")
    ensures k.IntK? ==> Normalise(k) == StrK("_" + IntToStr(k.i))
    ensures k == StrK("") ==> Normalise(k) == StrK("_")
  {
  }

  /** Normalising twice is normalising once. */
  lemma NormaliseIdempotent(k: Key)
    ensures Normalise(Normalise(k)) == Normalise(k)
  {
  }

  /** Distinct integer keys never share a normalised name. */
  lemma NormaliseIntInjective(a: int, b: int)
    requires Normalise(IntK(a)) == Normalise(IntK(b))
    ensures a == b
  {
    assert "_" + IntToStr(a) == "_" + IntToStr(b);
    assert IntToStr(a) == ("_" + IntToStr(a))[1..];
    assert IntToStr(b) == ("_" + IntToStr(b))[1..];
    IntToStrInjective(a, b);
  }

  lemma NormaliseExamples()
    ensures Normalise(IntK(0)) == StrK("_0")
    ensures Normalise(IntK(1)) == StrK("_1")
    ensures Normalise(IntK(-1)) == StrK("_-1")
    ensures Normalise(StrK("")) == StrK("_")
    ensures Normalise(BoolK(true)) == BoolK(true)
    ensures Normalise(StrK("1")) == StrK("1")
  {
    assert NatToStr(0) == [DigitChar(0)] == "0";
    assert NatToStr(1) == [DigitChar(1)] == "1";
  }

  /** The contents every CleverDict keeps: distinct keys, all normalised,
      none of them "data". */
  predicate CleverEntries<V>(es: Entries<V>) {
    && DistinctKeys(es)
    && forall i | 0 <= i < |es| :: Normalised(es[i].0) && es[i].0 != DataName
  }

  /** The entries after `x[k] = v` (or `x.k = v`) on entries `es`. */
  function Written<V>(es: Entries<V>, k: Key, v: V): Entries<V> {
    var name := Normalise(k);
    if name == DataName then es else Set(es, name, v)
  }

  /** A write keeps the CleverDict invariant. */
  lemma WrittenKeepsClever<V>(es: Entries<V>, k: Key, v: V)
    requires CleverEntries(es)
    ensures CleverEntries(Written(es, k, v))
  {
    if Normalise(k) != DataName {
      SetKeepsDistinct(es, Normalise(k), v);
    }
  }

  /** One call of the `save` hook: the instance's entries as the hook sees
      them, the normalised name and the value. */
  datatype SaveCall<V> = SaveCall(seen: Entries<V>, name: Key, value: V)

  /** The hook calls that `x[k] = v` makes when a hook is installed. */
  function WriteCalls<V>(es: Entries<V>, k: Key, v: V): seq<SaveCall<V>> {
    var name := Normalise(k);
    if name == DataName then [] else [SaveCall(Written(es, k, v), name, v)]
  }

  /** The entries after writing `items` one by one, in order
      (`UserDict.update`, which `UserDict.__init__` uses). */
  function Updated<V>(es: Entries<V>, items: Entries<V>): Entries<V> {
    if items == [] then es
    else
      var last := items[|items| - 1];
      Written(Updated(es, items[..|items| - 1]), last.0, last.1)
  }

  /** The hook calls that writing `items` one by one makes. */
  function Fired<V>(es: Entries<V>, items: Entries<V>): seq<SaveCall<V>> {
    if items == [] then []
    else
      var init := items[..|items| - 1];
      var last := items[|items| - 1];
      Fired(es, init) + WriteCalls(Updated(es, init), last.0, last.1)
  }

  /** After `x[k] = v` for a key that does not normalise to "data", the
      normalised key reads back `v`, and every key not equal to it reads
      as before. */
  lemma WriteStores<V>(es: Entries<V>, k: Key, v: V, other: Key)
    requires Normalise(k) != DataName
    ensures Get(Written(es, k, v), Normalise(k)) == Ok(v)
    ensures !PyEq(other, Normalise(k)) ==> Get(Written(es, k, v), other) == Get(es, other)
  {
    SetThenGet(es, Normalise(k), v);
    if !PyEq(other, Normalise(k)) {
      SetKeepsOthers(es, Normalise(k), v, other);
    }
  }

  /** An overwritten key keeps its position and every key object stays in
      place; a new key is appended at the end. */
  lemma WriteKeepsOrder<V>(es: Entries<V>, k: Key, v: V)
    requires Normalise(k) != DataName
    ensures Find(es, Normalise(k)).Some? ==>
      && |Written(es, k, v)| == |es|
      && forall j | 0 <= j < |es| :: Written(es, k, v)[j].0 == es[j].0
    ensures Find(es, Normalise(k)).None? ==> Written(es, k, v) == es + [(Normalise(k), v)]
  {
  }

  /** Writing "data" adds no entry and calls no hook. */
  lemma WriteData<V>(es: Entries<V>, v: V)
    ensures Written(es, DataName, v) == es
    ensures WriteCalls(es, DataName, v) == []
  {
  }

  /** Reads are not normalised, and a `bool` key is not normalised either,
      so after `x[False] = v` the read `x[0]` finds `v` (and `x[True] = v`
      makes `x[1]` find it), by Python's `0 == False` and `1 == True`. */
  lemma BoolWriteReadsAsInt<V>(es: Entries<V>, b: bool, v: V)
    ensures Get(Written(es, BoolK(b), v), IntK(if b then 1 else 0)) == Ok(v)
  {
    var r := Set(es, BoolK(b), v);
    SetThenGet(es, BoolK(b), v);
    assert Find(r, IntK(if b then 1 else 0)) == Find(r, BoolK(b)) by {
      assert forall j | 0 <= j < |r| :: PyEq(r[j].0, BoolK(b)) <==> PyEq(r[j].0, IntK(if b then 1 else 0));
    }
  }

  /** After `x[n] = v` for an `int` not yet present, `x["_n"]` finds `v`
      but `x[n]` itself raises `KeyError`: the read is not normalised and a
      string is never equal to an `int`. */
  lemma IntWriteReadsOnlyNormalised<V>(es: Entries<V>, n: int, v: V)
    requires Get(es, IntK(n)).Err?
    ensures Get(Written(es, IntK(n), v), StrK("_" + IntToStr(n))) == Ok(v)
    ensures Get(Written(es, IntK(n), v), IntK(n)) == Err(KeyError(IntK(n)))
  {
    assert ("_" + IntToStr(n))[0] == '_';
    WriteStores(es, IntK(n), v, IntK(n));
  }

  /** The writes 0, False, 1, True in that order: after `x[0] = 0;
      x[False] = 1; x[1] = 2; x[True] = 3` there are four entries; `x[0]` is
      1 and `x[1]` is 3 (found through the bool keys), while `x["_0"]` is 0
      and `x["_1"]` is 2. */
  lemma ZeroOneWrites()
    ensures var x := Written(Written(Written(Written([], IntK(0), 0), BoolK(false), 1), IntK(1), 2), BoolK(true), 3);
      && x == [(StrK("_0"), 0), (BoolK(false), 1), (StrK("_1"), 2), (BoolK(true), 3)]
      && Get(x, IntK(0)) == Ok(1)
      && Get(x, IntK(1)) == Ok(3)
      && Get(x, StrK("_0")) == Ok(0)
      && Get(x, StrK("_1")) == Ok(2)
  {
    var n0, n1 := StrK("_0"), StrK("_1");
    NormaliseExamples();
    var e0: Entries<int> := [];
    var e1 := e0 + [(n0, 0)];
    var e2 := e1 + [(BoolK(false), 1)];
    var e3 := e2 + [(n1, 2)];
    var e4 := e3 + [(BoolK(true), 3)];
    AppendNew(e0, IntK(0), 0);
    AppendNew(e1, BoolK(false), 1);
    AppendNew(e2, IntK(1), 2);
    AppendNew(e3, BoolK(true), 3);
    assert e4 == [(n0, 0), (BoolK(false), 1), (n1, 2), (BoolK(true), 3)];
    GetEntry(e4, 1, IntK(0));
    GetEntry(e4, 3, IntK(1));
    GetEntry(e4, 0, n0);
    GetEntry(e4, 2, n1);
  }

  /** A write of a key equal to no stored key appends the entry. */
  lemma AppendNew<V>(es: Entries<V>, k: Key, v: V)
    requires Normalise(k) != DataName
    requires forall j | 0 <= j < |es| :: !PyEq(es[j].0, Normalise(k))
    ensures Written(es, k, v) == es + [(Normalise(k), v)]
  {
  }

  /** Writing any sequence of items keeps the CleverDict invariant: no
      stored key is an `int`, the empty string or "data". */
  lemma {:induction false} UpdatedKeepsClever<V>(es: Entries<V>, items: Entries<V>)
    requires CleverEntries(es)
    ensures CleverEntries(Updated(es, items))
  {
    if items != [] {
      var last := items[|items| - 1];
      UpdatedKeepsClever(es, items[..|items| - 1]);
      WrittenKeepsClever(Updated(es, items[..|items| - 1]), last.0, last.1);
    }
  }

  /** Rebuilding a CleverDict from an existing one's entries (what
      `eval(repr(x))` does when `repr` of every key and value evaluates
      back to an equal object) writes every entry to its old place. */
  lemma {:induction false} RebuildIdentity<V>(es: Entries<V>)
    requires CleverEntries(es)
    ensures Updated([], es) == es
  {
    if es != [] {
      var init := es[..|es| - 1];
      var last := es[|es| - 1];
      assert CleverEntries(init);
      RebuildIdentity(init);
      assert Find(init, last.0).None? by {
        forall j | 0 <= j < |init| ensures !PyEq(init[j].0, last.0) {
          assert init[j] == es[j];
        }
      }
      assert init + [last] == es;
    }
  }

  /** A CleverDict rebuilt from `x`'s entries is `==` to `x` (so
      `eval(repr(x)) == x` when every key's and value's `repr` evaluates
      back to an equal object), and after one more new key the two differ. */
  lemma RebuildEqual<V>(es: Entries<V>, k: Key, v: V)
    requires CleverEntries(es)
    ensures DictEq(Updated([], es), es)
    ensures Normalise(k) != DataName && Find(es, Normalise(k)).None? ==>
      !DictEq(es, Written(Updated([], es), k, v))
  {
    RebuildIdentity(es);
    DictEqReflexive(es);
  }

  /** Writing items none of which normalises to "data" calls the hook once
      per item, in item order, with the normalised name, the value, and the
      entries as they are right after that item's write. */
  lemma FiredPerItem<V>(es: Entries<V>, items: Entries<V>)
    requires forall i | 0 <= i < |items| :: Normalise(items[i].0) != DataName
    ensures |Fired(es, items)| == |items|
    ensures forall i | 0 <= i < |items| ::
      Fired(es, items)[i] == SaveCall(Updated(es, items[..i + 1]), Normalise(items[i].0), items[i].1)
  {
    FiredLength(es, items);
    forall i | 0 <= i < |items|
      ensures Fired(es, items)[i] == SaveCall(Updated(es, items[..i + 1]), Normalise(items[i].0), items[i].1)
    {
      FiredAt(es, items, i);
    }
  }

  /** The last item's write adds the last call. */
  lemma FiredLast<V>(es: Entries<V>, items: Entries<V>)
    requires items != [] && Normalise(items[|items| - 1].0) != DataName
    ensures Fired(es, items) == Fired(es, items[..|items| - 1])
      + [SaveCall(Updated(es, items), Normalise(items[|items| - 1].0), items[|items| - 1].1)]
  {
  }

  lemma {:induction false} FiredLength<V>(es: Entries<V>, items: Entries<V>)
    requires forall i | 0 <= i < |items| :: Normalise(items[i].0) != DataName
    ensures |Fired(es, items)| == |items|
  {
    if items != [] {
      var init := items[..|items| - 1];
      FiredLength(es, init);
      FiredLast(es, items);
    }
  }

  lemma {:induction false} FiredAt<V>(es: Entries<V>, items: Entries<V>, i: nat)
    requires forall j | 0 <= j < |items| :: Normalise(items[j].0) != DataName
    requires i < |items|
    ensures i < |Fired(es, items)|
    ensures Fired(es, items)[i] == SaveCall(Updated(es, items[..i + 1]), Normalise(items[i].0), items[i].1)
  {
    var n := |items| - 1;
    var init := items[..n];
    FiredLast(es, items);
    FiredLength(es, init);
    if i == n {
      assert items[..i + 1] == items;
    } else {
      FiredAt(es, init, i);
      assert init[..i + 1] == items[..i + 1];
      assert init[i] == items[i];
    }
  }

  /** Every hook call sees the entry it reports already stored. */
  lemma WriteCallSeesEntry<V>(es: Entries<V>, k: Key, v: V)
    ensures forall c | c in WriteCalls(es, k, v) :: Get(c.seen, c.name) == Ok(c.value)
  {
    if Normalise(k) != DataName {
      SetThenGet(es, Normalise(k), v);
    }
  }

  /** The class attribute `CleverDict.save`, shared by every instance:
      whether a hook is installed (the attribute is truthy), and the calls
      the hook has received. */
  class SaveHook<V> {
    var installed: bool
    var calls: seq<SaveCall<V>>

    /** `save = None` in the class body. */
    constructor ()
      ensures !installed && calls == []
    {
      installed := false;
      calls := [];
    }

    /** `CleverDict.save = f` for a function `f`. */
    method Install()
      modifies this
      ensures installed && calls == old(calls)
    {
      installed := true;
    }

    /** `CleverDict.save = None`. */
    method Uninstall()
      modifies this
      ensures !installed && calls == old(calls)
    {
      installed := false;
    }

    /** `CleverDict.save(self, name, value)`. */
    method Call(c: SaveCall<V>)
      requires installed
      modifies this
      ensures installed && calls == old(calls) + [c]
    {
      calls := calls + [c];
    }
  }

  class CleverDict<V> {
    /** The class-level `save` attribute this instance calls. Python has
        one for the whole class, so every instance meant to share it is
        built with the same `SaveHook`. */
    const hook: SaveHook<V>
    /** The backing `dict`: its key objects in insertion order, and each
        key class's value. */
    var order: seq<Key>
    var data: map<Key, V>

    ghost predicate Valid()
      reads this
    {
      && Represents(order, data)
      && forall i | 0 <= i < |order| :: Normalised(order[i]) && order[i] != DataName
    }

    /** The entries, in insertion order. */
    function Entries(): (es: Entries<V>)
      reads this
      requires Valid()
      ensures CleverEntries(es)
    {
      assert forall i | 0 <= i < |order| :: EqClass(order[i]) in KeyClasses(order);
      TabulateDistinct(order, data);
      Tabulate(order, data)
    }

    /** `CleverDict()`: `UserDict.__init__` binds an empty backing store. */
    constructor (hook: SaveHook<V>)
      ensures Valid() && this.hook == hook && Entries() == []
    {
      this.hook := hook;
      order := [];
      data := map[];
    }

    /** `CleverDict(items)`: an empty store, then `update(items)`, which
        writes every item through `__setitem__` in order. Keyword arguments
        come after the positional mapping in `items`. */
    constructor FromItems(hook: SaveHook<V>, items: Entries<V>)
      modifies hook
      ensures Valid() && this.hook == hook
      ensures Entries() == Updated([], items)
      ensures hook.installed == old(hook.installed)
      ensures hook.calls == old(hook.calls) + (if hook.installed then Fired([], items) else [])
    {
      this.hook := hook;
      order := [];
      data := map[];
      new;
      assert Entries() == [];
      Update(items);
    }

    /** `x[name]`, reached through `UserDict.__getitem__`: a hashed lookup
        that agrees with a search of the entries; a missing key raises
        `KeyError`. The key is not normalised. */
    function GetItem(k: Key): (r: Result<V>)
      reads this
      requires Valid()
      ensures r == Get(Entries(), k)
    {
      TabulateGet(order, data, k);
      if EqClass(k) in data then Ok(data[EqClass(k)]) else Err(KeyError(k))
    }

    /** `x.name` when `name` is not a real attribute (`__getattr__`): the
        item lookup of the string `name`, with `KeyError` turned into
        `AttributeError`. */
    function GetAttr(name: string): (r: Result<V>)
      reads this
      requires Valid()
      ensures r.Ok? <==> exists i | 0 <= i < |Entries()| :: Entries()[i].0 == StrK(name)
      ensures r.Ok? ==> r == GetItem(StrK(name))
      ensures r.Err? ==> r == Err(AttributeError)
    {
      match GetItem(StrK(name))
      case Ok(v) => Ok(v)
      case Err(_) => Err(AttributeError)
    }

    /** `_save`: if the class-level hook is installed, call it with the
        instance as it now is, the name and the value. */
    method Save(name: Key, value: V)
      requires Valid()
      modifies hook
      ensures hook.installed == old(hook.installed)
      ensures hook.calls == old(hook.calls) + (if hook.installed then [SaveCall(Entries(), name, value)] else [])
    {
      if hook.installed {
        hook.Call(SaveCall(Entries(), name, value));
      }
    }

    /** `x[k] = v`: normalise the key; "data" goes to the backing store
        and is not an entry; otherwise store the entry, then call `_save`
        with the normalised name and the value. */
    method SetItem(k: Key, v: V)
      requires Valid()
      modifies this, hook
      ensures Valid()
      ensures Entries() == Written(old(Entries()), k, v)
      ensures hook.installed == old(hook.installed)
      ensures hook.calls == old(hook.calls) + (if hook.installed then WriteCalls(old(Entries()), k, v) else [])
    {
      var name := Normalise(k);
      if name == DataName {
        return;
      }
      var c := EqClass(name);
      if c in data {
        TabulateOverwrite(order, data, name, v);
      } else {
        TabulateInsert(order, data, name, v);
        order := order + [name];
      }
      data := data[c := v];
      Save(name, v);
    }

    /** `x.name = v`: `__setattr__` is `__setitem__`, so this is exactly
        `x["name"] = v`. */
    method SetAttr(name: string, v: V)
      requires Valid()
      modifies this, hook
      ensures Valid()
      ensures Entries() == Written(old(Entries()), StrK(name), v)
      ensures hook.installed == old(hook.installed)
      ensures hook.calls == old(hook.calls) + (if hook.installed then WriteCalls(old(Entries()), StrK(name), v) else [])
    {
      SetItem(StrK(name), v);
    }

    /** `x.update(items)`: every item written through `__setitem__`, in order. */
    method Update(items: Entries<V>)
      requires Valid()
      modifies this, hook
      ensures Valid()
      ensures Entries() == Updated(old(Entries()), items)
      ensures hook.installed == old(hook.installed)
      ensures hook.calls == old(hook.calls) + (if hook.installed then Fired(old(Entries()), items) else [])
    {
      for i := 0 to |items|
        invariant Valid()
        invariant hook.installed == old(hook.installed)
        invariant Entries() == Updated(old(Entries()), items[..i])
        invariant hook.calls == old(hook.calls) + (if hook.installed then Fired(old(Entries()), items[..i]) else [])
      {
        assert items[..i + 1][..i] == items[..i];
        SetItem(items[i].0, items[i].1);
      }
      assert items[..|items|] == items;
    }
  }

  /** `x.name += delta` on an `int` entry: Python reads `x.name` through
      `__getattr__`, adds, and writes the sum back through `__setattr__`,
      so the hook is called once, with the new value. A missing name
      raises `AttributeError` before anything is written. */
  method AddToAttribute(d: CleverDict<int>, name: string, delta: int) returns (r: Result<int>)
    requires d.Valid() && name != "" && StrK(name) != DataName
    modifies d, d.hook
    ensures d.Valid() && d.hook.installed == old(d.hook.installed)
    ensures old(d.GetAttr(name)).Err? ==>
      && r == Err(AttributeError)
      && d.Entries() == old(d.Entries())
      && d.hook.calls == old(d.hook.calls)
    ensures old(d.GetAttr(name)).Ok? ==>
      && r == Ok(old(d.GetAttr(name)).value + delta)
      && |d.Entries()| == |old(d.Entries())|
      && d.Entries() == Written(old(d.Entries()), StrK(name), r.value)
      && d.hook.calls == old(d.hook.calls) + (if d.hook.installed then [SaveCall(d.Entries(), StrK(name), r.value)] else [])
  {
    var current := d.GetAttr(name);
    if current.Err? {
      return Err(AttributeError);
    }
    ghost var before := d.Entries();
    assert Find(before, StrK(name)).Some?;
    d.SetAttr(name, current.value + delta);
    r := Ok(current.value + delta);
  }

  /** `repr(k):repr(v)` for one entry; `reprKey` and `reprValue` stand for
      Python's `repr` on keys and values. */
  function ReprItem<V>(e: (Key, V), reprKey: Key -> string, reprValue: V -> string): string {
    reprKey(e.0) + ":" + reprValue(e.1)
  }

  /** One item per entry, in entry order. */
  function ReprItems<V>(es: Entries<V>, reprKey: Key -> string, reprValue: V -> string): seq<string> {
    seq(|es|, i requires 0 <= i < |es| => ReprItem(es[i], reprKey, reprValue))
  }

  /** `repr(x)`: the class name, then the items joined by ", " inside "({"
      and "})". */
  function Repr<V>(es: Entries<V>, reprKey: Key -> string, reprValue: V -> string): string {
    ClassName + "({" + Join(ReprItems(es, reprKey, reprValue), ", ") + "})"
  }

  /** ".{k} = {v} {type(v)}" for one entry; `strKey`, `strValue` and
      `typeName` stand for Python's `str` of the key and value and of the
      value's type. */
  function StrLine<V>(e: (Key, V), strKey: Key -> string, strValue: V -> string, typeName: V -> string): string {
    "." + strKey(e.0) + " = " + strValue(e.1) + " " + typeName(e.1)
  }

  /** One line per entry, in entry order. */
  function StrLines<V>(es: Entries<V>, strKey: Key -> string, strValue: V -> string, typeName: V -> string): seq<string> {
    seq(|es|, i requires 0 <= i < |es| => StrLine(es[i], strKey, strValue, typeName))
  }

  /** `str(x)`: the lines joined by newlines. */
  function Str<V>(es: Entries<V>, strKey: Key -> string, strValue: V -> string, typeName: V -> string): string {
    Join(StrLines(es, strKey, strValue, typeName), "\n")
  }

  /** `repr` of an empty CleverDict. */
  lemma ReprEmpty<V>(reprKey: Key -> string, reprValue: V -> string)
    ensures Repr([], reprKey, reprValue) == "CleverDict({})"
  {
  }

  /** Changing one entry's value changes only that entry's item. */
  lemma ReprItemsReplace<V>(es: Entries<V>, i: nat, v: V, reprKey: Key -> string, reprValue: V -> string)
    requires i < |es|
    ensures ReprItems(es[i := (es[i].0, v)], reprKey, reprValue)
      == ReprItems(es, reprKey, reprValue)[i := ReprItem((es[i].0, v), reprKey, reprValue)]
  {
  }

  /** Appending an entry appends its item before the closing "})". */
  lemma ReprAppend<V>(es: Entries<V>, e: (Key, V), reprKey: Key -> string, reprValue: V -> string)
    ensures var old_ := Repr(es, reprKey, reprValue);
      Repr(es + [e], reprKey, reprValue)
        == old_[..|old_| - 2] + (if es == [] then "" else ", ") + ReprItem(e, reprKey, reprValue) + "})"
  {
    var items := ReprItems(es, reprKey, reprValue);
    var x := ReprItem(e, reprKey, reprValue);
    assert ReprItems(es + [e], reprKey, reprValue) == items + [x];
    JoinAppend(items, x, ", ");
    var body := ClassName + "({" + Join(items, ", ");
    var close := "})";
    assert (body + close)[..|body + close| - 2] == body;
  }

  /** A write renders where the entry sits: an overwritten entry's item
      changes in place, and a new entry's item is added after all the
      others, just before the closing "})". */
  lemma ReprAfterWrite<V>(es: Entries<V>, k: Key, v: V, reprKey: Key -> string, reprValue: V -> string)
    requires Normalise(k) != DataName
    ensures Find(es, Normalise(k)).Some? ==>
      var i := Find(es, Normalise(k)).value;
      ReprItems(Written(es, k, v), reprKey, reprValue)
        == ReprItems(es, reprKey, reprValue)[i := ReprItem((es[i].0, v), reprKey, reprValue)]
    ensures Find(es, Normalise(k)).None? ==>
      var old_ := Repr(es, reprKey, reprValue);
      Repr(Written(es, k, v), reprKey, reprValue)
        == old_[..|old_| - 2] + (if es == [] then "" else ", ")
           + ReprItem((Normalise(k), v), reprKey, reprValue) + "})"
  {
    var name := Normalise(k);
    match Find(es, name)
    case Some(i) =>
      assert Written(es, k, v) == es[i := (es[i].0, v)];
      ReprItemsReplace(es, i, v, reprKey, reprValue);
    case None =>
      assert Written(es, k, v) == es + [(name, v)];
      ReprAppend(es, (name, v), reprKey, reprValue);
  }

  /** Changing one entry's value changes only that entry's line. */
  lemma StrLinesReplace<V>(es: Entries<V>, i: nat, v: V, strKey: Key -> string, strValue: V -> string, typeName: V -> string)
    requires i < |es|
    ensures StrLines(es[i := (es[i].0, v)], strKey, strValue, typeName)
      == StrLines(es, strKey, strValue, typeName)[i := StrLine((es[i].0, v), strKey, strValue, typeName)]
  {
  }

  /** Appending an entry appends its line. */
  lemma StrAppend<V>(es: Entries<V>, e: (Key, V), strKey: Key -> string, strValue: V -> string, typeName: V -> string)
    ensures Str(es + [e], strKey, strValue, typeName)
      == Str(es, strKey, strValue, typeName) + (if es == [] then "" else "\n") + StrLine(e, strKey, strValue, typeName)
  {
    var lines := StrLines(es, strKey, strValue, typeName);
    var x := StrLine(e, strKey, strValue, typeName);
    assert StrLines(es + [e], strKey, strValue, typeName) == lines + [x];
    JoinAppend(lines, x, "\n");
  }

  /** `str` after a write: an overwritten entry's line changes in place,
      and a new entry's line comes last. */
  lemma StrAfterWrite<V>(es: Entries<V>, k: Key, v: V, strKey: Key -> string, strValue: V -> string, typeName: V -> string)
    requires Normalise(k) != DataName
    ensures Find(es, Normalise(k)).Some? ==>
      var i := Find(es, Normalise(k)).value;
      StrLines(Written(es, k, v), strKey, strValue, typeName)
        == StrLines(es, strKey, strValue, typeName)[i := StrLine((es[i].0, v), strKey, strValue, typeName)]
    ensures Find(es, Normalise(k)).None? ==>
      Str(Written(es, k, v), strKey, strValue, typeName)
        == Str(es, strKey, strValue, typeName) + (if es == [] then "" else "\n")
           + StrLine((Normalise(k), v), strKey, strValue, typeName)
  {
    var name := Normalise(k);
    match Find(es, name)
    case Some(i) =>
      assert Written(es, k, v) == es[i := (es[i].0, v)];
      StrLinesReplace(es, i, v, strKey, strValue, typeName);
    case None =>
      assert Written(es, k, v) == es + [(name, v)];
      StrAppend(es, (name, v), strKey, strValue, typeName);
  }
}
