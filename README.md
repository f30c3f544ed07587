# CleverDict in Dafny

`CleverDict` is a `collections.UserDict` in which item access and attribute
access are the same thing. The model covers:

- **Writes.** `x[k] = v` and `x.k = v` normalise the key: an exact `int` `n`
  becomes the string `"_n"`, and the empty string becomes `"_"`. The name
  `"data"` goes to `UserDict`'s own backing store and does not become an
  entry. Any other write stores the entry and then calls the class-level
  `save` hook with the normalised name and the value.
- **Reads.** `x.k` is looked up as `x["k"]`, and a missing key raises
  `AttributeError` instead of `KeyError`.
- **Rendering.** `repr(x)` and `str(x)` list the entries in insertion order.

The packaging script's helper `comma_split` is also modelled, together with
the `REQUIREMENTS` constant it is applied to.

The project has four modules:

- `PyStrings` (`python_str.dfy`): the parts of Python's `str` the code
  relies on.
  - `isspace`, written out as the full set of characters Python 3 treats as
    whitespace.
  - `lstrip`, `rstrip` and `strip`.
  - `split` on a one-character separator, and `join`.
  - `str` of an `int`, taken as total (see "## Left out" for the digit
    limit).
- `PyDicts` (`python_dict.dfy`): the dictionary underneath.
  - Keys are `int`, `bool`, `str` or any other hashable object, compared
    with Python's `==`. `False == 0` and `True == 1`, so a `bool` and its
    integer share one slot.
  - The contents are an insertion-ordered entry list. Overwriting an equal
    key keeps the original key object and its position, as CPython does.
  - A hash-table representation, with proofs that it agrees with the entry
    list.
- `CleverDicts` (`cleverdict.dfy`): the class itself.
  - The writes are specified by functions on entry lists: `Written`,
    `Updated`, `WriteCalls` and `Fired`.
  - `class CleverDict` keeps the real state. `order` holds the key objects
    in insertion order, and `data` maps each key's equality class to its
    value. The `Entries()` view ties that state to the entry list.
  - `class SaveHook` is the class attribute `CleverDict.save`. Every
    instance built with the same `SaveHook` object shares it, as every
    Python instance shares the one class attribute. It records whether a hook is installed and every call
    the hook receives. Each call is recorded with a snapshot of the entries
    the hook sees, the normalised name and the value.
- `Setup` (`setup.dfy`): `comma_split` and `REQUIREMENTS`.

The model follows the code, not the tests, wherever the two differ. The
test file expects several behaviours that `__setitem__` and `__getattr__`
do not implement:

- `x[1]` after `x[1] = v`, at `cleverdict/test_cleverdict.py:81`. The code
  stores the entry under `"_1"` and does not normalise reads, so the read
  raises `KeyError` (`IntWriteReadsOnlyNormalised`).
- `x["_0"] == 1` after the writes 0, False, 1, True, at
  `cleverdict/test_cleverdict.py:129`. The code holds 0 under `"_0"`
  (`ZeroOneWrites`).
- `AttributeError` on `x["1"] = 5` or `x["?else"] = ...`, at
  `cleverdict/test_cleverdict.py:82-94`. The code never raises
  `AttributeError` on a write.
- Float keys such as `x[12345.0]` reading back as `x._12345`, at
  `cleverdict/test_cleverdict.py:95-96`.
- `setattr_direct`, at `cleverdict/test_cleverdict.py:231-236`. The code
  has no such method.
- A subclass's own `save` being called, at
  `cleverdict/test_cleverdict.py:202-228`. `_save` calls `CleverDict.save`,
  the base class's attribute.

## Model

| member | source | states |
|---|---|---|
| PyStrings.IsSpace | setup.py:22 | the characters `strip()` removes (Python 3 `str.isspace`); no contract of its own: `LStrip`, `RStrip`, `Strip` and `StripUnique` state what `strip` does with them |
| PyStrings.LStrip | setup.py:22 | `lstrip` removes exactly a leading run of whitespace: the result is a suffix, everything removed is whitespace, and the result does not start with whitespace |
| PyStrings.RStrip | setup.py:22 | `rstrip` removes exactly a trailing run of whitespace: the result is a prefix, everything removed is whitespace, and the result does not end with whitespace |
| PyStrings.Strip | setup.py:22 | `strip` yields a contiguous piece of its input that neither starts nor ends with whitespace |
| PyStrings.StripUnique | setup.py:22 | whatever whitespace surrounds a stripped string, `strip` gives back exactly that string |
| PyStrings.StripStripped | setup.py:22 | `strip(t) == t` exactly when `t` neither starts nor ends with whitespace, so `strip` is idempotent |
| PyStrings.StripAfterSpace | setup.py:22 | one space in front of a stripped string is removed by `strip` |
| PyStrings.Split | setup.py:22 | `split(sep)` yields one more segment than there are separators, and no segment contains the separator |
| PyStrings.SplitNoSeparator | setup.py:22 | a string without the separator splits into itself alone |
| PyStrings.SplitAtSeparator | setup.py:22 | a separator closes the segment before it |
| PyStrings.JoinSplit | setup.py:22 | joining the segments of `split(sep)` with `sep` gives back the input |
| PyStrings.SplitJoin | setup.py:22 | separator-free parts joined with `sep` split back into the same parts |
| PyStrings.Join | cleverdict/cleverdict.py:50-53 | `sep.join(parts)`; no contract of its own: `JoinAppend`, `JoinSplit`, `SplitJoin` and `JoinCommaSpace` state its properties |
| PyStrings.JoinAppend | cleverdict/cleverdict.py:50 | joining one more part appends the separator and the part |
| PyStrings.NatToStr | cleverdict/cleverdict.py:31 | `str(n)` for `n >= 0` is a non-empty string of decimal digits with no leading zero |
| PyStrings.NatToStrDecodes | cleverdict/cleverdict.py:31 | the digits of `str(n)` denote `n` |
| PyStrings.NatToStrInjective | cleverdict/cleverdict.py:31 | distinct natural numbers print differently |
| PyStrings.IntToStr | cleverdict/cleverdict.py:31 | `str(i)` of an `int` is never empty and starts with `-` exactly when `i` is negative |
| PyStrings.IntToStrValue | cleverdict/cleverdict.py:31 | `str(i)` denotes `i` for `i >= 0`; for negative `i` it is `-` followed by `str(-i)`, which denotes `-i` |
| PyStrings.IntToStrInjective | cleverdict/cleverdict.py:31 | distinct integers print differently |
| PyDicts.EqClass | cleverdict/cleverdict.py:35 | a key's representative under `==` is never a `bool`, and any other key is its own representative |
| PyDicts.PyEqCases | cleverdict/cleverdict.py:35 | `==` on keys relates `False` to `0`, `True` to `1`, and otherwise only identical keys |
| PyDicts.Find | cleverdict/cleverdict.py:40 | the search returns the first position whose key equals the sought key, and returns nothing only when no key equals it |
| PyDicts.Get | cleverdict/cleverdict.py:40 | `d[k]` raises `KeyError(k)` exactly when no stored key equals `k` |
| PyDicts.FindEntry | cleverdict/cleverdict.py:40 | with distinct keys, the search for an entry's key stops at that entry |
| PyDicts.GetEntry | cleverdict/cleverdict.py:40 | with distinct keys, looking up an entry's key yields that entry's value |
| PyDicts.Set | cleverdict/cleverdict.py:35 | `d[k] = v` keeps every stored key object in place, leaves entries with unequal keys alone, and grows the dict by one exactly when no equal key was present |
| PyDicts.SetThenGet | cleverdict/cleverdict.py:35 | after `d[k] = v`, `d[k]` is `v` |
| PyDicts.SetKeepsOthers | cleverdict/cleverdict.py:35 | `d[k] = v` leaves every lookup of a key unequal to `k` unchanged |
| PyDicts.SameKeysFind | cleverdict/cleverdict.py:35 | replacing values does not affect the key search |
| PyDicts.FindAppend | cleverdict/cleverdict.py:35 | after an append, the search finds an old entry first and the new entry otherwise |
| PyDicts.SetKeepsDistinct | cleverdict/cleverdict.py:35 | item assignment never creates a duplicate key |
| PyDicts.DictEq | cleverdict/test_cleverdict.py:166 | `==` on dicts; no contract of its own: `DictEqReflexive` and `RebuildEqual` state its properties |
| PyDicts.DictEqReflexive | cleverdict/test_cleverdict.py:166 | a dict is `==` to itself |
| PyDicts.Tabulate | cleverdict/cleverdict.py:50 | the hash table's entries in insertion order; no contract of its own: `TabulateDistinct`, `TabulateGet`, `TabulateOverwrite` and `TabulateInsert` state what it means |
| PyDicts.TabulateDistinct | cleverdict/cleverdict.py:35 | a hash table's entries have distinct keys |
| PyDicts.TabulateGet | cleverdict/cleverdict.py:40 | a hashed lookup agrees with a search of the entries, including the `KeyError` case |
| PyDicts.TabulateOverwrite | cleverdict/cleverdict.py:35 | assigning to a key whose class is stored keeps the representation and equals `Set` on the entries |
| PyDicts.KeyClassesAppend | cleverdict/cleverdict.py:35 | appending a key adds exactly its class to the occupied classes |
| PyDicts.RepresentsInsert | cleverdict/cleverdict.py:35 | appending a key of a new class keeps the representation |
| PyDicts.TabulateInsert | cleverdict/cleverdict.py:35 | assigning to a key whose class is absent appends it, keeps the representation and equals `Set` on the entries |
| CleverDicts.Normalise | cleverdict/cleverdict.py:30-31 | a normalised key is neither an exact `int` nor `""`, and such keys are left alone |
| CleverDicts.NormaliseRule | cleverdict/cleverdict.py:30-31 | normalisation changes a key exactly when it is an exact `int` (to `"_" + str(n)`) or `""` (to `"_"`); a `bool` is unchanged |
| CleverDicts.NormaliseIdempotent | cleverdict/cleverdict.py:30-31 | normalising twice is normalising once |
| CleverDicts.NormaliseIntInjective | cleverdict/cleverdict.py:30-31 | distinct integer keys never normalise to the same name |
| CleverDicts.NormaliseExamples | cleverdict/test_cleverdict.py:63 | `1` becomes `"_1"`, `-1` becomes `"_-1"`, `""` becomes `"_"`; `True` and `"1"` stay as they are |
| CleverDicts.Written | cleverdict/cleverdict.py:28-35 | the entries after `x[k] = v`; no contract of its own: `WrittenKeepsClever`, `WriteStores`, `WriteKeepsOrder`, `AppendNew` and `WriteData` state its properties, and `CleverDict.SetItem` is proved against it |
| CleverDicts.WriteCalls | cleverdict/cleverdict.py:36 | the hook calls of `x[k] = v`; no contract of its own: `WriteData` and `WriteCallSeesEntry` state its properties, and `CleverDict.SetItem` is proved against it |
| CleverDicts.Updated | cleverdict/cleverdict.py:4 | the entries after writing items one by one; no contract of its own: `UpdatedKeepsClever` and `RebuildIdentity` state its properties, and `CleverDict.Update` is proved against it |
| CleverDicts.Fired | cleverdict/cleverdict.py:36 | the hook calls of writing items one by one; no contract of its own: `FiredPerItem`, `FiredLength`, `FiredAt` and `FiredLast` state its properties, and `CleverDict.Update` is proved against it |
| CleverDicts.WrittenKeepsClever | cleverdict/cleverdict.py:28-35 | a write keeps the keys distinct, normalised and different from `"data"` |
| CleverDicts.WriteStores | cleverdict/cleverdict.py:35 | after a write, the normalised key reads back the value and every key unequal to it reads as before |
| CleverDicts.WriteKeepsOrder | cleverdict/cleverdict.py:35 | an overwrite keeps the length and every key object in place, and a new key is appended at the end |
| CleverDicts.AppendNew | cleverdict/cleverdict.py:35 | a write of a key equal to no stored key appends the entry |
| CleverDicts.WriteData | cleverdict/cleverdict.py:33-34 | writing `"data"` adds no entry and calls no hook |
| CleverDicts.BoolWriteReadsAsInt | cleverdict/test_cleverdict.py:121-128 | after `x[False] = v`, `x[0]` is `v`, and after `x[True] = v`, `x[1]` is `v` |
| CleverDicts.IntWriteReadsOnlyNormalised | cleverdict/cleverdict.py:30-40 | after `x[n] = v` with `n` absent, `x["_n"]` is `v` while `x[n]` raises `KeyError` |
| CleverDicts.ZeroOneWrites | cleverdict/test_cleverdict.py:121-138 | after writing 0, False, 1, True there are four entries; `x[0]` is 1 and `x[1]` is 3, while `x["_0"]` is 0 and `x["_1"]` is 2 |
| CleverDicts.UpdatedKeepsClever | cleverdict/cleverdict.py:28-35 | writing any sequence of items keeps the CleverDict invariant |
| CleverDicts.RebuildIdentity | cleverdict/test_cleverdict.py:165 | rebuilding from a CleverDict's own entries writes each one back to its place |
| CleverDicts.RebuildEqual | cleverdict/test_cleverdict.py:157-168 | a CleverDict rebuilt by writing `x`'s entries into an empty one (what `eval(repr(x))` does when every key and value's `repr` evaluates back to an equal object) is `==` to `x`, and after a new key is added the two differ |
| CleverDicts.FiredPerItem | cleverdict/test_cleverdict.py:178-188 | building from items calls the hook once per item, in order, with the normalised name, the value and the entries just after that write |
| CleverDicts.FiredLast | cleverdict/cleverdict.py:36 | the last item's write makes the last hook call |
| CleverDicts.FiredLength | cleverdict/cleverdict.py:36 | one hook call per item written |
| CleverDicts.FiredAt | cleverdict/cleverdict.py:36 | the i-th hook call reports the i-th item and the entries after it |
| CleverDicts.WriteCallSeesEntry | cleverdict/cleverdict.py:35-36 | the hook is called after the store, so it always sees the entry it reports |
| CleverDicts.SaveHook.constructor | cleverdict/cleverdict.py:26 | the hook starts as `None`, with no calls |
| CleverDicts.SaveHook.Install | cleverdict/test_cleverdict.py:180 | `CleverDict.save = f` installs the hook and keeps the call log |
| CleverDicts.SaveHook.Uninstall | cleverdict/cleverdict.py:26 | `CleverDict.save = None` removes the hook and keeps the call log |
| CleverDicts.SaveHook.Call | cleverdict/cleverdict.py:47 | calling the installed hook appends exactly that call to the log |
| CleverDicts.CleverDict.Entries | cleverdict/cleverdict.py:50 | the backing store's entries, in insertion order, have distinct, normalised keys and none is `"data"` |
| CleverDicts.CleverDict.constructor | cleverdict/cleverdict.py:4 | `CleverDict()` is empty |
| CleverDicts.CleverDict.FromItems | cleverdict/cleverdict.py:4 | `CleverDict(items)` writes the items one by one, with the entries and hook calls `Updated` and `Fired` describe |
| CleverDicts.CleverDict.GetItem | cleverdict/cleverdict.py:40 | `x[k]` is the hashed lookup and agrees with `Get` on the entries |
| CleverDicts.CleverDict.GetAttr | cleverdict/cleverdict.py:38-42 | `x.name` succeeds exactly when an entry has key `name` and then equals `x["name"]`; otherwise it raises `AttributeError` |
| CleverDicts.CleverDict.Save | cleverdict/cleverdict.py:44-47 | `_save` appends one call with the current entries, the name and the value when a hook is installed, and nothing otherwise |
| CleverDicts.CleverDict.SetItem | cleverdict/cleverdict.py:28-36 | `x[k] = v` keeps the invariant, turns the entries into `Written(old, k, v)` and appends `WriteCalls(old, k, v)` to the hook's log when installed |
| CleverDicts.CleverDict.SetAttr | cleverdict/cleverdict.py:55 | `x.name = v` has exactly the effect of `x["name"] = v` |
| CleverDicts.CleverDict.Update | cleverdict/cleverdict.py:4 | `update(items)` turns the entries into `Updated(old, items)` and appends `Fired(old, items)` to the log when installed |
| CleverDicts.AddToAttribute | cleverdict/test_cleverdict.py:191-199 | `x.name += delta` raises `AttributeError` and changes nothing for a missing name; otherwise it overwrites in place with the sum and calls the hook once with the new value |
| CleverDicts.ReprItems | cleverdict/cleverdict.py:50 | the `repr(k):repr(v)` items of the entries; no contract of its own: `ReprItemsReplace`, `ReprAppend` and `ReprAfterWrite` state how writes change them |
| CleverDicts.Repr | cleverdict/cleverdict.py:49-50 | `__repr__`; no contract of its own: `ReprEmpty`, `ReprAppend` and `ReprAfterWrite` state its shape and how writes change it |
| CleverDicts.ReprEmpty | cleverdict/cleverdict.py:50 | an empty CleverDict renders as `CleverDict({})` |
| CleverDicts.ReprItemsReplace | cleverdict/cleverdict.py:50 | changing one entry's value changes only that entry's item |
| CleverDicts.ReprAppend | cleverdict/cleverdict.py:50 | a new entry's item goes just before the closing `})`, after `", "` unless it is the first |
| CleverDicts.ReprAfterWrite | cleverdict/cleverdict.py:50 | after a write, an overwritten entry's item changes in place and a new entry's item is appended last |
| CleverDicts.StrLines | cleverdict/cleverdict.py:53 | the `.k = v type` lines of the entries; no contract of its own: `StrLinesReplace`, `StrAppend` and `StrAfterWrite` state how writes change them |
| CleverDicts.Str | cleverdict/cleverdict.py:52-53 | `__str__`; no contract of its own: `StrAppend` and `StrAfterWrite` state how writes change it |
| CleverDicts.StrLinesReplace | cleverdict/cleverdict.py:53 | changing one entry's value changes only that entry's line |
| CleverDicts.StrAppend | cleverdict/cleverdict.py:53 | a new entry's line comes last, after a newline unless it is the first |
| CleverDicts.StrAfterWrite | cleverdict/cleverdict.py:53 | after a write, an overwritten entry's line changes in place and a new entry's line is appended last |
| Setup.CommaSplit | setup.py:17-22 | one element per comma plus one; every element is comma-free and neither starts nor ends with whitespace |
| Setup.CommaSplitCutsAtCommas | setup.py:22 | the segments being stripped are the input cut at its commas, and joined with commas they rebuild it |
| Setup.CommaSplitNoComma | setup.py:22 | input without a comma gives the single stripped input |
| Setup.JoinCommaSpace | setup.py:22 | `", ".join(xs)` is `",".join` of the items with a leading space on all but the first |
| Setup.CommaSplitJoined | setup.py:22 | comma-free segments joined by commas give back their stripped forms |
| Setup.CommaSplitOfJoined | setup.py:22 | a list of comma-free stripped strings survives `", ".join` followed by `comma_split` |
| Setup.CommaSplitRoundTrip | setup.py:22 | `comma_split(", ".join(comma_split(t))) == comma_split(t)` |
| Setup.CommaSplitEmpty | setup.py:22 | the empty input gives one empty element |
| Setup.SplitTwo | setup.py:22 | two comma-free segments joined by one comma split into those two |
| Setup.CommaSplitTwo | setup.py:22 | an input with two segments gives their two stripped forms |
| Setup.CommaSplitTrailingComma | setup.py:22 | a trailing comma followed only by whitespace gives a trailing empty element |
| Setup.InstallRequires | setup.py:15-37 | `comma_split(REQUIREMENTS)` is `["click", ""]`, empty requirement included |
| Setup.BlankStrips | setup.py:22 | a whitespace-only string strips to `""` |
| Setup.CommaSplitBlankSegment | setup.py:22 | whitespace-only segments become empty strings and are kept, not dropped |

## Left out

- IntToStr: CPython's limit on int-to-str conversion is not modelled. Since Python 3.11 (and the 3.7.14, 3.8.14, 3.9.14 and 3.10.7 releases), `str` raises `ValueError` for an `int` of more than 4300 digits; here `str` is total.
- Normalise: because of that limit, `x[n] = v` with an `int` `n` of more than 4300 digits raises `ValueError` at cleverdict/cleverdict.py:31 before anything is stored or saved. The model instead stores the entry under `"_" + str(n)` and calls the hook.
- Unhashable keys (a `list`, a `dict`, ...) are outside `Key`. Writing one raises `TypeError` at cleverdict/cleverdict.py:35, which the model does not represent.
- A single `CleverDict.save` shared by all instances is not enforced. Each `CleverDict` is given its `SaveHook` when it is built, and a caller that wants Python's behaviour passes the same hook to every instance.
- Float keys, and other objects equal to an `int` without being one, are not modelled. Only `int`, `bool`, `str` and objects equal only to themselves are keys. So `1.0` is not normalised and not equal to `1`.
- Rebinding the backing store through a write of `"data"` (cleverdict/cleverdict.py:33-34) is not modelled. The model leaves the entries unchanged and calls no hook. The name is never an entry, which is what the model records.
- The hook receives the live instance as `self`. The model records a snapshot of the entries at the time of the call instead. A hook that mutates the instance, raises, or keeps a reference to it is not modelled.
- The hook's own effects (the example hook prints and appends to a log file) are I/O and are not modelled.
- Any truthy value of `CleverDict.save` is modelled as an installed hook, and `None` as no hook.
- Python attribute resolution is not modelled. `__getattr__` runs only when an ordinary attribute lookup fails, so real attributes such as `data` or the methods of `UserDict` shadow entries of the same name. `GetAttr` models the fallback itself.
- AddToAttribute: requires a non-empty name other than `"data"`. An attribute name cannot be empty, and `x.data` is the backing store, not an entry.
- `repr`, `str` and `type` of keys and values are parameters (`reprKey`, `reprValue`, `strKey`, `strValue`, `typeName`), since they depend on arbitrary Python objects. `self.__class__.__name__` is fixed as `CleverDict`, so subclass names are not modelled.
- `eval(repr(x))` is modelled as writing `x`'s entries, in order, into an empty CleverDict (`RebuildEqual`). This holds only when `repr` of every key and value evaluates back to an equal object; evaluating Python source is not modelled.
- `__eq__` between CleverDicts is `dict` equality on the backing stores (`DictEq`), with values compared by equality of the value type.
- `UserDict` members that CleverDict inherits without change (`__delitem__`, `pop`, `copy`, `fromkeys` and the rest) are not part of this model. The two it relies on, `__init__` and `update`, are modelled as writes item by item.
- The `setup()` call in setup.py:24-38, `find_packages`, and reading README.md for the long description are packaging I/O and are not modelled. The `KEYWORDS` and `CLASSIFIERS` constants are not modelled either: `CommaSplit` covers any text, and only `REQUIREMENTS` is instantiated.
- Python's `str` is a sequence of code points. Dafny's `char` covers the Unicode scalar values, so lone surrogates in Python strings are not modelled.
