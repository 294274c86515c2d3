# Checkpoint introspection: the `tidy` reduction

`ai_models/checkpoint.py` lets a user look inside a PyTorch checkpoint without
loading its tensors. `peek` opens the zip archive, unpickles
`archive/data.pkl` with an unpickler whose persistent-load hook returns an
empty `FakeStorage` placeholder for every tensor storage, and passes the
loaded object through `tidy` twice. `tidy` is a structural reduction that
has no failing branch of its own:

- dicts, lists and tuples, and any subclass of them, are rebuilt as the
  builtin container, element by element in order;
- a dict's keys are kept as they are, and only its values are reduced;
- `None`, `int`, `float`, `str` and `bool` values are returned unchanged;
- any other object becomes the string `str(type(x))`, such as
  `"<class 'ai_models.checkpoint.FakeStorage'>"`.

The model has two modules.

- `PyValue` (`pyvalue.dfy`) holds the Python values an unpickled checkpoint is
  made of. It is one datatype with a constructor per kind. Every value except
  `None` and a bool records its class name, so that a subclass instance, such
  as an `OrderedDict`, a namedtuple or an `int` subclass, is visible as one.
  An object of any other class also records an identity, so two objects of
  one class are different dict keys. Floats are bit-pattern tokens that
  nothing computes on. A dict is its entries in insertion order. The module
  also models how a dict comprehension builds a dict: entries are inserted
  one by one, so every key survives, a repeated key keeps its first position,
  and it takes its last value.
- `Checkpoint` (`checkpoint.dfy`) holds `Tidy`, the persistent-load hook and
  `Peek`. It also holds `Safe`, a predicate that describes `tidy`'s output
  independently of `tidy`, and the lemmas that connect the two.

The central results are these:

- `Tidy` always returns a `Safe` value.
- The `Safe` values are exactly the values that `Tidy` leaves unchanged.
- So `Tidy` is idempotent, and `peek`'s second pass changes nothing.

Further facts about the code that the model keeps:

- Dict keys are not reduced. A dict whose keys are distinct keeps all its
  entries, in order, and `TidyDict` proves this.
- A storage placeholder reduces to the class string
  `"<class 'ai_models.checkpoint.FakeStorage'>"`.
- `tidy` has no guard against cycles, but it only descends into list
  elements, tuple elements and dict values. A cycle that passes through any
  other object, or through a dict key, is cut there: the object is a leaf of
  the model, and `ExampleCycleThroughObject` shows the result. A cycle made
  only of list elements, tuple elements and dict values cannot be written as
  a finite Dafny value.

## Model

| member | source | states |
|---|---|---|
| `PyValue.Insert` | ai_models/checkpoint.py:31 | Storing one key adds at most one entry, and the stored entry is present afterwards. |
| `PyValue.InsertNew` | ai_models/checkpoint.py:31 | Storing under a key that is not present appends exactly that entry at the end. |
| `PyValue.InsertExisting` | ai_models/checkpoint.py:31 | In a dict with distinct keys, storing under a key already present replaces that entry's value at the same position. Every other entry stays as it was. |
| `PyValue.InsertEntries` | ai_models/checkpoint.py:31 | Every entry after storing is either an old entry or the stored one. |
| `PyValue.InsertDistinct` | ai_models/checkpoint.py:31 | Storing keeps the keys of a dict distinct. |
| `PyValue.FromPairs` | ai_models/checkpoint.py:31 | The dict built from a sequence of pairs has distinct keys. It is no longer than the pairs. Every entry is one of the pairs. |
| `PyValue.FirstIndex` | ai_models/checkpoint.py:31 | The first position at which a key occurs among the pairs, or the end when it does not occur. |
| `PyValue.LastIndex` | ai_models/checkpoint.py:31 | The last position at which a key occurs among the pairs, or -1 when it does not occur. |
| `PyValue.KeyFirstIndex` | ai_models/checkpoint.py:31 | A key occurs among the pairs exactly when its first position is before the end. |
| `PyValue.FromPairsKeys` | ai_models/checkpoint.py:31 | The built dict holds exactly the keys of the pairs, in both directions. No key is added or dropped. |
| `PyValue.FromPairsOrderAt` | ai_models/checkpoint.py:31 | For two entries of the built dict, the earlier one's key first occurs earlier among the pairs. |
| `PyValue.FromPairsOrder` | ai_models/checkpoint.py:31 | The entries of the built dict are ordered by the first occurrence of their keys: a repeated key keeps its first position. |
| `PyValue.FromPairsValueAt` | ai_models/checkpoint.py:31 | An entry of the built dict holds the value of the last pair with its key. |
| `PyValue.FromPairsValues` | ai_models/checkpoint.py:31 | Every entry of the built dict holds the value of the last pair with its key: the last write wins. |
| `PyValue.FromDistinctPairs` | ai_models/checkpoint.py:31 | Pairs whose keys are already distinct build a dict equal to themselves, in the same order. Nothing is dropped, merged or reordered. |
| `Checkpoint.TypeRepr` | ai_models/checkpoint.py:45 | For a class under the default metaclass, `str(type(x))` is ten characters longer than the class name. The class name can be read back from inside it. |
| `Checkpoint.TypeReprInjective` | ai_models/checkpoint.py:45 | Two class names print the same only if they are the same name. So a collapsed object still shows its own class name. |
| `Checkpoint.FakeStorageRepr` | ai_models/checkpoint.py:13-18 | The placeholder class prints as `<class 'ai_models.checkpoint.FakeStorage'>`. |
| `Checkpoint.Tidy` | ai_models/checkpoint.py:29-45 | Output safety: every result is `Safe`. At every value position, at any depth, there is `None`, a primitive or a builtin list, tuple or dict with distinct keys. No other object survives, except as a dict key. |
| `Checkpoint.TidyDict` | ai_models/checkpoint.py:30-31 | A dict of any dict class, with distinct keys, becomes a builtin dict. It has the same keys in the same order, and the i-th value is `tidy` of the i-th value. |
| `Checkpoint.TidyList` | ai_models/checkpoint.py:33-34 | A list of any list class becomes a builtin list of the same length. Its i-th element is `tidy` of the i-th element. |
| `Checkpoint.TidyTuple` | ai_models/checkpoint.py:36-37 | A tuple of any tuple class becomes a builtin tuple, not a list. It has the same length, and its i-th element is `tidy` of the i-th element. |
| `Checkpoint.TidyPrimitive` | ai_models/checkpoint.py:39-43 | `None`, and every `int`, `float`, `str` and `bool`, is returned unchanged. This includes instances of subclasses. |
| `Checkpoint.TidyObject` | ai_models/checkpoint.py:45 | Any other object becomes the `str` naming its class. It never becomes a container or a number. |
| `Checkpoint.TidyKind` | ai_models/checkpoint.py:29-45 | Each kind maps to the same kind, in both directions, except that an object becomes a `str`. Lists and tuples stay distinguishable, and no object is ever returned. |
| `Checkpoint.TidyFixpoint` | ai_models/checkpoint.py:29-45 | `tidy(v) == v` exactly when `v` is `Safe`. |
| `Checkpoint.TidyIdempotent` | ai_models/checkpoint.py:51-52 | `tidy(tidy(x)) == tidy(x)`. |
| `Checkpoint.Peek` | ai_models/checkpoint.py:48-52 | `tidy(tidy(loaded))` equals a single `tidy(loaded)`, and the result is `Safe`. |
| `Checkpoint.PersistentLoad` | ai_models/checkpoint.py:25-26 | Whatever the persistent id, the hook returns a new placeholder object, with the identity it is given, that is not `Safe`. `tidy` turns it into the string naming the `FakeStorage` class. |
| `Checkpoint.PersistentLoadIgnoresPid` | ai_models/checkpoint.py:25-26 | Any two storages, whatever their persistent ids and identities, reduce to the same string. |
| `Checkpoint.ExampleBuiltinGraph` | ai_models/checkpoint.py:29-45 | `{"a": [1, 2.5, "x", None, (True, False)]}` comes back as it is, with the tuple still a tuple. |
| `Checkpoint.ExampleDistinctObjectKeys` | ai_models/checkpoint.py:30-31 | `{K(): 1, K(): 2}`, with two different objects of one class as keys, keeps both entries. |
| `Checkpoint.ExampleCycleThroughObject` | ai_models/checkpoint.py:30-31 | `{'a': a}`, where the object `a` refers back to the dict, reduces to `{'a': "<class '__main__.A'>"}`. The cycle is cut at the object. |
| `Checkpoint.ExampleOrderedDict` | ai_models/checkpoint.py:25-45 | This dict is an `OrderedDict`. It holds a storage under a `str` key and an `int` under an opaque key. It becomes a builtin dict: the storage becomes its class string, and the opaque key is kept as it is. |

## Left out

- Opening the zip archive and reading the `archive/data.pkl` entry (checkpoint.py:49-50) are file I/O. `Peek` takes the unpickled object as its parameter.
- `pickle.Unpickler.load` is the library's stack machine, and its source is not part of this model. Only the persistent-load hook it calls is modelled.
- `FakeStorage`'s fields come from `torch` (`torch.float32` and an empty `torch.UntypedStorage`), which is foreign code. The placeholder is modelled as an object of that class, with no fields.
- Object identity is modelled only for `VObject`: a value that is not `None`, not a bool, and not an instance of int, float, str, list, tuple or dict or of a subclass of one. Objects of builtin classes such as `bytes`, `set` and `complex` are `VObject`s too and keep their identity. The model compares all other values structurally, subclass instances included. The hook takes the identity of the new placeholder as a parameter.
- Python's key equality (`1 == 1.0 == True`) and hashing are approximated by structural equality. The model does not check that keys are hashable.
- Floats are opaque tokens, and their arithmetic and NaN comparisons are not modelled. `tidy` never computes on them.
- A cycle made only of list elements, tuple elements and dict values is not modelled. On it `tidy` recurses until Python raises `RecursionError`, and a finite Dafny value cannot express such a cycle. A cycle through any other object or through a dict key is covered, with the object as a leaf.
- Checkpoint.Tidy: is total, but in Python `tidy` recurses once per nesting level, with an extra frame per comprehension before Python 3.12. An acyclic graph nested deeper than the recursion limit makes `peek` raise `RecursionError`, and the model does not have this error path.
- Checkpoint.Tidy: merges two dict entries whose keys are structurally equal values that Python holds apart. One example is two NaN floats with the same bit pattern, which are unequal in Python. Another is two instances of an `int` subclass with identity-based `__eq__` and `__hash__`, such as two `Tag(1)` keys, which the model writes alike as `VInt("Tag", 1)`. `TidyDict` gives no guarantee for such dicts.
- Checkpoint.TypeRepr: gives every class the form `<class 'name'>`. A class whose metaclass defines `__repr__` prints otherwise, for example an `enum.Enum` subclass prints as `<enum 'Color'>`, and no object of the model reduces to such a string. Two Python classes can also print alike when their qualified names agree.
- `ai_models/inputs/__init__.py` is not part of this model. It wraps remote and file data retrieval and has no logic of its own.
