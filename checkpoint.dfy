/**
 * The display-safe reduction of an unpickled checkpoint, and the two places
 * that feed it: the unpickler's persistent-load hook, which stands a
 * placeholder in for every tensor storage, and `peek`, which reduces the
 * loaded object twice.
 */
module Checkpoint {
  import opened PyValue

  /** The class the persistent-load hook instantiates in place of every storage. */
  const FakeStorageType: TypeName := "ai_models.checkpoint.FakeStorage"

  /** `str(t)` for a class `t` named `t`, under the default metaclass. */
  function TypeRepr(t: TypeName): (s: string)
    ensures |s| == |t| + 10
    ensures s[8..|s| - 2] == t
  {
    "<class '" + t + "'>"
  }

  /** How the placeholder's class prints. */
  lemma FakeStorageRepr()
    ensures TypeRepr(FakeStorageType) == "<class 'ai_models.checkpoint.FakeStorage'>"
  {
    assert "<class '" + FakeStorageType + "'>" == "<class 'ai_models.checkpoint.FakeStorage'>";
  }

  /** Distinct class names print differently, so a collapsed object still shows its class name. */
  lemma TypeReprInjective(a: TypeName, b: TypeName)
    requires TypeRepr(a) == TypeRepr(b)
    ensures a == b
  {
  }

  /**
   * What `tidy` returns and a second `tidy` leaves alone: at every value
   * position there is None, a primitive, or a builtin list, tuple or dict
   * (with distinct keys); no other object. Dict keys are not constrained,
   * since `tidy` does not look at them.
   */
  predicate Safe(v: Value) {
    match v
    case VObject(_, _) => false
    case VList(c, es) => c == ListType && forall e | e in es :: Safe(e)
    case VTuple(c, es) => c == TupleType && forall e | e in es :: Safe(e)
    case VDict(c, items) => c == DictType && DistinctKeys(items) && forall e | e in items :: Safe(e.1)
    case _ => true
  }

  /**
   * `tidy(x)`: dicts, lists and tuples (and their subclasses) are rebuilt as
   * the builtin container with every element, or every dict value, reduced;
   * dict keys are kept as they are. None and the primitives come back
   * unchanged, and any other object becomes the string naming its class.
   */
  function Tidy(x: Value): (r: Value)
    ensures Safe(r)
  {
    match x
    case VDict(_, items) =>
      VDict(DictType, FromPairs(seq(|items|, i requires 0 <= i < |items| => (items[i].0, Tidy(items[i].1)))))
    case VList(_, es) =>
      VList(ListType, seq(|es|, i requires 0 <= i < |es| => Tidy(es[i])))
    case VTuple(_, es) =>
      VTuple(TupleType, seq(|es|, i requires 0 <= i < |es| => Tidy(es[i])))
    case VNone => VNone
    case VObject(t, _) => VStr(StrType, TypeRepr(t))
    case _ => x
  }

  /**
   * `UnpicklerWrapper.persistent_load`: whatever the persistent id, a new
   * FakeStorage, whose identity the caller supplies; `tidy` turns it
   * into the string naming that class.
   */
  function PersistentLoad(pid: Value, identity: nat): (r: Value)
    ensures r.VObject? && r.id == identity && !Safe(r)
    ensures Tidy(r) == VStr(StrType, "<class 'ai_models.checkpoint.FakeStorage'>")
  {
    FakeStorageRepr();
    VObject(FakeStorageType, identity)
  }

  /** Two storages, whatever their persistent ids and identities, reduce to the same string. */
  lemma PersistentLoadIgnoresPid(p: Value, q: Value, i: nat, j: nat)
    ensures Tidy(PersistentLoad(p, i)) == Tidy(PersistentLoad(q, j))
  {
  }

  /** `peek`, after the archive entry has been unpickled into `loaded`: `tidy(tidy(loaded))`. */
  function Peek(loaded: Value): (r: Value)
    ensures r == Tidy(loaded)
    ensures Safe(r)
  {
    TidyIdempotent(loaded);
    Tidy(Tidy(loaded))
  }

  /** A dict (of any dict class) becomes a builtin dict with the same keys in the same order, each value reduced. */
  lemma TidyDict(c: TypeName, items: seq<(Value, Value)>)
    requires DistinctKeys(items)
    ensures Tidy(VDict(c, items)).VDict?
    ensures Tidy(VDict(c, items)).cls == DictType
    ensures Keys(Tidy(VDict(c, items)).items) == Keys(items)
    ensures forall i | 0 <= i < |items| :: Tidy(VDict(c, items)).items[i].1 == Tidy(items[i].1)
  {
    var mapped := seq(|items|, i requires 0 <= i < |items| => (items[i].0, Tidy(items[i].1)));
    assert Keys(mapped) == Keys(items);
    FromDistinctPairs(mapped);
  }

  /** A list (of any list class) becomes a builtin list of the same length, element by element in order. */
  lemma TidyList(c: TypeName, es: seq<Value>)
    ensures Tidy(VList(c, es)).VList?
    ensures Tidy(VList(c, es)).cls == ListType
    ensures |Tidy(VList(c, es)).elems| == |es|
    ensures forall i | 0 <= i < |es| :: Tidy(VList(c, es)).elems[i] == Tidy(es[i])
  {
  }

  /** A tuple (of any tuple class, a namedtuple say) becomes a builtin tuple, not a list, element by element in order. */
  lemma TidyTuple(c: TypeName, es: seq<Value>)
    ensures Tidy(VTuple(c, es)).VTuple?
    ensures Tidy(VTuple(c, es)).cls == TupleType
    ensures |Tidy(VTuple(c, es)).elems| == |es|
    ensures forall i | 0 <= i < |es| :: Tidy(VTuple(c, es)).elems[i] == Tidy(es[i])
  {
  }

  /** None and the primitives, subclasses of int, float and str included, are returned as they are. */
  lemma TidyPrimitive(x: Value)
    requires x.VNone? || x.IsPrimitive()
    ensures Tidy(x) == x
  {
  }

  /** Any other object collapses to the string naming its class, never to a container or a number. */
  lemma TidyObject(x: Value)
    requires !x.VNone? && !x.IsPrimitive() && !x.IsContainer()
    ensures Tidy(x) == VStr(StrType, TypeRepr(x.cls))
    ensures !Tidy(x).IsContainer() && !Tidy(x).VInt? && !Tidy(x).VFloat?
  {
  }

  /**
   * The kind of the result is the kind of the input, except that an object
   * becomes a str; so lists and tuples stay apart and nothing else becomes a string.
   */
  lemma TidyKind(x: Value)
    ensures Tidy(x).VNone? <==> x.VNone?
    ensures Tidy(x).VBool? <==> x.VBool?
    ensures Tidy(x).VInt? <==> x.VInt?
    ensures Tidy(x).VFloat? <==> x.VFloat?
    ensures Tidy(x).VStr? <==> x.VStr? || x.VObject?
    ensures Tidy(x).VList? <==> x.VList?
    ensures Tidy(x).VTuple? <==> x.VTuple?
    ensures Tidy(x).VDict? <==> x.VDict?
    ensures !Tidy(x).VObject?
  {
  }

  /** `tidy` changes a value exactly when it is not already safe: the safe values are its fixed points. */
  lemma {:induction false} TidyFixpoint(v: Value)
    ensures Tidy(v) == v <==> Safe(v)
  {
    if Safe(v) {
      match v
      case VList(c, es) =>
        forall i | 0 <= i < |es| ensures Tidy(es[i]) == es[i] {
          TidyFixpoint(es[i]);
        }
      case VTuple(c, es) =>
        forall i | 0 <= i < |es| ensures Tidy(es[i]) == es[i] {
          TidyFixpoint(es[i]);
        }
      case VDict(c, items) =>
        var mapped := seq(|items|, i requires 0 <= i < |items| => (items[i].0, Tidy(items[i].1)));
        forall i | 0 <= i < |items| ensures mapped[i] == items[i] {
          assert items[i] in items;
          TidyFixpoint(items[i].1);
        }
        assert mapped == items;
        FromDistinctPairs(items);
      case _ =>
    }
  }

  /** `tidy(tidy(x)) == tidy(x)`: the second pass in `peek` changes nothing. */
  lemma TidyIdempotent(x: Value)
    ensures Tidy(Tidy(x)) == Tidy(x)
  {
    TidyFixpoint(Tidy(x));
  }

  /** A builtin graph of dicts, lists, tuples and primitives comes back as it is, the tuple still a tuple. */
  lemma ExampleBuiltinGraph()
    ensures var x := VDict(DictType, [(VStr(StrType, "a"), VList(ListType, [
              VInt(IntType, 1), VFloat(FloatType, FloatBits(0x4004_0000_0000_0000)), VStr(StrType, "x"), VNone,
              VTuple(TupleType, [VBool(true), VBool(false)])]))]);
            Tidy(x) == x
  {
    var pair := VTuple(TupleType, [VBool(true), VBool(false)]);
    var list := VList(ListType, [
      VInt(IntType, 1), VFloat(FloatType, FloatBits(0x4004_0000_0000_0000)), VStr(StrType, "x"), VNone, pair]);
    var x := VDict(DictType, [(VStr(StrType, "a"), list)]);
    assert Safe(pair);
    assert Safe(list);
    assert Safe(x);
    TidyFixpoint(x);
  }

  /**
   * An OrderedDict holding a storage placeholder under a str key and an int
   * under an opaque key: the dict becomes a builtin dict, the placeholder a
   * string, and the opaque key stays as it is.
   */
  lemma ExampleOrderedDict(pid: Value)
    ensures Tidy(VDict("collections.OrderedDict", [(VStr(StrType, "w"), PersistentLoad(pid, 0)), (VObject("pkg.Key", 1), VInt(IntType, 3))]))
         == VDict(DictType, [(VStr(StrType, "w"), VStr(StrType, "<class 'ai_models.checkpoint.FakeStorage'>")), (VObject("pkg.Key", 1), VInt(IntType, 3))])
  {
    var items := [(VStr(StrType, "w"), PersistentLoad(pid, 0)), (VObject("pkg.Key", 1), VInt(IntType, 3))];
    TidyDict("collections.OrderedDict", items);
  }

  /**
   * `{K(): 1, K(): 2}` for a class `K` with identity hashing: the two keys are
   * different objects, so the rebuilt dict keeps both entries.
   */
  lemma ExampleDistinctObjectKeys()
    ensures Tidy(VDict(DictType, [(VObject("K", 0), VInt(IntType, 1)), (VObject("K", 1), VInt(IntType, 2))]))
         == VDict(DictType, [(VObject("K", 0), VInt(IntType, 1)), (VObject("K", 1), VInt(IntType, 2))])
  {
    TidyDict(DictType, [(VObject("K", 0), VInt(IntType, 1)), (VObject("K", 1), VInt(IntType, 2))]);
  }

  /**
   * `d = {'a': a}` where the object `a` holds `d` in an attribute: the graph
   * is cyclic through `a`, but `tidy` does not descend into objects, so the
   * object is a leaf and the cycle is cut there.
   */
  lemma ExampleCycleThroughObject()
    ensures Tidy(VDict(DictType, [(VStr(StrType, "a"), VObject("__main__.A", 0))]))
         == VDict(DictType, [(VStr(StrType, "a"), VStr(StrType, "<class '__main__.A'>"))])
  {
    assert TypeRepr("__main__.A") == "<class '__main__.A'>";
    TidyDict(DictType, [(VStr(StrType, "a"), VObject("__main__.A", 0))]);
  }
}
