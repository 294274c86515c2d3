/**
 * The slice of Python's object model that an unpickled checkpoint is made of:
 * None, the primitives bool, int, float and str, the containers list, tuple
 * and dict, and objects of any other class. Every value except None and a bool
 * carries the name of its class as Python prints it ("int", "dict",
 * "collections.OrderedDict", "ai_models.checkpoint.FakeStorage"), because a
 * value of a subclass of int, str, list, tuple or dict is still an instance of
 * the builtin for `isinstance`. Neither bool nor NoneType can be subclassed.
 *
 * An object of any other class also carries an identity, so that two
 * objects of one class are different values, as they are different dict keys
 * under Python's default identity hashing.
 *
 * A dict is its sequence of (key, value) entries in insertion order. Python's
 * key equality (`1 == 1.0 == True`) is approximated by structural equality.
 */
module PyValue {

  /** A class, by its qualified name as `str(type(x))` shows it; builtins carry no module. */
  type TypeName = string

  const IntType: TypeName := "int"
  const FloatType: TypeName := "float"
  const StrType: TypeName := "str"
  const ListType: TypeName := "list"
  const TupleType: TypeName := "tuple"
  const DictType: TypeName := "dict"

  /** A float, kept as its IEEE 754 bit pattern and never computed on. */
  datatype FloatToken = FloatBits(bits: bv64)

  datatype Value =
    | VNone
    | VBool(b: bool)
    | VInt(cls: TypeName, i: int)
    | VFloat(cls: TypeName, f: FloatToken)
    | VStr(cls: TypeName, s: string)
    | VList(cls: TypeName, elems: seq<Value>)
    | VTuple(cls: TypeName, elems: seq<Value>)
    | VDict(cls: TypeName, items: seq<(Value, Value)>)
    | VObject(cls: TypeName, id: nat)
  {
    /** An instance of int, float, str or bool (or of a subclass of the first three). */
    predicate IsPrimitive() {
      VBool? || VInt? || VFloat? || VStr?
    }

    /** An instance of dict, list or tuple (or of a subclass). */
    predicate IsContainer() {
      VDict? || VList? || VTuple?
    }
  }

  /** The keys of a dict's entries, in insertion order. */
  function Keys(d: seq<(Value, Value)>): (ks: seq<Value>)
    ensures |ks| == |d|
    ensures forall i | 0 <= i < |d| :: ks[i] == d[i].0
  {
    seq(|d|, i requires 0 <= i < |d| => d[i].0)
  }

  /** No key occurs twice: what every Python dict satisfies. */
  predicate DistinctKeys(d: seq<(Value, Value)>) {
    forall i, j | 0 <= i < j < |d| :: d[i].0 != d[j].0
  }

  /**
   * `d[k] = v` on a dict: a key already present keeps its position and takes
   * the new value; a new key is appended at the end.
   */
  function Insert(d: seq<(Value, Value)>, k: Value, v: Value): (r: seq<(Value, Value)>)
    ensures |r| == |d| || |r| == |d| + 1
    ensures (k, v) in r
  {
    if d == [] then [(k, v)]
    else if d[0].0 == k then [(k, v)] + d[1..]
    else [d[0]] + Insert(d[1..], k, v)
  }

  /** Storing under a new key appends exactly that entry. */
  lemma {:induction false} InsertNew(d: seq<(Value, Value)>, k: Value, v: Value)
    requires k !in Keys(d)
    ensures Insert(d, k, v) == d + [(k, v)]
  {
    if d != [] {
      assert Keys(d)[0] == d[0].0;
      assert k !in Keys(d[1..]) by {
        forall j | 0 <= j < |d| - 1 ensures Keys(d[1..])[j] != k {
          assert Keys(d[1..])[j] == Keys(d)[j + 1];
        }
      }
      InsertNew(d[1..], k, v);
      assert Insert(d, k, v) == [d[0]] + (d[1..] + [(k, v)]);
      assert [d[0]] + d[1..] == d;
    }
  }

  /** Storing under a key already present replaces that entry's value in place. */
  lemma {:induction false} InsertExisting(d: seq<(Value, Value)>, k: Value, v: Value, i: nat)
    requires DistinctKeys(d)
    requires i < |d| && d[i].0 == k
    ensures Insert(d, k, v) == d[i := (k, v)]
  {
    if i > 0 {
      assert d[0].0 != k;
      assert DistinctKeys(d[1..]) by {
        forall a, b | 0 <= a < b < |d| - 1 ensures d[1..][a].0 != d[1..][b].0 {
          assert d[1..][a] == d[a + 1] && d[1..][b] == d[b + 1];
        }
      }
      InsertExisting(d[1..], k, v, i - 1);
      assert [d[0]] + d[1..][i - 1 := (k, v)] == d[i := (k, v)];
    }
  }

  /** Every entry after storing is an old entry or the stored one. */
  lemma {:induction false} InsertEntries(d: seq<(Value, Value)>, k: Value, v: Value)
    ensures forall e | e in Insert(d, k, v) :: e in d || e == (k, v)
  {
    if d != [] && d[0].0 != k {
      InsertEntries(d[1..], k, v);
    }
  }

  /** Storing keeps the keys distinct. */
  lemma {:induction false} InsertDistinct(d: seq<(Value, Value)>, k: Value, v: Value)
    requires DistinctKeys(d)
    ensures DistinctKeys(Insert(d, k, v))
  {
    if k in Keys(d) {
      var i :| 0 <= i < |d| && Keys(d)[i] == k;
      InsertExisting(d, k, v, i);
      assert Keys(d[i := (k, v)]) == Keys(d);
    } else {
      InsertNew(d, k, v);
    }
  }

  /**
   * The dict built by `{k: v for k, v in pairs}`: the pairs are inserted one
   * after the other, so a repeated key keeps its first position and its last
   * value (FromPairsKeys, FromPairsOrder, FromPairsValues).
   */
  function FromPairs(pairs: seq<(Value, Value)>): (r: seq<(Value, Value)>)
    ensures DistinctKeys(r)
    ensures |r| <= |pairs|
    ensures forall e | e in r :: e in pairs
  {
    if pairs == [] then []
    else
      var n := |pairs| - 1;
      var prefix := FromPairs(pairs[..n]);
      InsertDistinct(prefix, pairs[n].0, pairs[n].1);
      InsertEntries(prefix, pairs[n].0, pairs[n].1);
      Insert(prefix, pairs[n].0, pairs[n].1)
  }

  /**
   * Building a dict from pairs whose keys are already distinct loses, adds and
   * reorders nothing: the result is the pairs themselves.
   */
  lemma {:induction false} FromDistinctPairs(pairs: seq<(Value, Value)>)
    requires DistinctKeys(pairs)
    ensures FromPairs(pairs) == pairs
  {
    if pairs != [] {
      var n := |pairs| - 1;
      var prefix, last := pairs[..n], pairs[n];
      assert DistinctKeys(prefix) by {
        forall i, j | 0 <= i < j < |prefix| ensures prefix[i].0 != prefix[j].0 {
          assert prefix[i] == pairs[i] && prefix[j] == pairs[j];
        }
      }
      FromDistinctPairs(prefix);
      assert last.0 !in Keys(prefix) by {
        forall i | 0 <= i < |prefix| ensures Keys(prefix)[i] != last.0 {
          assert prefix[i] == pairs[i];
        }
      }
      InsertNew(prefix, last.0, last.1);
      assert prefix + [last] == pairs;
    }
  }

  /**
   * Where key `k` first occurs among the pairs, or `|pairs|` when it does not
   * occur.
   */
  function FirstIndex(pairs: seq<(Value, Value)>, k: Value): (i: nat)
    ensures i <= |pairs|
    ensures i < |pairs| ==> pairs[i].0 == k
    ensures forall j | 0 <= j < i :: pairs[j].0 != k
  {
    if pairs == [] then 0
    else
      var n := |pairs| - 1;
      var f := FirstIndex(pairs[..n], k);
      if f < n then f
      else if pairs[n].0 == k then n
      else n + 1
  }

  /** Where key `k` last occurs among the pairs, or -1 when it does not occur. */
  function LastIndex(pairs: seq<(Value, Value)>, k: Value): (i: int)
    ensures -1 <= i < |pairs|
    ensures 0 <= i ==> pairs[i].0 == k
    ensures forall j | i < j < |pairs| :: pairs[j].0 != k
  {
    if pairs == [] then -1
    else
      var n := |pairs| - 1;
      if pairs[n].0 == k then n else LastIndex(pairs[..n], k)
  }

  /** A key occurs exactly when it has a first occurrence before the end. */
  lemma KeyFirstIndex(pairs: seq<(Value, Value)>, k: Value)
    ensures k in Keys(pairs) <==> FirstIndex(pairs, k) < |pairs|
  {
    if k in Keys(pairs) {
      var j :| 0 <= j < |pairs| && Keys(pairs)[j] == k;
      assert pairs[j].0 == k;
    }
  }

  /** The keys of the pairs, minus the last pair. */
  lemma KeysPrefix(pairs: seq<(Value, Value)>)
    requires pairs != []
    ensures Keys(pairs) == Keys(pairs[..|pairs| - 1]) + [pairs[|pairs| - 1].0]
  {
  }

  /** The dict built from pairs holds exactly the keys of the pairs: none is added or dropped. */
  lemma {:induction false} FromPairsKeys(pairs: seq<(Value, Value)>)
    ensures forall k :: k in Keys(FromPairs(pairs)) <==> k in Keys(pairs)
  {
    if pairs != [] {
      var n := |pairs| - 1;
      var prefix, last := pairs[..n], pairs[n];
      var before := FromPairs(prefix);
      FromPairsKeys(prefix);
      KeysPrefix(pairs);
      if last.0 in Keys(before) {
        var i :| 0 <= i < |before| && Keys(before)[i] == last.0;
        InsertExisting(before, last.0, last.1, i);
        assert Keys(FromPairs(pairs)) == Keys(before);
      } else {
        InsertNew(before, last.0, last.1);
        assert Keys(FromPairs(pairs)) == Keys(before) + [last.0];
      }
    }
  }

  /** A key that occurs before the last pair first occurs where it first occurs in the prefix. */
  lemma FirstIndexPrefix(pairs: seq<(Value, Value)>, k: Value)
    requires pairs != [] && k in Keys(pairs[..|pairs| - 1])
    ensures FirstIndex(pairs, k) == FirstIndex(pairs[..|pairs| - 1], k) < |pairs| - 1
  {
    KeyFirstIndex(pairs[..|pairs| - 1], k);
  }

  /** The entries of the built dict are ordered by where their keys first occur among the pairs. */
  lemma {:induction false} FromPairsOrderAt(pairs: seq<(Value, Value)>, i: nat, j: nat)
    requires i < j < |FromPairs(pairs)|
    ensures FirstIndex(pairs, FromPairs(pairs)[i].0) < FirstIndex(pairs, FromPairs(pairs)[j].0)
  {
    var n := |pairs| - 1;
    var prefix, last := pairs[..n], pairs[n];
    var before, r := FromPairs(prefix), FromPairs(pairs);
    assert r == Insert(before, last.0, last.1);
    FromPairsKeys(prefix);
    assert before[i].0 in Keys(before);
    FirstIndexPrefix(pairs, before[i].0);
    if last.0 in Keys(before) {
      var p :| 0 <= p < |before| && Keys(before)[p] == last.0;
      InsertExisting(before, last.0, last.1, p);
      assert r[i].0 == before[i].0 && r[j].0 == before[j].0;
      assert before[j].0 in Keys(before);
      FirstIndexPrefix(pairs, before[j].0);
      FromPairsOrderAt(prefix, i, j);
    } else {
      InsertNew(before, last.0, last.1);
      assert r[i] == before[i];
      if j < |before| {
        assert r[j] == before[j];
        assert before[j].0 in Keys(before);
        FirstIndexPrefix(pairs, before[j].0);
        FromPairsOrderAt(prefix, i, j);
      } else {
        assert r[j].0 == last.0 && last.0 !in Keys(prefix);
        KeyFirstIndex(prefix, last.0);
      }
    }
  }

  /** Each entry of the built dict holds the value of the last pair with its key. */
  lemma {:induction false} FromPairsValueAt(pairs: seq<(Value, Value)>, m: nat)
    requires m < |FromPairs(pairs)|
    ensures 0 <= LastIndex(pairs, FromPairs(pairs)[m].0)
    ensures FromPairs(pairs)[m].1 == pairs[LastIndex(pairs, FromPairs(pairs)[m].0)].1
  {
    var n := |pairs| - 1;
    var prefix, last := pairs[..n], pairs[n];
    var before, r := FromPairs(prefix), FromPairs(pairs);
    assert r == Insert(before, last.0, last.1);
    InsertEntries(before, last.0, last.1);
    var k := r[m].0;
    if k == last.0 {
      // the stored entry is in the dict, and keys are distinct, so it is entry m
      assert LastIndex(pairs, k) == n;
      var q :| 0 <= q < |r| && r[q] == (last.0, last.1);
      assert r[q].0 == r[m].0;
      assert q == m;
    } else {
      assert r[m] in r;
      assert r[m] in before;
      var q :| 0 <= q < |before| && before[q] == r[m];
      FromPairsValueAt(prefix, q);
      var l := LastIndex(prefix, k);
      assert LastIndex(pairs, k) == l;
      assert pairs[l] == prefix[l];
    }
  }

  /** The entries of the built dict are ordered by where their keys first occur among the pairs. */
  lemma FromPairsOrder(pairs: seq<(Value, Value)>)
    ensures var r := FromPairs(pairs);
      forall i, j | 0 <= i < j < |r| :: FirstIndex(pairs, r[i].0) < FirstIndex(pairs, r[j].0)
  {
    forall i, j | 0 <= i < j < |FromPairs(pairs)| {
      FromPairsOrderAt(pairs, i, j);
    }
  }

  /** Each entry of the built dict holds the value of the last pair with its key: the last write wins. */
  lemma FromPairsValues(pairs: seq<(Value, Value)>)
    ensures var r := FromPairs(pairs);
      forall i | 0 <= i < |r| :: 0 <= LastIndex(pairs, r[i].0) && r[i].1 == pairs[LastIndex(pairs, r[i].0)].1
  {
    forall i | 0 <= i < |FromPairs(pairs)| {
      FromPairsValueAt(pairs, i);
    }
  }
}
