/** Python values as the pipeline framework sees them.

    Objects in the result store and attributes of a step are `Value`s; a class
    named in a schema (`dict[str, type]`) is a `PyType`; a value read from the
    YAML configuration is a `Node`; anything used as a dictionary key is a
    `Key`, where lists and dictionaries are unhashable. */
module Values {
  import opened Grids
  import opened Errors

  datatype Value =
    | NoneValue
    | Array(stack: Volume)          // a numpy array
    | IntValue(i: int)
    | FloatValue(f: real)
    | BoolValue(b: bool)
    | StrValue(s: string)
    | DictValue(entries: seq<(Key, Value)>)
    | PathValue(path: string)       // a `pathlib.Path`
    | FrameworkSettings(pedantic: bool)  // a `FrameworkConfig` instance
    | Instance(cls: string)         // an object of a class outside the model

  datatype PyType =
    | ObjectType
    | NoneType
    | NdArrayType
    | IntType
    | FloatType
    | BoolType
    | StrType
    | DictType
    | PathType
    | FrameworkConfigType
    | ClassType(name: string)

  /** `isinstance(v, t)`; `bool` is a subclass of `int`. */
  predicate IsInstance(v: Value, t: PyType)
  {
    match t
    case ObjectType => true
    case NoneType => v.NoneValue?
    case NdArrayType => v.Array?
    case IntType => v.IntValue? || v.BoolValue?
    case FloatType => v.FloatValue?
    case BoolType => v.BoolValue?
    case StrType => v.StrValue?
    case DictType => v.DictValue?
    case PathType => v.PathValue?
    case FrameworkConfigType => v.FrameworkSettings?
    case ClassType(name) => v.Instance? && v.cls == name
  }

  /** `if v:`, or `None` where it raises: numpy refuses the truth value of an
      array. Objects of classes outside the model define neither `__bool__`
      nor `__len__`, so they are true. */
  function Truth(v: Value): (r: Option<bool>)
    ensures r.None? <==> v.Array?
    ensures v.BoolValue? ==> r == Some(v.b)
    ensures r == Some(false) <==>
      || v.NoneValue?
      || (v.IntValue? && v.i == 0) || (v.FloatValue? && v.f == 0.0) || (v.BoolValue? && !v.b)
      || (v.StrValue? && v.s == []) || (v.DictValue? && v.entries == [])
  {
    match v
    case NoneValue => Some(false)
    case Array(_) => None
    case IntValue(i) => Some(i != 0)
    case FloatValue(f) => Some(f != 0.0)
    case BoolValue(b) => Some(b)
    case StrValue(s) => Some(s != [])
    case DictValue(entries) => Some(entries != [])
    case PathValue(_) => Some(true)
    case FrameworkSettings(_) => Some(true)
    case Instance(_) => Some(true)
  }

  /** The scalar number numpy reads from `v`: an `int`, a `float`, or a
      `bool` as 0 or 1. */
  function Number(v: Value): (r: Option<real>)
    ensures r.Some? <==> v.IntValue? || v.FloatValue? || v.BoolValue?
    ensures v.FloatValue? ==> r == Some(v.f)
    ensures v.IntValue? ==> r == Some(v.i as real)
  {
    match v
    case IntValue(i) => Some(i as real)
    case FloatValue(f) => Some(f)
    case BoolValue(b) => Some(if b then 1.0 else 0.0)
    case _ => None
  }

  /** The instance attributes of an object, by name. */
  type Attrs = map<string, Value>

  /** A dictionary key: a string, another hashable scalar, or an unhashable
      list or dictionary (which makes every lookup raise `TypeError`). */
  datatype Key = KStr(s: string) | KInt(i: int) | KScalar(tag: int) | KUnhashable

  /** A YAML value: strings, integers, other scalars (floats, booleans, null),
      sequences and mappings with string keys. */
  datatype Node =
    | NStr(s: string)
    | NInt(i: int)
    | NScalar(tag: int)
    | NList(items: seq<Node>)
    | NDict(entries: seq<(string, Node)>)

  /** A YAML value used as a dictionary key. */
  function KeyOf(n: Node): (k: Key)
    ensures k.KStr? <==> n.NStr?
    ensures k.KUnhashable? <==> n.NList? || n.NDict?
  {
    match n
    case NStr(s) => KStr(s)
    case NInt(i) => KInt(i)
    case NScalar(t) => KScalar(t)
    case NList(_) => KUnhashable
    case NDict(_) => KUnhashable
  }

  /** The keys of a mapping node, or the names of a schema: the first
      components of a sequence of named pairs. */
  function Keys<V>(entries: seq<(string, V)>): (ks: set<string>)
    ensures forall k :: k in ks <==> exists i | 0 <= i < |entries| :: entries[i].0 == k
  {
    set i | 0 <= i < |entries| :: entries[i].0
  }

  /** `d[k]` on a mapping node: the value of the last entry with key `k`, as
      YAML keeps the last of repeated keys (`LookupLast`). */
  function Lookup(entries: seq<(string, Node)>, k: string): (r: Node)
    requires k in Keys(entries)
    ensures exists i | 0 <= i < |entries| :: entries[i] == (k, r)
  {
    var last := |entries| - 1;
    if entries[last].0 == k then entries[last].1
    else
      assert k in Keys(entries[..last]) by {
        var i :| 0 <= i < |entries| && entries[i].0 == k;
        assert entries[..last][i].0 == k;
      }
      var r := Lookup(entries[..last], k);
      assert exists i | 0 <= i < last :: entries[..last][i] == (k, r);
      var i :| 0 <= i < last && entries[..last][i] == (k, r);
      assert entries[i] == (k, r);
      r
  }

  /** Entry `i` is the last entry with key `k`. */
  predicate LastWith(entries: seq<(string, Node)>, k: string, i: int)
  {
    0 <= i < |entries| && entries[i].0 == k && forall j | i < j < |entries| :: entries[j].0 != k
  }

  /** A repeated key reads as its last entry. */
  lemma {:induction false} LookupLast(entries: seq<(string, Node)>, k: string)
    requires k in Keys(entries)
    ensures exists i :: LastWith(entries, k, i) && entries[i].1 == Lookup(entries, k)
    decreases |entries|
  {
    var last := |entries| - 1;
    if entries[last].0 == k {
      assert LastWith(entries, k, last);
    } else {
      var init := entries[..last];
      assert k in Keys(init) by {
        var i :| 0 <= i < |entries| && entries[i].0 == k;
        assert init[i].0 == k;
      }
      LookupLast(init, k);
      var i :| LastWith(init, k, i) && init[i].1 == Lookup(init, k);
      assert Lookup(entries, k) == Lookup(init, k);
      assert entries[i] == init[i];
      forall j | i < j < |entries|
        ensures entries[j].0 != k
      {
        if j < last {
          assert entries[j] == init[j];
        }
      }
      assert LastWith(entries, k, i);
    }
  }

  /** Dropping the last entry drops its key and keeps every other. */
  lemma KeysSnoc<V>(entries: seq<(string, V)>)
    requires entries != []
    ensures Keys(entries) == Keys(entries[..|entries| - 1]) + {entries[|entries| - 1].0}
  {
    var init := entries[..|entries| - 1];
    forall k | k in Keys(entries)
      ensures k in Keys(init) || k == entries[|entries| - 1].0
    {
      var i :| 0 <= i < |entries| && entries[i].0 == k;
      if i < |init| {
        assert init[i].0 == k;
      }
    }
    forall k | k in Keys(init)
      ensures k in Keys(entries)
    {
      var i :| 0 <= i < |init| && init[i].0 == k;
      assert entries[i].0 == k;
    }
  }

  /** The keys of the dictionary a mapping node parses to, in its order:
      each key once, where it first occurs. */
  function KeyOrder<V>(entries: seq<(string, V)>): (ks: seq<string>)
    ensures forall k :: k in ks <==> k in Keys(entries)
    ensures forall i, j | 0 <= i < j < |ks| :: ks[i] != ks[j]
    decreases |entries|
  {
    if entries == [] then []
    else
      var last := |entries| - 1;
      var init := KeyOrder(entries[..last]);
      KeysSnoc(entries);
      if entries[last].0 in init then init else init + [entries[last].0]
  }

  /** The values of the dictionary a mapping node parses to: one per key, in
      key order, each the value of the key's last entry (`DictValuesMeans`). */
  function DictValues(entries: seq<(string, Node)>): (vs: seq<Node>)
    ensures |vs| == |KeyOrder(entries)|
    ensures forall i | 0 <= i < |vs| :: vs[i] == Lookup(entries, KeyOrder(entries)[i])
  {
    var ks := KeyOrder(entries);
    seq(|ks|, i requires 0 <= i < |ks| => Lookup(entries, ks[i]))
  }

  /** Two last entries for the same key are the same entry. */
  lemma LastWithUnique(entries: seq<(string, Node)>, k: string, i: int, j: int)
    requires LastWith(entries, k, i) && LastWith(entries, k, j)
    ensures i == j
  {
  }

  /** A value of the parsed dictionary is exactly the value of some entry that
      no later entry overwrites: overwritten values are not among them. */
  lemma DictValuesMeans(entries: seq<(string, Node)>, v: Node)
    ensures v in DictValues(entries) <==> exists i | 0 <= i < |entries| :: LastWith(entries, entries[i].0, i) && entries[i].1 == v
  {
    var ks := KeyOrder(entries);
    var vs := DictValues(entries);
    if v in vs {
      var j :| 0 <= j < |vs| && vs[j] == v;
      LookupLast(entries, ks[j]);
      var i :| LastWith(entries, ks[j], i) && entries[i].1 == Lookup(entries, ks[j]);
      assert LastWith(entries, entries[i].0, i) && entries[i].1 == v;
    }
    if exists i | 0 <= i < |entries| :: LastWith(entries, entries[i].0, i) && entries[i].1 == v {
      var i :| 0 <= i < |entries| && LastWith(entries, entries[i].0, i) && entries[i].1 == v;
      var k := entries[i].0;
      assert k in Keys(entries);
      var j :| 0 <= j < |ks| && ks[j] == k;
      LookupLast(entries, k);
      var i' :| LastWith(entries, k, i') && entries[i'].1 == Lookup(entries, k);
      LastWithUnique(entries, k, i, i');
      assert vs[j] == v;
    }
  }
}
