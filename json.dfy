/** The nested values the image-metadata parser hands to the organizer: Python dicts and lists
    with string, integer and other scalar leaves, plus the few Python primitives over them that
    the modelled code uses (`d.get`, `k in d`, `d[k]`, iteration with `for`). */
module Json {

  datatype Option<+T> = None | Some(value: T)

  /** The Python exceptions the modelled code can raise. */
  datatype Failure = TypeError | AttributeError | IndexError | KeyError

  /** The outcome of a Python call that either returns a value or raises. */
  datatype Result<+T> = Ok(value: T) | Err(failure: Failure)

  /** A dict key: the parser produces string and integer keys. */
  datatype Key = KStr(s: string) | KInt(i: int)

  /** A dict keeps its insertion order, so it is the sequence of its entries.
      `Scalar` stands for the remaining leaves (floats, booleans): they are neither
      iterable nor have a `get` method, and they never equal a string. */
  datatype Value =
    | Dict(entries: seq<(Key, Value)>)
    | List(items: seq<Value>)
    | Str(s: string)
    | Int(i: int)
    | Null
    | Scalar

  /** `isinstance(v, (dict, list))` */
  predicate IsContainer(v: Value) {
    v.Dict? || v.List?
  }

  /** Python dicts never hold one key twice. */
  predicate DistinctKeys(es: seq<(Key, Value)>) {
    forall i, j :: 0 <= i < j < |es| ==> es[i].0 != es[j].0
  }

  /** `k in d` */
  predicate HasKey(es: seq<(Key, Value)>, k: Key) {
    exists i :: 0 <= i < |es| && es[i].0 == k
  }

  /** The position of key `k` in the dict (its first one, the only one in a Python dict). */
  function KeyIndex(es: seq<(Key, Value)>, k: Key): (i: nat)
    requires HasKey(es, k)
    ensures i < |es| && es[i].0 == k
    ensures forall j :: 0 <= j < i ==> es[j].0 != k
  {
    if es[0].0 == k then 0
    else
      assert HasKey(es[1..], k) by {
        var i :| 0 <= i < |es| && es[i].0 == k;
        assert es[1..][i - 1].0 == k;
      }
      1 + KeyIndex(es[1..], k)
  }

  /** `d.get(k)` on a dict: the value stored under `k`, or None. */
  function Lookup(es: seq<(Key, Value)>, k: Key): (r: Option<Value>)
    ensures r.Some? <==> HasKey(es, k)
    ensures r.Some? ==> r.value == es[KeyIndex(es, k)].1
  {
    if HasKey(es, k) then Some(es[KeyIndex(es, k)].1) else None
  }

  /** `v.get(k, default)`: only a dict has a `get` method. */
  function Get(v: Value, k: string, default: Value): (r: Result<Value>)
    ensures r.Err? <==> !v.Dict?
    ensures r.Err? ==> r.failure == AttributeError
    ensures v.Dict? && !HasKey(v.entries, KStr(k)) ==> r == Ok(default)
    ensures v.Dict? && HasKey(v.entries, KStr(k)) ==> r == Ok(Lookup(v.entries, KStr(k)).value)
  {
    if !v.Dict? then Err(AttributeError)
    else match Lookup(v.entries, KStr(k))
      case Some(x) => Ok(x)
      case None => Ok(default)
  }

  /** Iterating a dict yields its keys. */
  function KeyValue(k: Key): (v: Value)
    ensures v.Str? || v.Int?
  {
    match k
    case KStr(s) => Str(s)
    case KInt(i) => Int(i)
  }

  /** What `for x in v` visits: the items of a list, the keys of a dict, the one-character
      strings of a string; any other value raises TypeError. */
  function Iterate(v: Value): (r: Result<seq<Value>>)
    ensures r.Err? <==> !(v.Dict? || v.List? || v.Str?)
    ensures r.Err? ==> r.failure == TypeError
    ensures v.List? ==> r == Ok(v.items)
    ensures v.Dict? ==> |r.value| == |v.entries| && forall i :: 0 <= i < |v.entries| ==> r.value[i] == KeyValue(v.entries[i].0)
    ensures v.Str? ==> |r.value| == |v.s| && forall i :: 0 <= i < |v.s| ==> r.value[i] == Str([v.s[i]])
  {
    match v
    case List(xs) => Ok(xs)
    case Dict(es) => Ok(seq(|es|, i requires 0 <= i < |es| => KeyValue(es[i].0)))
    case Str(s) => Ok(seq(|s|, i requires 0 <= i < |s| => Str([s[i]])))
    case _ => Err(TypeError)
  }
}
