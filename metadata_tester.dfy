/** scripts/tests/metadata_tester.py: the key searches over the parser's nested parameters,
    the prompt join, the checkpoint-name unwrapping and the positive-prompt node filter. */
module MetadataTester {
  import opened Json
  import opened Text
  import opened Workflow

  // ----- Every entry of a tree -----

  /** Every dict entry anywhere in `d`, in depth-first insertion order, including the entries
      inside values stored under any key. The searches below are checked against it. */
  function Entries(d: Value): seq<(Key, Value)>
    decreases d
  {
    match d
    case Dict(es) => EntriesOf(es)
    case List(xs) => EntriesOfItems(xs)
    case _ => []
  }

  function EntriesOf(es: seq<(Key, Value)>): seq<(Key, Value)>
    decreases es
  {
    if es == [] then [] else [es[0]] + EntriesBelow(es[0]) + EntriesOf(es[1..])
  }

  function EntriesBelow(e: (Key, Value)): seq<(Key, Value)>
    decreases e
  {
    Entries(e.1)
  }

  function EntriesOfItems(xs: seq<Value>): seq<(Key, Value)>
    decreases xs
  {
    if xs == [] then [] else Entries(xs[0]) + EntriesOfItems(xs[1..])
  }

  /** No entry of `es` is stored under the string key `key`. */
  predicate KeyAbsent(es: seq<(Key, Value)>, key: string) {
    forall i :: 0 <= i < |es| ==> es[i].0 != KStr(key)
  }

  // ----- find_values_in_dict -----

  /** `find_values_in_dict(d, key)`: the values stored under `key`, depth first in insertion
      order, without looking inside a value that was stored under `key`. */
  function FindAll(d: Value, key: string): seq<Value>
    decreases d
  {
    match d
    case Dict(es) => FindAllEntries(es, key)
    case List(xs) => FindAllItems(xs, key)
    case _ => []
  }

  function FindAllEntries(es: seq<(Key, Value)>, key: string): seq<Value>
    decreases es
  {
    if es == [] then [] else EntryAll(es[0], key) + FindAllEntries(es[1..], key)
  }

  /** `if k == key: values.append(v) elif isinstance(v, (dict, list)): values.extend(...)` */
  function EntryAll(e: (Key, Value), key: string): seq<Value>
    decreases e
  {
    if e.0 == KStr(key) then [e.1] else if IsContainer(e.1) then FindAll(e.1, key) else []
  }

  function FindAllItems(xs: seq<Value>, key: string): seq<Value>
    decreases xs
  {
    if xs == [] then [] else FindAll(xs[0], key) + FindAllItems(xs[1..], key)
  }

  /** The recursive accumulation of `find_values_in_dict`. */
  method FindValuesInDict(d: Value, key: string) returns (values: seq<Value>)
    ensures values == FindAll(d, key)
    decreases d
  {
    values := [];
    if d.Dict? {
      var es := d.entries;
      for i := 0 to |es|
        invariant values + FindAllEntries(es[i..], key) == FindAllEntries(es, key)
      {
        assert es[i..][1..] == es[i + 1..];
        var (k, v) := es[i];
        if k == KStr(key) {
          values := values + [v];
        } else if IsContainer(v) {
          var sub := FindValuesInDict(v, key);
          values := values + sub;
        }
      }
      assert values + FindAllEntries(es[|es|..], key) == values;
    } else if d.List? {
      var xs := d.items;
      for i := 0 to |xs|
        invariant values + FindAllItems(xs[i..], key) == FindAllItems(xs, key)
      {
        assert xs[i..][1..] == xs[i + 1..];
        var sub := FindValuesInDict(xs[i], key);
        values := values + sub;
      }
      assert values + FindAllItems(xs[|xs|..], key) == values;
    }
  }

  /** Every value reported is stored under `key` somewhere in `d`, and nothing is reported
      exactly when no entry anywhere in `d` has the key. */
  lemma {:induction false} FindAllMeaning(d: Value, key: string)
    ensures forall x :: x in FindAll(d, key) ==> (KStr(key), x) in Entries(d)
    ensures FindAll(d, key) == [] <==> KeyAbsent(Entries(d), key)
    decreases d
  {
    match d
    case Dict(es) => EntriesMeaning(es, key);
    case List(xs) => ItemsMeaning(xs, key);
    case _ =>
  }

  lemma {:induction false} EntriesMeaning(es: seq<(Key, Value)>, key: string)
    ensures forall x :: x in FindAllEntries(es, key) ==> (KStr(key), x) in EntriesOf(es)
    ensures FindAllEntries(es, key) == [] <==> KeyAbsent(EntriesOf(es), key)
    decreases es
  {
    if es != [] {
      EntryMeaning(es[0], key);
      EntriesMeaning(es[1..], key);
      var below := EntriesBelow(es[0]);
      var rest := EntriesOf(es[1..]);
      assert EntriesOf(es) == [es[0]] + below + rest;
      if KeyAbsent(EntriesOf(es), key) {
        assert KeyAbsent(below, key) by {
          forall i | 0 <= i < |below| ensures below[i].0 != KStr(key) {
            assert below[i] == EntriesOf(es)[1 + i];
          }
        }
        assert KeyAbsent(rest, key) by {
          forall i | 0 <= i < |rest| ensures rest[i].0 != KStr(key) {
            assert rest[i] == EntriesOf(es)[1 + |below| + i];
          }
        }
        assert es[0].0 == EntriesOf(es)[0].0;
      }
      if FindAllEntries(es, key) == [] {
        forall i | 0 <= i < |EntriesOf(es)| ensures EntriesOf(es)[i].0 != KStr(key) {
          if i == 0 {
          } else if i < 1 + |below| {
            assert EntriesOf(es)[i] == below[i - 1];
          } else {
            assert EntriesOf(es)[i] == rest[i - 1 - |below|];
          }
        }
      }
    }
  }

  lemma {:induction false} EntryMeaning(e: (Key, Value), key: string)
    ensures forall x :: x in EntryAll(e, key) ==> (KStr(key), x) in [e] + EntriesBelow(e)
    ensures EntryAll(e, key) == [] <==> e.0 != KStr(key) && KeyAbsent(EntriesBelow(e), key)
    decreases e
  {
    FindAllMeaning(e.1, key);
  }

  lemma {:induction false} ItemsMeaning(xs: seq<Value>, key: string)
    ensures forall x :: x in FindAllItems(xs, key) ==> (KStr(key), x) in EntriesOfItems(xs)
    ensures FindAllItems(xs, key) == [] <==> KeyAbsent(EntriesOfItems(xs), key)
    decreases xs
  {
    if xs != [] {
      FindAllMeaning(xs[0], key);
      ItemsMeaning(xs[1..], key);
      var first := Entries(xs[0]);
      var rest := EntriesOfItems(xs[1..]);
      if KeyAbsent(EntriesOfItems(xs), key) {
        assert KeyAbsent(first, key) by {
          forall i | 0 <= i < |first| ensures first[i].0 != KStr(key) {
            assert first[i] == EntriesOfItems(xs)[i];
          }
        }
        assert KeyAbsent(rest, key) by {
          forall i | 0 <= i < |rest| ensures rest[i].0 != KStr(key) {
            assert rest[i] == EntriesOfItems(xs)[|first| + i];
          }
        }
      }
    }
  }

  /** A value stored under `key` is reported whole: the search does not look inside it, so a
      key nested under a match is not reported again. */
  lemma NestedMatchNotReported(key: string, inner: Value)
    ensures
      var w := Dict([(KStr(key), inner)]);
      var d := Dict([(KStr(key), w)]);
      FindAll(d, key) == [w] && (KStr(key), inner) in Entries(d) && inner !in FindAll(d, key)
  {
    var w := Dict([(KStr(key), inner)]);
    var es := [(KStr(key), w)];
    var ws := [(KStr(key), inner)];
    assert es[1..] == [] && ws[1..] == [];
    assert FindAllEntries(es, key) == EntryAll(es[0], key) + FindAllEntries([], key);
    assert Entries(w) == EntriesOf(ws) == [ws[0]] + EntriesBelow(ws[0]) + EntriesOf([]);
    assert Entries(Dict(es)) == EntriesOf(es) == [es[0]] + EntriesBelow(es[0]) + EntriesOf([]);
    assert EntriesBelow(es[0]) == Entries(w);
    assert Entries(Dict(es))[1] == ws[0];
  }

  /** The values of the entries of `es` stored under the string key `key`, in order. */
  function ValuesUnder(es: seq<(Key, Value)>, key: string): (vs: seq<Value>)
    ensures |vs| <= |es|
    ensures forall v :: v in vs ==> (KStr(key), v) in es
  {
    if es == [] then [] else (if es[0].0 == KStr(key) then [es[0].1] else []) + ValuesUnder(es[1..], key)
  }

  lemma {:induction false} ValuesUnderAppend(a: seq<(Key, Value)>, b: seq<(Key, Value)>, key: string)
    ensures ValuesUnder(a + b, key) == ValuesUnder(a, key) + ValuesUnder(b, key)
    decreases a
  {
    if a == [] {
      assert a + b == b;
    } else {
      var head := if a[0].0 == KStr(key) then [a[0].1] else [];
      assert (a + b)[0] == a[0] && (a + b)[1..] == a[1..] + b;
      assert ValuesUnder(a + b, key) == head + ValuesUnder(a[1..] + b, key);
      ValuesUnderAppend(a[1..], b, key);
      assert head + (ValuesUnder(a[1..], key) + ValuesUnder(b, key)) ==
        (head + ValuesUnder(a[1..], key)) + ValuesUnder(b, key);
    }
  }

  lemma {:induction false} ValuesUnderAbsent(es: seq<(Key, Value)>, key: string)
    requires KeyAbsent(es, key)
    ensures ValuesUnder(es, key) == []
    decreases es
  {
    if es != [] {
      ValuesUnderAbsent(es[1..], key);
    }
  }

  /** No value stored under `key` holds the key again anywhere inside it. */
  predicate NoNestedMatch(es: seq<(Key, Value)>, key: string) {
    forall i :: 0 <= i < |es| && es[i].0 == KStr(key) ==> KeyAbsent(Entries(es[i].1), key)
  }

  lemma NoNestedMatchSplit(a: seq<(Key, Value)>, b: seq<(Key, Value)>, key: string)
    requires NoNestedMatch(a + b, key)
    ensures NoNestedMatch(a, key) && NoNestedMatch(b, key)
  {
    forall i | 0 <= i < |a| ensures a[i] == (a + b)[i] { }
    forall i | 0 <= i < |b| ensures b[i] == (a + b)[|a| + i] { }
  }

  /** Completeness: when no match holds the key again inside it, `find_values_in_dict`
      reports every value stored under `key`, in the depth-first insertion order of the
      independent entry list. */
  lemma {:induction false} FindAllComplete(d: Value, key: string)
    requires NoNestedMatch(Entries(d), key)
    ensures FindAll(d, key) == ValuesUnder(Entries(d), key)
    decreases d
  {
    match d
    case Dict(es) => EntriesComplete(es, key);
    case List(xs) => ItemsComplete(xs, key);
    case _ =>
  }

  lemma {:induction false} EntriesComplete(es: seq<(Key, Value)>, key: string)
    requires NoNestedMatch(EntriesOf(es), key)
    ensures FindAllEntries(es, key) == ValuesUnder(EntriesOf(es), key)
    decreases es
  {
    if es != [] {
      var head := [es[0]] + EntriesBelow(es[0]);
      var rest := EntriesOf(es[1..]);
      assert EntriesOf(es) == head + rest;
      NoNestedMatchSplit(head, rest, key);
      EntryComplete(es[0], key);
      EntriesComplete(es[1..], key);
      ValuesUnderAppend(head, rest, key);
    }
  }

  lemma {:induction false} EntryComplete(e: (Key, Value), key: string)
    requires NoNestedMatch([e] + EntriesBelow(e), key)
    ensures EntryAll(e, key) == ValuesUnder([e] + EntriesBelow(e), key)
    decreases e
  {
    var below := EntriesBelow(e);
    ValuesUnderAppend([e], below, key);
    NoNestedMatchSplit([e], below, key);
    assert ValuesUnder([e], key) == (if e.0 == KStr(key) then [e.1] else []);
    if e.0 == KStr(key) {
      assert ([e] + below)[0] == e;
      ValuesUnderAbsent(below, key);
    } else if IsContainer(e.1) {
      FindAllComplete(e.1, key);
    }
  }

  lemma {:induction false} ItemsComplete(xs: seq<Value>, key: string)
    requires NoNestedMatch(EntriesOfItems(xs), key)
    ensures FindAllItems(xs, key) == ValuesUnder(EntriesOfItems(xs), key)
    decreases xs
  {
    if xs != [] {
      NoNestedMatchSplit(Entries(xs[0]), EntriesOfItems(xs[1..]), key);
      FindAllComplete(xs[0], key);
      ItemsComplete(xs[1..], key);
      ValuesUnderAppend(Entries(xs[0]), EntriesOfItems(xs[1..]), key);
    }
  }

  /** A value stored under `key` is reported whole and nothing inside it is searched: in any
      dict, that entry contributes exactly its value, whatever the value holds. */
  lemma {:induction false} MatchReportedWhole(pre: seq<(Key, Value)>, key: string, w: Value, post: seq<(Key, Value)>)
    ensures FindAllEntries(pre + [(KStr(key), w)] + post, key) ==
      FindAllEntries(pre, key) + [w] + FindAllEntries(post, key)
    decreases pre
  {
    var es := pre + [(KStr(key), w)] + post;
    if pre == [] {
      assert es[0] == (KStr(key), w) && es[1..] == post;
    } else {
      assert es[0] == pre[0];
      assert es[1..] == pre[1..] + [(KStr(key), w)] + post;
      MatchReportedWhole(pre[1..], key, w, post);
    }
  }

  // ----- find_value_in_dict -----

  /** `find_value_in_dict(d, key, default)`: the first value found under `key`, depth first,
      where a nested search that gives None (Python's `None`, here `Null`) counts as not found,
      and `default` when the loops finish. */
  function FindValue(d: Value, key: string, default: Value): Value
    decreases d
  {
    match d
    case Dict(es) => (match FindInEntries(es, key, default) case Some(v) => v case None => default)
    case List(xs) => (match FindInItems(xs, key, default) case Some(v) => v case None => default)
    case _ => default
  }

  /** `if result is not None: return result` */
  function NotNone(result: Value): Option<Value> {
    if result != Null then Some(result) else None
  }

  /** The dict loop: `Some` when it returns early, `None` when it runs to its end. */
  function FindInEntries(es: seq<(Key, Value)>, key: string, default: Value): Option<Value>
    decreases es
  {
    if es == [] then None
    else match EntryFind(es[0], key, default)
      case Some(v) => Some(v)
      case None => FindInEntries(es[1..], key, default)
  }

  function EntryFind(e: (Key, Value), key: string, default: Value): Option<Value>
    decreases e
  {
    if e.0 == KStr(key) then Some(e.1)
    else if IsContainer(e.1) then NotNone(FindValue(e.1, key, default))
    else None
  }

  /** The list loop: every item is searched, container or not. */
  function FindInItems(xs: seq<Value>, key: string, default: Value): Option<Value>
    decreases xs
  {
    if xs == [] then None
    else match NotNone(FindValue(xs[0], key, default))
      case Some(v) => Some(v)
      case None => FindInItems(xs[1..], key, default)
  }

  /** The first element of a list of values, or None. */
  function FirstOr(vs: seq<Value>, default: Value): (r: Value)
    ensures vs != [] ==> r == vs[0]
    ensures vs == [] ==> r == default
  {
    if vs == [] then default else vs[0]
  }

  /** With the default None, and no None among the values stored under `key`, the single search
      gives the first value the full search gives, or None when there is none. */
  lemma {:induction false} FindValueIsFirst(d: Value, key: string)
    requires Null !in FindAll(d, key)
    ensures FindValue(d, key, Null) == FirstOr(FindAll(d, key), Null)
    decreases d
  {
    match d
    case Dict(es) => FindInEntriesIsFirst(es, key);
    case List(xs) => FindInItemsIsFirst(xs, key);
    case _ =>
  }

  lemma {:induction false} FindInEntriesIsFirst(es: seq<(Key, Value)>, key: string)
    requires Null !in FindAllEntries(es, key)
    ensures FindInEntries(es, key, Null) == if FindAllEntries(es, key) == [] then None else Some(FindAllEntries(es, key)[0])
    decreases es
  {
    if es != [] {
      EntryFindIsFirst(es[0], key);
      FindInEntriesIsFirst(es[1..], key);
    }
  }

  lemma {:induction false} EntryFindIsFirst(e: (Key, Value), key: string)
    requires Null !in EntryAll(e, key)
    ensures EntryFind(e, key, Null) == if EntryAll(e, key) == [] then None else Some(EntryAll(e, key)[0])
    decreases e
  {
    if e.0 != KStr(key) && IsContainer(e.1) {
      FindValueIsFirst(e.1, key);
    }
  }

  lemma {:induction false} FindInItemsIsFirst(xs: seq<Value>, key: string)
    requires Null !in FindAllItems(xs, key)
    ensures FindInItems(xs, key, Null) == if FindAllItems(xs, key) == [] then None else Some(FindAllItems(xs, key)[0])
    decreases xs
  {
    if xs != [] {
      FindValueIsFirst(xs[0], key);
      FindInItemsIsFirst(xs[1..], key);
    }
  }

  /** A tree without the key gives the default, whatever the default is. */
  lemma {:induction false} AbsentGivesDefault(d: Value, key: string, default: Value)
    requires FindAll(d, key) == []
    ensures FindValue(d, key, default) == default
    decreases d
  {
    match d
    case Dict(es) => AbsentEntriesGiveDefault(es, key, default);
    case List(xs) => AbsentItemsGiveDefault(xs, key, default);
    case _ =>
  }

  lemma {:induction false} AbsentEntriesGiveDefault(es: seq<(Key, Value)>, key: string, default: Value)
    requires FindAllEntries(es, key) == []
    ensures FindInEntries(es, key, default) == None || FindInEntries(es, key, default) == Some(default)
    decreases es
  {
    if es != [] {
      AbsentEntryGivesDefault(es[0], key, default);
      AbsentEntriesGiveDefault(es[1..], key, default);
    }
  }

  lemma {:induction false} AbsentEntryGivesDefault(e: (Key, Value), key: string, default: Value)
    requires EntryAll(e, key) == []
    ensures EntryFind(e, key, default) == None || EntryFind(e, key, default) == Some(default)
    decreases e
  {
    if IsContainer(e.1) {
      AbsentGivesDefault(e.1, key, default);
    }
  }

  lemma {:induction false} AbsentItemsGiveDefault(xs: seq<Value>, key: string, default: Value)
    requires FindAllItems(xs, key) == []
    ensures FindInItems(xs, key, default) == None || FindInItems(xs, key, default) == Some(default)
    decreases xs
  {
    if xs != [] {
      AbsentGivesDefault(xs[0], key, default);
      AbsentItemsGiveDefault(xs[1..], key, default);
    }
  }

  /** A match in the top-level dict is returned as it is, even when it is None, once no entry
      before it holds the key anywhere. */
  lemma {:induction false} TopLevelMatchReturned(es: seq<(Key, Value)>, key: string)
    requires HasKey(es, KStr(key))
    requires FindAllEntries(es[..KeyIndex(es, KStr(key))], key) == []
    ensures FindValue(Dict(es), key, Null) == Lookup(es, KStr(key)).value
    decreases es
  {
    var i := KeyIndex(es, KStr(key));
    if i > 0 {
      assert es[..i][0] == es[0] && es[..i][1..] == es[1..][..i - 1];
      assert FindAllEntries(es[..i], key) == EntryAll(es[0], key) + FindAllEntries(es[1..][..i - 1], key);
      AbsentEntryGivesDefault(es[0], key, Null);
      assert EntryFind(es[0], key, Null) == None;
      assert FindInEntries(es, key, Null) == FindInEntries(es[1..], key, Null);
      assert HasKey(es[1..], KStr(key)) by {
        assert es[1..][i - 1].0 == KStr(key);
      }
      assert KeyIndex(es[1..], KStr(key)) == i - 1;
      TopLevelMatchReturned(es[1..], key);
      assert Lookup(es[1..], KStr(key)).value == es[i].1;
    } else {
      assert EntryFind(es[0], key, Null) == Some(es[0].1);
    }
  }

  /** With a default other than None, the first nested container that lacks the key ends the
      search with the default: a later entry stored under the key is never reached. */
  lemma DefaultHidesLaterMatch(key: string, v: Value, default: Value)
    requires key != "a" && default != Null
    ensures
      var d := Dict([(KStr("a"), Dict([])), (KStr(key), v)]);
      FindAll(d, key) == [v] && FindValue(d, key, default) == default
  {
    var es := [(KStr("a"), Dict([])), (KStr(key), v)];
    assert es[1..] == [(KStr(key), v)];
    assert es[1..][1..] == [];
    assert FindAll(Dict([]), key) == FindAllEntries([], key) == [];
    assert FindAllEntries(es[1..], key) == [v] + FindAllEntries([], key);
    assert FindAllEntries(es, key) == EntryAll(es[0], key) + FindAllEntries(es[1..], key);
    assert FindValue(Dict([]), key, default) == default;
    assert EntryFind(es[0], key, default) == Some(default);
  }

  /** With a default other than None, and no None stored under `key`, the search never gives
      None: a nested search always counts as found, so it ends the search. */
  lemma {:induction false} DefaultNeverNone(d: Value, key: string, default: Value)
    requires default != Null && Null !in FindAll(d, key)
    ensures FindValue(d, key, default) != Null
  {
    match d
    case Dict(es) => EntriesNeverNone(es, key, default);
    case List(xs) => ItemsNeverNone(xs, key, default);
    case _ =>
  }

  lemma {:induction false} EntriesNeverNone(es: seq<(Key, Value)>, key: string, default: Value)
    requires Null !in FindAllEntries(es, key)
    ensures FindInEntries(es, key, default) != Some(Null)
    decreases es
  {
    if es != [] {
      EntriesNeverNone(es[1..], key, default);
    }
  }

  lemma {:induction false} ItemsNeverNone(xs: seq<Value>, key: string, default: Value)
    ensures FindInItems(xs, key, default) != Some(Null)
    decreases xs
  {
    if xs != [] {
      ItemsNeverNone(xs[1..], key, default);
    }
  }

  /** With a default other than None, the first item of a non-empty list decides: the later
      items are never searched. */
  lemma FirstItemDecides(xs: seq<Value>, key: string, default: Value)
    requires default != Null && Null !in FindAllItems(xs, key) && xs != []
    ensures FindValue(List(xs), key, default) == FindValue(xs[0], key, default)
  {
    DefaultNeverNone(xs[0], key, default);
  }

  /** With a default other than None, the first entry stored under `key` or holding a
      container decides: its value, or the nested search's result, default included. The
      later entries are never searched. */
  lemma {:induction false} FirstEntryDecides(es: seq<(Key, Value)>, key: string, default: Value, i: nat)
    requires default != Null && Null !in FindAllEntries(es, key)
    requires i < |es| && (es[i].0 == KStr(key) || IsContainer(es[i].1))
    requires forall j :: 0 <= j < i ==> es[j].0 != KStr(key) && !IsContainer(es[j].1)
    ensures FindValue(Dict(es), key, default) ==
      if es[i].0 == KStr(key) then es[i].1 else FindValue(es[i].1, key, default)
  {
    FirstEntryFinds(es, key, default, i);
  }

  lemma {:induction false} FirstEntryFinds(es: seq<(Key, Value)>, key: string, default: Value, i: nat)
    requires default != Null && Null !in FindAllEntries(es, key)
    requires i < |es| && (es[i].0 == KStr(key) || IsContainer(es[i].1))
    requires forall j :: 0 <= j < i ==> es[j].0 != KStr(key) && !IsContainer(es[j].1)
    ensures FindInEntries(es, key, default) ==
      Some(if es[i].0 == KStr(key) then es[i].1 else FindValue(es[i].1, key, default))
    decreases i
  {
    if i == 0 {
      if es[0].0 != KStr(key) {
        DefaultNeverNone(es[0].1, key, default);
      }
    } else {
      assert EntryFind(es[0], key, default) == None;
      var tail := es[1..];
      forall j | 0 <= j < i - 1 ensures tail[j].0 != KStr(key) && !IsContainer(tail[j].1) {
        assert tail[j] == es[j + 1];
      }
      FirstEntryFinds(tail, key, default, i - 1);
    }
  }

  /** `find_value_in_dict` as its default parameter is evidently meant: the search runs with
      None as its not-found mark, and the default replaces None only at the end. */
  function FindValueOr(d: Value, key: string, default: Value): Value {
    var r := FindValue(d, key, Null);
    if r == Null then default else r
  }

  /** The corrected search gives the first value stored under `key`, or the default. */
  lemma FindValueOrIsFirst(d: Value, key: string, default: Value)
    requires Null !in FindAll(d, key)
    ensures FindValueOr(d, key, default) == FirstOr(FindAll(d, key), default)
  {
    FindValueIsFirst(d, key);
  }

  /** With the default None, which is how every call in the program passes it, the corrected
      search and the search as written agree. */
  lemma FindValueOrAgrees(d: Value, key: string)
    ensures FindValueOr(d, key, Null) == FindValue(d, key, Null)
  {
  }

  // ----- get_prompt_text -----

  /** `get_prompt_text(prompts)`: the prompt values joined by newlines; no list, or an empty
      one, gives "". */
  function GetPromptText(prompts: Option<seq<string>>): string {
    if prompts.None? || prompts.value == [] then "" else Join(prompts.value, '\n')
  }

  /** The prompt text splits back into the prompt values when they hold no newline. */
  lemma PromptTextSplits(prompts: seq<string>)
    requires prompts != []
    requires forall p :: p in prompts ==> '\n' !in p
    ensures Split(GetPromptText(Some(prompts)), '\n') == prompts
  {
    SplitJoin(prompts, '\n');
  }

  /** No prompt list gives the empty text. */
  lemma NoPromptsGiveEmptyText(prompts: Option<seq<string>>)
    requires prompts.None? || prompts.value == []
    ensures GetPromptText(prompts) == ""
  {
  }

  // ----- Checkpoint names -----

  /** `model['content'] if isinstance(model, dict) else model`: a dict without 'content'
      raises KeyError. */
  function UnwrapModel(model: Value): (r: Result<Value>)
    ensures r.Err? ==> r.failure == KeyError
  {
    if !model.Dict? then Ok(model)
    else if HasKey(model.entries, KStr("content")) then Ok(Lookup(model.entries, KStr("content")).value)
    else Err(KeyError)
  }

  /** The list comprehension over the found models, left to right. */
  function UnwrapModels(models: seq<Value>): Result<seq<Value>> {
    if models == [] then Ok([])
    else match UnwrapModel(models[0])
      case Err(f) => Err(f)
      case Ok(m) =>
        match UnwrapModels(models[1..])
        case Err(f) => Err(f)
        case Ok(ms) => Ok([m] + ms)
  }

  /** The model names of the parameters: every value stored under 'ckpt_name', with a dict
      replaced by its 'content'. */
  function ModelNames(parameters: Value): Result<seq<Value>> {
    UnwrapModels(FindAll(parameters, "ckpt_name"))
  }

  /** The unwrapping succeeds exactly when every dict among the models holds 'content'; it then
      keeps one name per model, in order, and a failure is a KeyError. */
  lemma {:induction false} UnwrapModelsMeaning(models: seq<Value>)
    ensures UnwrapModels(models).Ok? <==>
      forall i :: 0 <= i < |models| && models[i].Dict? ==> HasKey(models[i].entries, KStr("content"))
    ensures UnwrapModels(models).Err? ==> UnwrapModels(models).failure == KeyError
    ensures UnwrapModels(models).Ok? ==>
      |UnwrapModels(models).value| == |models| &&
      forall i :: 0 <= i < |models| ==> UnwrapModel(models[i]) == Ok(UnwrapModels(models).value[i])
  {
    if models != [] {
      UnwrapModelsMeaning(models[1..]);
      assert forall i :: 0 < i < |models| ==> models[1..][i - 1] == models[i];
    }
  }

  /** Models that are not dicts are passed through unchanged. */
  lemma PlainModelsUnchanged(parameters: Value)
    requires forall m :: m in FindAll(parameters, "ckpt_name") ==> !m.Dict?
    ensures ModelNames(parameters) == Ok(FindAll(parameters, "ckpt_name"))
  {
    var models := FindAll(parameters, "ckpt_name");
    UnwrapModelsMeaning(models);
    assert forall i :: 0 <= i < |models| ==> UnwrapModel(models[i]) == Ok(models[i]);
    assert UnwrapModels(models).value == models;
  }

  // ----- find_positive_prompt_data -----

  /** The node lists `find_positive_prompt_data` visits in one section: under the key
      'workflow', the section's `nodes`; under any other dict section, the `nodes` of its dict
      'workflow' entry. */
  function PromptDataSection(entry: (Key, Value)): seq<Value> {
    if entry.0 == KStr("workflow") && entry.1.Dict? then
      (if HasKey(entry.1.entries, KStr("nodes")) then [Lookup(entry.1.entries, KStr("nodes")).value] else [])
    else if entry.1.Dict? then FlatMap(entry.1.entries, InnerStep)
    else []
  }

  function PromptDataSources(metadata: seq<(Key, Value)>): seq<Value> {
    FlatMap(metadata, PromptDataSection)
  }

  /** The body of the section loop of `find_positive_prompt_data`. */
  method CollectPromptDataSection(key: Key, section: Value) returns (r: Result<seq<Value>>)
    ensures r == ScanAll(PromptDataSection((key, section)), ShowTextNode, NodeNameKey, ShowTextNode)
  {
    if key == KStr("workflow") && section.Dict? {
      if HasKey(section.entries, KStr("nodes")) {
        var nodes := Lookup(section.entries, KStr("nodes")).value;
        r := CollectNodeTexts(nodes, ShowTextNode, NodeNameKey, ShowTextNode);
        ScanAllSingle(nodes, ShowTextNode, NodeNameKey, ShowTextNode);
      } else {
        r := Ok([]);
      }
    } else if section.Dict? {
      r := CollectInnerTexts(section.entries, ShowTextNode, NodeNameKey, ShowTextNode);
    } else {
      r := Ok([]);
    }
  }

  /** `find_positive_prompt_data(metadata)`: the texts of the ShowText nodes of every node list
      visited, in order, or the first exception raised. */
  method FindPositivePromptData(metadata: seq<(Key, Value)>) returns (r: Result<seq<Value>>)
    ensures r == ScanAll(PromptDataSources(metadata), ShowTextNode, NodeNameKey, ShowTextNode)
  {
    var found: seq<Value> := [];
    for i := 0 to |metadata|
      invariant ScanAll(FlatMap(metadata[..i], PromptDataSection), ShowTextNode, NodeNameKey, ShowTextNode) == Ok(found)
    {
      FlatMapSnoc(metadata, i, PromptDataSection);
      FlatMapPrefix(metadata, i + 1, PromptDataSection);
      var (key, section) := metadata[i];
      var scanned := CollectPromptDataSection(key, section);
      ScanAllAppend(FlatMap(metadata[..i], PromptDataSection), PromptDataSection(metadata[i]), ShowTextNode, NodeNameKey, ShowTextNode);
      if scanned.Err? {
        ScanAllStops(FlatMap(metadata[..i + 1], PromptDataSection), PromptDataSources(metadata), ShowTextNode, NodeNameKey, ShowTextNode);
        return Err(scanned.failure);
      }
      found := found + scanned.value;
    }
    assert metadata[..|metadata|] == metadata;
    return Ok(found);
  }

  /** Under the key 'workflow', the nodes are the section's own `nodes`. */
  lemma WorkflowSectionReadsOwnNodes(section: seq<(Key, Value)>)
    ensures PromptDataSources([(KStr("workflow"), Dict(section))]) ==
      if HasKey(section, KStr("nodes")) then [Lookup(section, KStr("nodes")).value] else []
  {
    var md := [(KStr("workflow"), Dict(section))];
    assert md[..0] == [];
    assert PromptDataSources(md) == FlatMap(md[..0], PromptDataSection) + PromptDataSection(md[0]);
  }

  /** Under any other key, the nodes come from the section's dict 'workflow' entry, and only
      when that entry holds `nodes`. */
  lemma {:induction false} OtherSectionReadsWorkflowNodes(key: Key, section: seq<(Key, Value)>)
    requires key != KStr("workflow") && DistinctKeys(section)
    ensures
      var wf := Lookup(section, KStr("workflow"));
      PromptDataSources([(key, Dict(section))]) ==
        if wf.Some? && wf.value.Dict? && HasKey(wf.value.entries, KStr("nodes"))
        then [Lookup(wf.value.entries, KStr("nodes")).value]
        else []
  {
    var md := [(key, Dict(section))];
    assert md[..0] == [];
    assert PromptDataSection(md[0]) == FlatMap(section, InnerStep);
    assert PromptDataSources(md) == FlatMap(md[..0], PromptDataSection) + PromptDataSection(md[0]);
    if HasKey(section, KStr("workflow")) {
      var k := KeyIndex(section, KStr("workflow"));
      FlatMapSingle(section, k, InnerStep);
    } else {
      FlatMapEmpty(section, InnerStep);
    }
  }
}
