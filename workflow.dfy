/** The workflow-node filter that scripts/metadata_extractor.py and scripts/tests/metadata_tester.py
    repeat in each of their functions: pick the nodes of a node list whose `type` and
    `properties[node_key]` match, take `widget[0]` of every list-typed widget value, and, in the
    keyword variant, report every keyword that occurs in that text, ignoring case.

    A Python loop that raises part-way leaves nothing behind, so a loop over steps that each
    produce a list or raise is modelled by `Concat`: the step outputs joined in order, or the
    first failure. */
module Workflow {
  import opened Json
  import opened Text

  /** The node type and node name the organizer looks for. */
  const ShowTextNode: string := "ShowText|pysssss"
  /** The `properties` key that holds a node's name. */
  const NodeNameKey: string := "Node name for S&R"

  // ----- Steps that each produce a list or raise -----

  /** One more step after `acc`: its output is appended, unless either of them raised. */
  function Append<T>(acc: Result<seq<T>>, next: Result<seq<T>>): Result<seq<T>> {
    if acc.Err? then acc else if next.Err? then Err(next.failure) else Ok(acc.value + next.value)
  }

  /** The steps `rs` run in order. */
  function Concat<T>(rs: seq<Result<seq<T>>>): Result<seq<T>> {
    if rs == [] then Ok([]) else Append(Concat(rs[..|rs| - 1]), rs[|rs| - 1])
  }

  lemma ConcatSnoc<T>(rs: seq<Result<seq<T>>>, i: nat)
    requires i < |rs|
    ensures Concat(rs[..i + 1]) == Append(Concat(rs[..i]), rs[i])
  {
    assert rs[..i + 1][..i] == rs[..i];
  }

  /** Once a step has raised, the later steps change nothing. */
  lemma {:induction false} ConcatSticky<T>(rs: seq<Result<seq<T>>>, i: nat)
    requires i <= |rs| && Concat(rs[..i]).Err?
    ensures Concat(rs) == Concat(rs[..i])
    decreases |rs| - i
  {
    if i < |rs| {
      ConcatSnoc(rs, i);
      ConcatSticky(rs, i + 1);
    } else {
      assert rs[..i] == rs;
    }
  }

  /** The steps succeed together exactly when each one succeeds. */
  lemma {:induction false} ConcatOkIff<T>(rs: seq<Result<seq<T>>>)
    ensures Concat(rs).Ok? <==> forall i :: 0 <= i < |rs| ==> rs[i].Ok?
  {
    if rs != [] {
      var n := |rs| - 1;
      ConcatOkIff(rs[..n]);
      assert forall i :: 0 <= i < n ==> rs[..n][i] == rs[i];
    }
  }

  /** A failure is the failure of the first step that raised. */
  lemma {:induction false} ConcatFirstFailure<T>(rs: seq<Result<seq<T>>>)
    requires Concat(rs).Err?
    ensures exists i :: 0 <= i < |rs| && rs[i] == Err(Concat(rs).failure) &&
                        forall j :: 0 <= j < i ==> rs[j].Ok?
  {
    var n := |rs| - 1;
    var pre := rs[..n];
    assert forall i :: 0 <= i < n ==> pre[i] == rs[i];
    if Concat(pre).Err? {
      ConcatFirstFailure(pre);
      var i :| 0 <= i < n && pre[i] == Err(Concat(pre).failure) && forall j :: 0 <= j < i ==> pre[j].Ok?;
      assert rs[i] == Err(Concat(rs).failure);
    } else {
      ConcatOkIff(pre);
      assert rs[n] == Err(Concat(rs).failure);
    }
  }

  /** When every step output lies in `allowed`, so does the joined output. */
  lemma {:induction false} ConcatWithin<T>(rs: seq<Result<seq<T>>>, allowed: set<T>)
    requires forall i :: 0 <= i < |rs| && rs[i].Ok? ==> forall x :: x in rs[i].value ==> x in allowed
    ensures Concat(rs).Ok? ==> forall x :: x in Concat(rs).value ==> x in allowed
  {
    if rs != [] {
      var n := |rs| - 1;
      assert forall i :: 0 <= i < n ==> rs[..n][i] == rs[i];
      ConcatWithin(rs[..n], allowed);
    }
  }

  /** When each successful step output is mapped by `h` to the output of the matching step of
      `qs`, and `h` distributes over concatenation, `h` maps the joined outputs as well. */
  lemma {:induction false} ConcatMapped<A, B>(rs: seq<Result<seq<A>>>, qs: seq<Result<seq<B>>>,
                                              h: seq<A> -> seq<B>, p: A -> bool)
    requires |rs| == |qs|
    requires h([]) == []
    requires forall a, b :: h(a + b) == h(a) + h(b)
    requires forall i :: 0 <= i < |rs| && rs[i].Ok? && (forall x :: x in rs[i].value ==> p(x)) ==>
      qs[i] == Ok(h(rs[i].value))
    ensures Concat(rs).Ok? && (forall x :: x in Concat(rs).value ==> p(x)) ==>
      Concat(qs) == Ok(h(Concat(rs).value))
  {
    if rs != [] && Concat(rs).Ok? && (forall x :: x in Concat(rs).value ==> p(x)) {
      var n := |rs| - 1;
      assert forall i :: 0 <= i < n ==> rs[..n][i] == rs[i] && qs[..n][i] == qs[i];
      ConcatMapped(rs[..n], qs[..n], h, p);
      assert Concat(rs).value == Concat(rs[..n]).value + rs[n].value;
      assert h(Concat(rs).value) == h(Concat(rs[..n]).value) + h(rs[n].value);
    }
  }

  /** Running two lists of steps one after the other. */
  lemma {:induction false} ConcatAppend<T>(rs: seq<Result<seq<T>>>, qs: seq<Result<seq<T>>>)
    ensures Concat(rs + qs) == Append(Concat(rs), Concat(qs))
    decreases |qs|
  {
    if qs == [] {
      assert rs + qs == rs;
      if Concat(rs).Ok? {
        assert Concat(rs).value + [] == Concat(rs).value;
      }
    } else {
      var n := |qs| - 1;
      ConcatAppend(rs, qs[..n]);
      assert (rs + qs)[..|rs + qs| - 1] == rs + qs[..n];
      if Concat(rs).Ok? && Concat(qs[..n]).Ok? && qs[n].Ok? {
        assert Concat(rs).value + Concat(qs[..n]).value + qs[n].value ==
          Concat(rs).value + (Concat(qs[..n]).value + qs[n].value);
      }
    }
  }

  // ----- The node filter -----

  /** `node.get("type") == node_type and node.get("properties", {}).get(node_key) == node_name`:
      `get` on a value that is not a dict raises AttributeError, and a missing `properties`
      reads as an empty dict. */
  function NodeMatches(node: Value, nodeType: string, nodeKey: string, nodeName: string): (r: Result<bool>)
    ensures r == Ok(true) ==> node.Dict?
    ensures r.Err? ==> r.failure == AttributeError
    ensures r.Err? <==>
      || !node.Dict?
      || (&& Lookup(node.entries, KStr("type")) == Some(Str(nodeType))
          && HasKey(node.entries, KStr("properties"))
          && !Lookup(node.entries, KStr("properties")).value.Dict?)
  {
    match Get(node, "type", Null)
    case Err(f) => Err(f)
    case Ok(ty) =>
      if ty != Str(nodeType) then Ok(false)
      else match Get(node, "properties", Dict([]))
        case Err(f) => Err(f)
        case Ok(props) => match Get(props, nodeKey, Null)
          case Err(f) => Err(f)
          case Ok(name) => Ok(name == Str(nodeName))
  }

  /** A node is selected exactly when it is a dict whose `type` is `nodeType` and whose
      `properties` is a dict holding `nodeName` under `nodeKey`. */
  lemma NodeMatchesIff(node: Value, nodeType: string, nodeKey: string, nodeName: string)
    ensures NodeMatches(node, nodeType, nodeKey, nodeName) == Ok(true) <==>
      && node.Dict?
      && Lookup(node.entries, KStr("type")) == Some(Str(nodeType))
      && Lookup(node.entries, KStr("properties")).Some?
      && Lookup(node.entries, KStr("properties")).value.Dict?
      && Lookup(Lookup(node.entries, KStr("properties")).value.entries, KStr(nodeKey)) == Some(Str(nodeName))
  {
  }

  /** `node.get("widgets_values", [])` */
  function WidgetsValue(node: Value): Value
    requires node.Dict?
  {
    Get(node, "widgets_values", List([])).value
  }

  /** One widget value: `if isinstance(widget, list): text_value = widget[0]`, where `widget[0]`
      of an empty list raises IndexError. */
  function WidgetText(w: Value): Result<seq<Value>> {
    if !w.List? then Ok([]) else if w.items == [] then Err(IndexError) else Ok([w.items[0]])
  }

  function WidgetSteps(ws: seq<Value>): (rs: seq<Result<seq<Value>>>)
    ensures |rs| == |ws| && forall i :: 0 <= i < |ws| ==> rs[i] == WidgetText(ws[i])
  {
    seq(|ws|, i requires 0 <= i < |ws| => WidgetText(ws[i]))
  }

  /** The texts collected from the widget values of one selected node. */
  function WidgetTexts(ws: seq<Value>): Result<seq<Value>> {
    Concat(WidgetSteps(ws))
  }

  /** The list-typed widget values, in order. */
  function ListWidgets(ws: seq<Value>): (ls: seq<Value>)
    ensures forall l :: l in ls ==> l.List?
  {
    if ws == [] then []
    else ListWidgets(ws[..|ws| - 1]) + (if ws[|ws| - 1].List? then [ws[|ws| - 1]] else [])
  }

  /** The widget texts are the first items of the list-typed widget values, in order;
      other widget values are skipped, and an empty list raises IndexError. */
  lemma {:induction false} WidgetTextsAreListHeads(ws: seq<Value>)
    ensures WidgetTexts(ws).Ok? <==> forall i :: 0 <= i < |ws| ==> ws[i] != List([])
    ensures WidgetTexts(ws).Err? ==> WidgetTexts(ws).failure == IndexError
    ensures WidgetTexts(ws).Ok? ==>
      var out, ls := WidgetTexts(ws).value, ListWidgets(ws);
      |out| == |ls| && forall k :: 0 <= k < |ls| ==> ls[k].items != [] && out[k] == ls[k].items[0]
  {
    if ws != [] {
      var n := |ws| - 1;
      assert WidgetSteps(ws)[..n] == WidgetSteps(ws[..n]);
      assert forall i :: 0 <= i < n ==> ws[..n][i] == ws[i];
      WidgetTextsAreListHeads(ws[..n]);
    }
  }

  /** The texts of one node: nothing unless the node is selected. */
  function NodeTexts(node: Value, nodeType: string, nodeKey: string, nodeName: string): Result<seq<Value>> {
    match NodeMatches(node, nodeType, nodeKey, nodeName)
    case Err(f) => Err(f)
    case Ok(selected) =>
      if !selected then Ok([])
      else match Iterate(WidgetsValue(node))
        case Err(f) => Err(f)
        case Ok(ws) => WidgetTexts(ws)
  }

  /** A dict node without `properties` is never selected, whatever its widgets hold. */
  lemma NodeWithoutPropertiesGivesNothing(node: Value, nodeType: string, nodeKey: string, nodeName: string)
    requires node.Dict? && !HasKey(node.entries, KStr("properties"))
    ensures NodeTexts(node, nodeType, nodeKey, nodeName) == Ok([])
  {
  }

  /** A dict node of another type is never selected, whatever its properties or widgets hold. */
  lemma OtherTypeGivesNothing(node: Value, nodeType: string, nodeKey: string, nodeName: string)
    requires node.Dict? && Lookup(node.entries, KStr("type")) != Some(Str(nodeType))
    ensures NodeTexts(node, nodeType, nodeKey, nodeName) == Ok([])
  {
  }

  function NodeSteps(ns: seq<Value>, nodeType: string, nodeKey: string, nodeName: string): (rs: seq<Result<seq<Value>>>)
    ensures |rs| == |ns| && forall i :: 0 <= i < |ns| ==> rs[i] == NodeTexts(ns[i], nodeType, nodeKey, nodeName)
  {
    seq(|ns|, i requires 0 <= i < |ns| => NodeTexts(ns[i], nodeType, nodeKey, nodeName))
  }

  /** `for node in nodes: ...`: the texts of every selected node, in node order. */
  function ScanNodes(nodes: Value, nodeType: string, nodeKey: string, nodeName: string): Result<seq<Value>> {
    match Iterate(nodes)
    case Err(f) => Err(f)
    case Ok(ns) => Concat(NodeSteps(ns, nodeType, nodeKey, nodeName))
  }

  /** The widget loop of one selected node. */
  method CollectWidgetTexts(ws: seq<Value>) returns (r: Result<seq<Value>>)
    ensures r == WidgetTexts(ws)
  {
    ghost var wsteps := WidgetSteps(ws);
    var found: seq<Value> := [];
    for j := 0 to |ws|
      invariant Concat(wsteps[..j]) == Ok(found)
    {
      ConcatSnoc(wsteps, j);
      var widget := ws[j];
      if widget.List? {
        if widget.items == [] {
          ConcatSticky(wsteps, j + 1);
          return Err(IndexError);
        }
        var text := widget.items[0];
        found := found + [text];
      } else {
        assert found + [] == found;
      }
    }
    assert wsteps[..|ws|] == wsteps;
    return Ok(found);
  }

  /** The node-list loop shared by the three filters, appending to the caller's output. */
  method CollectNodeTexts(nodes: Value, nodeType: string, nodeKey: string, nodeName: string)
    returns (r: Result<seq<Value>>)
    ensures r == ScanNodes(nodes, nodeType, nodeKey, nodeName)
  {
    var iter := Iterate(nodes);
    if iter.Err? {
      return Err(iter.failure);
    }
    var ns := iter.value;
    ghost var steps := NodeSteps(ns, nodeType, nodeKey, nodeName);
    var found: seq<Value> := [];
    for i := 0 to |ns|
      invariant Concat(steps[..i]) == Ok(found)
    {
      ConcatSnoc(steps, i);
      var node := ns[i];
      var selected := NodeMatches(node, nodeType, nodeKey, nodeName);
      if selected.Err? {
        ConcatSticky(steps, i + 1);
        return Err(selected.failure);
      }
      if selected.value {
        var widgets := Iterate(WidgetsValue(node));
        if widgets.Err? {
          ConcatSticky(steps, i + 1);
          return Err(widgets.failure);
        }
        var texts := CollectWidgetTexts(widgets.value);
        assert steps[i] == texts;
        if texts.Err? {
          ConcatSticky(steps, i + 1);
          return Err(texts.failure);
        }
        found := found + texts.value;
      } else {
        assert steps[i] == Ok([]);
        assert found + [] == found;
      }
    }
    assert steps[..|ns|] == steps;
    return Ok(found);
  }

  /** The node lists a filter visits, scanned in order. */
  function ScanSteps(sources: seq<Value>, nodeType: string, nodeKey: string, nodeName: string): (rs: seq<Result<seq<Value>>>)
    ensures |rs| == |sources| && forall i :: 0 <= i < |sources| ==> rs[i] == ScanNodes(sources[i], nodeType, nodeKey, nodeName)
  {
    seq(|sources|, i requires 0 <= i < |sources| => ScanNodes(sources[i], nodeType, nodeKey, nodeName))
  }

  function ScanAll(sources: seq<Value>, nodeType: string, nodeKey: string, nodeName: string): Result<seq<Value>> {
    Concat(ScanSteps(sources, nodeType, nodeKey, nodeName))
  }

  lemma ScanAllSnoc(sources: seq<Value>, x: Value, nodeType: string, nodeKey: string, nodeName: string)
    ensures ScanAll(sources + [x], nodeType, nodeKey, nodeName) ==
      Append(ScanAll(sources, nodeType, nodeKey, nodeName), ScanNodes(x, nodeType, nodeKey, nodeName))
  {
    assert ScanSteps(sources + [x], nodeType, nodeKey, nodeName)[..|sources|] == ScanSteps(sources, nodeType, nodeKey, nodeName);
  }

  /** Scanning one node list is scanning its nodes. */
  lemma ScanAllSingle(nodes: Value, nodeType: string, nodeKey: string, nodeName: string)
    ensures ScanAll([nodes], nodeType, nodeKey, nodeName) == ScanNodes(nodes, nodeType, nodeKey, nodeName)
  {
    var steps := ScanSteps([nodes], nodeType, nodeKey, nodeName);
    var r := ScanNodes(nodes, nodeType, nodeKey, nodeName);
    assert steps[..0] == [] && steps[0] == r;
    assert Concat(steps) == Append(Ok([]), r);
    assert r.Ok? ==> [] + r.value == r.value;
  }

  /** A scan that raised on a prefix of the node lists raises the same on all of them. */
  lemma ScanAllStops(sources: seq<Value>, longer: seq<Value>, nodeType: string, nodeKey: string, nodeName: string)
    requires sources <= longer && ScanAll(sources, nodeType, nodeKey, nodeName).Err?
    ensures ScanAll(longer, nodeType, nodeKey, nodeName) == ScanAll(sources, nodeType, nodeKey, nodeName)
  {
    var all := ScanSteps(longer, nodeType, nodeKey, nodeName);
    assert all[..|sources|] == ScanSteps(sources, nodeType, nodeKey, nodeName);
    ConcatSticky(all, |sources|);
  }

  /** Scanning two runs of node lists one after the other. */
  lemma ScanAllAppend(sources: seq<Value>, more: seq<Value>, nodeType: string, nodeKey: string, nodeName: string)
    ensures ScanAll(sources + more, nodeType, nodeKey, nodeName) ==
      Append(ScanAll(sources, nodeType, nodeKey, nodeName), ScanAll(more, nodeType, nodeKey, nodeName))
  {
    var all := ScanSteps(sources + more, nodeType, nodeKey, nodeName);
    assert all == ScanSteps(sources, nodeType, nodeKey, nodeName) + ScanSteps(more, nodeType, nodeKey, nodeName);
    ConcatAppend(ScanSteps(sources, nodeType, nodeKey, nodeName), ScanSteps(more, nodeType, nodeKey, nodeName));
  }

  // ----- Keyword matching -----

  /** `[keyword for keyword in keywords if keyword.lower() in text.lower()]` */
  function KeywordHits(text: string, keywords: seq<string>): (hits: seq<string>)
    ensures |hits| <= |keywords|
  {
    if keywords == [] then []
    else
      var k := keywords[|keywords| - 1];
      KeywordHits(text, keywords[..|keywords| - 1]) + (if Contains(Lower(text), Lower(k)) then [k] else [])
  }

  /** A keyword is reported exactly when it is one of `keywords` and occurs in the text once
      both are lower-cased. */
  lemma {:induction false} KeywordHitsIff(text: string, keywords: seq<string>, k: string)
    ensures k in KeywordHits(text, keywords) <==> k in keywords && Contains(Lower(text), Lower(k))
  {
    if keywords != [] {
      var n := |keywords| - 1;
      KeywordHitsIff(text, keywords[..n], k);
      assert keywords == keywords[..n] + [keywords[n]];
    }
  }

  /** Matching ignores case: texts that agree once lower-cased report the same keywords. */
  lemma {:induction false} KeywordHitsIgnoreCase(text: string, other: string, keywords: seq<string>)
    requires Lower(text) == Lower(other)
    ensures KeywordHits(text, keywords) == KeywordHits(other, keywords)
  {
    if keywords != [] {
      KeywordHitsIgnoreCase(text, other, keywords[..|keywords| - 1]);
    }
  }

  /** The keywords one widget value reports: `widget[0]` raises IndexError on an empty list,
      and `text_value.lower()` raises AttributeError on a non-string, but only once the
      keyword loop runs. */
  function WidgetKeywords(w: Value, keywords: seq<string>): Result<seq<string>> {
    if !w.List? then Ok([])
    else if w.items == [] then Err(IndexError)
    else TextKeywords(w.items[0], keywords)
  }

  /** `for keyword in keywords: if keyword.lower() in text_value.lower(): ...` */
  function TextKeywords(text: Value, keywords: seq<string>): Result<seq<string>> {
    if keywords == [] then Ok([])
    else if !text.Str? then Err(AttributeError)
    else Ok(KeywordHits(text.s, keywords))
  }

  /** The innermost loop of the keyword filter, over the keywords for one widget text. */
  method MatchKeywords(text: Value, keywords: seq<string>) returns (r: Result<seq<string>>)
    ensures r == TextKeywords(text, keywords)
  {
    var found: seq<string> := [];
    for k := 0 to |keywords|
      invariant k > 0 ==> text.Str?
      invariant k > 0 ==> found == KeywordHits(text.s, keywords[..k])
      invariant k == 0 ==> found == []
    {
      if !text.Str? {
        return Err(AttributeError);
      }
      var keyword := keywords[k];
      assert keywords[..k + 1][..k] == keywords[..k];
      if Contains(Lower(text.s), Lower(keyword)) {
        found := found + [keyword];
      }
    }
    assert keywords != [] ==> keywords[..|keywords|] == keywords;
    return Ok(found);
  }

  function WidgetKeywordSteps(ws: seq<Value>, keywords: seq<string>): (rs: seq<Result<seq<string>>>)
    ensures |rs| == |ws| && forall i :: 0 <= i < |ws| ==> rs[i] == WidgetKeywords(ws[i], keywords)
  {
    seq(|ws|, i requires 0 <= i < |ws| => WidgetKeywords(ws[i], keywords))
  }

  /** The keywords reported by one node, which is selected by the fixed ShowText filter. */
  function NodeKeywords(node: Value, keywords: seq<string>): Result<seq<string>> {
    match NodeMatches(node, ShowTextNode, NodeNameKey, ShowTextNode)
    case Err(f) => Err(f)
    case Ok(selected) =>
      if !selected then Ok([])
      else match Iterate(WidgetsValue(node))
        case Err(f) => Err(f)
        case Ok(ws) => Concat(WidgetKeywordSteps(ws, keywords))
  }

  function NodeKeywordSteps(ns: seq<Value>, keywords: seq<string>): (rs: seq<Result<seq<string>>>)
    ensures |rs| == |ns| && forall i :: 0 <= i < |ns| ==> rs[i] == NodeKeywords(ns[i], keywords)
  {
    seq(|ns|, i requires 0 <= i < |ns| => NodeKeywords(ns[i], keywords))
  }

  function ScanNodesKeywords(nodes: Value, keywords: seq<string>): Result<seq<string>> {
    match Iterate(nodes)
    case Err(f) => Err(f)
    case Ok(ns) => Concat(NodeKeywordSteps(ns, keywords))
  }

  /** The widget loop of one selected node in the keyword filter. */
  method CollectWidgetKeywords(ws: seq<Value>, keywords: seq<string>) returns (r: Result<seq<string>>)
    ensures r == Concat(WidgetKeywordSteps(ws, keywords))
  {
    ghost var wsteps := WidgetKeywordSteps(ws, keywords);
    var found: seq<string> := [];
    for j := 0 to |ws|
      invariant Concat(wsteps[..j]) == Ok(found)
    {
      ConcatSnoc(wsteps, j);
      var widget := ws[j];
      if widget.List? {
        if widget.items == [] {
          ConcatSticky(wsteps, j + 1);
          return Err(IndexError);
        }
        var hits := MatchKeywords(widget.items[0], keywords);
        if hits.Err? {
          ConcatSticky(wsteps, j + 1);
          return Err(hits.failure);
        }
        found := found + hits.value;
      } else {
        assert found + [] == found;
      }
    }
    assert wsteps[..|ws|] == wsteps;
    return Ok(found);
  }

  /** The node-list loop of the keyword filter. */
  method CollectNodeKeywords(nodes: Value, keywords: seq<string>) returns (r: Result<seq<string>>)
    ensures r == ScanNodesKeywords(nodes, keywords)
  {
    var iter := Iterate(nodes);
    if iter.Err? {
      return Err(iter.failure);
    }
    var ns := iter.value;
    ghost var steps := NodeKeywordSteps(ns, keywords);
    var found: seq<string> := [];
    for i := 0 to |ns|
      invariant Concat(steps[..i]) == Ok(found)
    {
      ConcatSnoc(steps, i);
      var node := ns[i];
      var selected := NodeMatches(node, ShowTextNode, NodeNameKey, ShowTextNode);
      if selected.Err? {
        ConcatSticky(steps, i + 1);
        return Err(selected.failure);
      }
      if selected.value {
        var widgets := Iterate(WidgetsValue(node));
        if widgets.Err? {
          ConcatSticky(steps, i + 1);
          return Err(widgets.failure);
        }
        var hits := CollectWidgetKeywords(widgets.value, keywords);
        assert steps[i] == hits;
        if hits.Err? {
          ConcatSticky(steps, i + 1);
          return Err(hits.failure);
        }
        found := found + hits.value;
      } else {
        assert steps[i] == Ok([]);
        assert found + [] == found;
      }
    }
    assert steps[..|ns|] == steps;
    return Ok(found);
  }

  function ScanKeywordSteps(sources: seq<Value>, keywords: seq<string>): (rs: seq<Result<seq<string>>>)
    ensures |rs| == |sources| && forall i :: 0 <= i < |sources| ==> rs[i] == ScanNodesKeywords(sources[i], keywords)
  {
    seq(|sources|, i requires 0 <= i < |sources| => ScanNodesKeywords(sources[i], keywords))
  }

  function ScanAllKeywords(sources: seq<Value>, keywords: seq<string>): Result<seq<string>> {
    Concat(ScanKeywordSteps(sources, keywords))
  }

  lemma ScanAllKeywordsSnoc(sources: seq<Value>, x: Value, keywords: seq<string>)
    ensures ScanAllKeywords(sources + [x], keywords) ==
      Append(ScanAllKeywords(sources, keywords), ScanNodesKeywords(x, keywords))
  {
    assert ScanKeywordSteps(sources + [x], keywords)[..|sources|] == ScanKeywordSteps(sources, keywords);
  }

  /** Scanning one node list for keywords is scanning its nodes. */
  lemma ScanAllKeywordsSingle(nodes: Value, keywords: seq<string>)
    ensures ScanAllKeywords([nodes], keywords) == ScanNodesKeywords(nodes, keywords)
  {
    var steps := ScanKeywordSteps([nodes], keywords);
    var r := ScanNodesKeywords(nodes, keywords);
    assert steps[..0] == [] && steps[0] == r;
    assert Concat(steps) == Append(Ok([]), r);
    assert r.Ok? ==> [] + r.value == r.value;
  }

  lemma ScanAllKeywordsStops(sources: seq<Value>, longer: seq<Value>, keywords: seq<string>)
    requires sources <= longer && ScanAllKeywords(sources, keywords).Err?
    ensures ScanAllKeywords(longer, keywords) == ScanAllKeywords(sources, keywords)
  {
    var all := ScanKeywordSteps(longer, keywords);
    assert all[..|sources|] == ScanKeywordSteps(sources, keywords);
    ConcatSticky(all, |sources|);
  }

  lemma ScanAllKeywordsAppend(sources: seq<Value>, more: seq<Value>, keywords: seq<string>)
    ensures ScanAllKeywords(sources + more, keywords) ==
      Append(ScanAllKeywords(sources, keywords), ScanAllKeywords(more, keywords))
  {
    var all := ScanKeywordSteps(sources + more, keywords);
    assert all == ScanKeywordSteps(sources, keywords) + ScanKeywordSteps(more, keywords);
    ConcatAppend(ScanKeywordSteps(sources, keywords), ScanKeywordSteps(more, keywords));
  }

  /** Every keyword a widget value reports is one of `keywords`. */
  lemma WidgetKeywordsWithin(w: Value, keywords: seq<string>)
    ensures WidgetKeywords(w, keywords).Ok? ==>
      forall x :: x in WidgetKeywords(w, keywords).value ==> x in keywords
  {
    if w.List? && w.items != [] && keywords != [] && w.items[0].Str? {
      forall x | x in KeywordHits(w.items[0].s, keywords) ensures x in keywords {
        KeywordHitsIff(w.items[0].s, keywords, x);
      }
    }
  }

  lemma NodeKeywordsWithin(node: Value, keywords: seq<string>)
    ensures NodeKeywords(node, keywords).Ok? ==>
      forall x :: x in NodeKeywords(node, keywords).value ==> x in keywords
  {
    var selected := NodeMatches(node, ShowTextNode, NodeNameKey, ShowTextNode);
    if selected == Ok(true) && Iterate(WidgetsValue(node)).Ok? {
      var ws := Iterate(WidgetsValue(node)).value;
      var rs := WidgetKeywordSteps(ws, keywords);
      forall i | 0 <= i < |rs| && rs[i].Ok? ensures forall x :: x in rs[i].value ==> x in set k | k in keywords {
        WidgetKeywordsWithin(ws[i], keywords);
      }
      ConcatWithin(rs, set k | k in keywords);
    }
  }

  lemma ScanNodesKeywordsWithin(nodes: Value, keywords: seq<string>)
    ensures ScanNodesKeywords(nodes, keywords).Ok? ==>
      forall x :: x in ScanNodesKeywords(nodes, keywords).value ==> x in keywords
  {
    if Iterate(nodes).Ok? {
      var ns := Iterate(nodes).value;
      var rs := NodeKeywordSteps(ns, keywords);
      forall i | 0 <= i < |rs| && rs[i].Ok? ensures forall x :: x in rs[i].value ==> x in set k | k in keywords {
        NodeKeywordsWithin(ns[i], keywords);
      }
      ConcatWithin(rs, set k | k in keywords);
    }
  }

  /** Every keyword the keyword filter reports, over any node lists, is one of `keywords`;
      with no keywords it reports nothing (or raises). */
  lemma ScanAllKeywordsWithin(sources: seq<Value>, keywords: seq<string>)
    ensures ScanAllKeywords(sources, keywords).Ok? ==>
      forall x :: x in ScanAllKeywords(sources, keywords).value ==> x in keywords
    ensures ScanAllKeywords(sources, keywords).Ok? && keywords == [] ==>
      ScanAllKeywords(sources, keywords).value == []
  {
    var rs := ScanKeywordSteps(sources, keywords);
    forall i | 0 <= i < |rs| && rs[i].Ok? ensures forall x :: x in rs[i].value ==> x in set k | k in keywords {
      ScanNodesKeywordsWithin(sources[i], keywords);
    }
    ConcatWithin(rs, set k | k in keywords);
    if Concat(rs).Ok? {
      var v := Concat(rs).value;
      assert |v| > 0 ==> v[0] in v && v[0] in (set k | k in keywords);
    }
  }

  /** The keywords one widget text reports (nothing for a text that is not a string). */
  function HitsOf(keywords: seq<string>): Value -> seq<string> {
    (t: Value) => if t.Str? then KeywordHits(t.s, keywords) else []
  }

  /** The keywords a sequence of widget texts reports: text after text, and within one text
      in keyword-list order. */
  function TextsHits(keywords: seq<string>): seq<Value> -> seq<string> {
    (texts: seq<Value>) => FlatMap(texts, HitsOf(keywords))
  }

  lemma {:induction false} FlatMapAppend<A, B>(xs: seq<A>, ys: seq<A>, f: A -> seq<B>)
    ensures FlatMap(xs + ys, f) == FlatMap(xs, f) + FlatMap(ys, f)
    decreases |ys|
  {
    if ys == [] {
      assert xs + ys == xs;
    } else {
      var n := |ys| - 1;
      FlatMapAppend(xs, ys[..n], f);
      assert (xs + ys)[..|xs + ys| - 1] == xs + ys[..n];
    }
  }

  lemma TextsHitsDistributes(keywords: seq<string>)
    ensures TextsHits(keywords)([]) == []
    ensures forall a, b :: TextsHits(keywords)(a + b) == TextsHits(keywords)(a) + TextsHits(keywords)(b)
  {
    forall a, b ensures TextsHits(keywords)(a + b) == TextsHits(keywords)(a) + TextsHits(keywords)(b) {
      FlatMapAppend(a, b, HitsOf(keywords));
    }
  }

  lemma WidgetKeywordsViaText(w: Value, keywords: seq<string>)
    requires WidgetText(w).Ok? && forall t :: t in WidgetText(w).value ==> t.Str?
    ensures WidgetKeywords(w, keywords) == Ok(TextsHits(keywords)(WidgetText(w).value))
  {
    if w.List? {
      var t := w.items[0];
      assert [t][..0] == [];
      assert FlatMap([t], HitsOf(keywords)) == HitsOf(keywords)(t);
    }
  }

  lemma NodeKeywordsViaTexts(node: Value, keywords: seq<string>)
    requires NodeTexts(node, ShowTextNode, NodeNameKey, ShowTextNode).Ok?
    requires forall t :: t in NodeTexts(node, ShowTextNode, NodeNameKey, ShowTextNode).value ==> t.Str?
    ensures NodeKeywords(node, keywords) ==
      Ok(TextsHits(keywords)(NodeTexts(node, ShowTextNode, NodeNameKey, ShowTextNode).value))
  {
    var selected := NodeMatches(node, ShowTextNode, NodeNameKey, ShowTextNode);
    if selected == Ok(true) {
      var ws := Iterate(WidgetsValue(node)).value;
      var rs := WidgetSteps(ws);
      var qs := WidgetKeywordSteps(ws, keywords);
      TextsHitsDistributes(keywords);
      forall i | 0 <= i < |rs| && rs[i].Ok? && (forall x :: x in rs[i].value ==> x.Str?)
        ensures qs[i] == Ok(TextsHits(keywords)(rs[i].value))
      {
        WidgetKeywordsViaText(ws[i], keywords);
      }
      ConcatMapped(rs, qs, TextsHits(keywords), (t: Value) => t.Str?);
    }
  }

  lemma ScanNodesKeywordsViaTexts(nodes: Value, keywords: seq<string>)
    requires ScanNodes(nodes, ShowTextNode, NodeNameKey, ShowTextNode).Ok?
    requires forall t :: t in ScanNodes(nodes, ShowTextNode, NodeNameKey, ShowTextNode).value ==> t.Str?
    ensures ScanNodesKeywords(nodes, keywords) ==
      Ok(TextsHits(keywords)(ScanNodes(nodes, ShowTextNode, NodeNameKey, ShowTextNode).value))
  {
    var ns := Iterate(nodes).value;
    var rs := NodeSteps(ns, ShowTextNode, NodeNameKey, ShowTextNode);
    var qs := NodeKeywordSteps(ns, keywords);
    TextsHitsDistributes(keywords);
    forall i | 0 <= i < |rs| && rs[i].Ok? && (forall x :: x in rs[i].value ==> x.Str?)
      ensures qs[i] == Ok(TextsHits(keywords)(rs[i].value))
    {
      NodeKeywordsViaTexts(ns[i], keywords);
    }
    ConcatMapped(rs, qs, TextsHits(keywords), (t: Value) => t.Str?);
  }

  /** When the ShowText scan of the same node lists yields only strings, the keyword filter
      reports, text after text, the keywords each text contains: a keyword contained in
      several texts is reported once for each of them. */
  lemma ScanAllKeywordsViaTexts(sources: seq<Value>, keywords: seq<string>)
    requires ScanAll(sources, ShowTextNode, NodeNameKey, ShowTextNode).Ok?
    requires forall t :: t in ScanAll(sources, ShowTextNode, NodeNameKey, ShowTextNode).value ==> t.Str?
    ensures ScanAllKeywords(sources, keywords) ==
      Ok(TextsHits(keywords)(ScanAll(sources, ShowTextNode, NodeNameKey, ShowTextNode).value))
  {
    var rs := ScanSteps(sources, ShowTextNode, NodeNameKey, ShowTextNode);
    var qs := ScanKeywordSteps(sources, keywords);
    TextsHitsDistributes(keywords);
    forall i | 0 <= i < |rs| && rs[i].Ok? && (forall x :: x in rs[i].value ==> x.Str?)
      ensures qs[i] == Ok(TextsHits(keywords)(rs[i].value))
    {
      ScanNodesKeywordsViaTexts(sources[i], keywords);
    }
    ConcatMapped(rs, qs, TextsHits(keywords), (t: Value) => t.Str?);
  }

  // ----- Which node lists a filter visits -----

  /** Concatenation of `f` over `xs`, built the way a loop appends. */
  function FlatMap<A, B>(xs: seq<A>, f: A -> seq<B>): seq<B> {
    if xs == [] then [] else FlatMap(xs[..|xs| - 1], f) + f(xs[|xs| - 1])
  }

  lemma FlatMapSnoc<A, B>(xs: seq<A>, i: nat, f: A -> seq<B>)
    requires i < |xs|
    ensures FlatMap(xs[..i + 1], f) == FlatMap(xs[..i], f) + f(xs[i])
  {
    assert xs[..i + 1][..i] == xs[..i];
  }

  lemma {:induction false} FlatMapPrefix<A, B>(xs: seq<A>, i: nat, f: A -> seq<B>)
    requires i <= |xs|
    ensures FlatMap(xs[..i], f) <= FlatMap(xs, f)
    decreases |xs| - i
  {
    if i < |xs| {
      FlatMapSnoc(xs, i, f);
      FlatMapPrefix(xs, i + 1, f);
    } else {
      assert xs[..i] == xs;
    }
  }

  /** When `f` gives nothing for every element, the whole concatenation is empty. */
  lemma {:induction false} FlatMapEmpty<A, B>(xs: seq<A>, f: A -> seq<B>)
    requires forall i :: 0 <= i < |xs| ==> f(xs[i]) == []
    ensures FlatMap(xs, f) == []
  {
    if xs != [] {
      var n := |xs| - 1;
      assert forall i :: 0 <= i < n ==> xs[..n][i] == xs[i];
      FlatMapEmpty(xs[..n], f);
    }
  }

  /** When `f` gives nothing for every element but the one at `k`, the concatenation is `f(xs[k])`. */
  lemma {:induction false} FlatMapSingle<A, B>(xs: seq<A>, k: nat, f: A -> seq<B>)
    requires k < |xs|
    requires forall i :: 0 <= i < |xs| && i != k ==> f(xs[i]) == []
    ensures FlatMap(xs, f) == f(xs[k])
  {
    var n := |xs| - 1;
    assert forall i :: 0 <= i < n ==> xs[..n][i] == xs[i];
    if k == n {
      FlatMapEmpty(xs[..n], f);
    } else {
      FlatMapSingle(xs[..n], k, f);
    }
  }

  /** One entry of a section, read through the entry itself:
      `if subkey == 'workflow' and isinstance(subsection, dict): if "nodes" in subsection:` visit
      `subsection["nodes"]`. */
  function InnerStep(sub: (Key, Value)): seq<Value> {
    if sub.0 == KStr("workflow") && sub.1.Dict? && HasKey(sub.1.entries, KStr("nodes"))
    then [Lookup(sub.1.entries, KStr("nodes")).value]
    else []
  }

  /** One entry of a section, read through the enclosing section:
      `if subkey == 'workflow' and isinstance(subsection, dict): if "nodes" in section:` visit
      `section["nodes"]`. */
  function OuterStep(section: seq<(Key, Value)>): ((Key, Value)) -> seq<Value> {
    (sub: (Key, Value)) =>
      if sub.0 == KStr("workflow") && sub.1.Dict? && HasKey(section, KStr("nodes"))
      then [Lookup(section, KStr("nodes")).value]
      else []
  }

  /** `for subkey, subsection in section.items(): if subkey == 'workflow' and
      isinstance(subsection, dict): if "nodes" in subsection:` scan `subsection["nodes"]`. */
  method CollectInnerTexts(section: seq<(Key, Value)>, nodeType: string, nodeKey: string, nodeName: string)
    returns (r: Result<seq<Value>>)
    ensures r == ScanAll(FlatMap(section, InnerStep), nodeType, nodeKey, nodeName)
  {
    var found: seq<Value> := [];
    for j := 0 to |section|
      invariant ScanAll(FlatMap(section[..j], InnerStep), nodeType, nodeKey, nodeName) == Ok(found)
    {
      FlatMapSnoc(section, j, InnerStep);
      FlatMapPrefix(section, j + 1, InnerStep);
      var (subkey, subsection) := section[j];
      if subkey == KStr("workflow") && subsection.Dict? && HasKey(subsection.entries, KStr("nodes")) {
        var nodes := Lookup(subsection.entries, KStr("nodes")).value;
        assert InnerStep(section[j]) == [nodes];
        ScanAllSnoc(FlatMap(section[..j], InnerStep), nodes, nodeType, nodeKey, nodeName);
        var scanned := CollectNodeTexts(nodes, nodeType, nodeKey, nodeName);
        if scanned.Err? {
          ScanAllStops(FlatMap(section[..j + 1], InnerStep), FlatMap(section, InnerStep), nodeType, nodeKey, nodeName);
          return Err(scanned.failure);
        }
        found := found + scanned.value;
      } else {
        assert FlatMap(section[..j + 1], InnerStep) == FlatMap(section[..j], InnerStep);
      }
    }
    assert section[..|section|] == section;
    return Ok(found);
  }

  /** `for subkey, subsection in section.items(): if subkey == 'workflow' and
      isinstance(subsection, dict): if "nodes" in section:` scan `section["nodes"]`. */
  method CollectOuterTexts(section: seq<(Key, Value)>, nodeType: string, nodeKey: string, nodeName: string)
    returns (r: Result<seq<Value>>)
    ensures r == ScanAll(FlatMap(section, OuterStep(section)), nodeType, nodeKey, nodeName)
  {
    var found: seq<Value> := [];
    for j := 0 to |section|
      invariant ScanAll(FlatMap(section[..j], OuterStep(section)), nodeType, nodeKey, nodeName) == Ok(found)
    {
      FlatMapSnoc(section, j, OuterStep(section));
      FlatMapPrefix(section, j + 1, OuterStep(section));
      var (subkey, subsection) := section[j];
      if subkey == KStr("workflow") && subsection.Dict? && HasKey(section, KStr("nodes")) {
        var nodes := Lookup(section, KStr("nodes")).value;
        assert OuterStep(section)(section[j]) == [nodes];
        ScanAllSnoc(FlatMap(section[..j], OuterStep(section)), nodes, nodeType, nodeKey, nodeName);
        var scanned := CollectNodeTexts(nodes, nodeType, nodeKey, nodeName);
        if scanned.Err? {
          ScanAllStops(FlatMap(section[..j + 1], OuterStep(section)), FlatMap(section, OuterStep(section)), nodeType, nodeKey, nodeName);
          return Err(scanned.failure);
        }
        found := found + scanned.value;
      } else {
        assert FlatMap(section[..j + 1], OuterStep(section)) == FlatMap(section[..j], OuterStep(section));
      }
    }
    assert section[..|section|] == section;
    return Ok(found);
  }

  /** The loop of `CollectOuterTexts` in the keyword filter. */
  method CollectOuterKeywords(section: seq<(Key, Value)>, keywords: seq<string>) returns (r: Result<seq<string>>)
    ensures r == ScanAllKeywords(FlatMap(section, OuterStep(section)), keywords)
  {
    var found: seq<string> := [];
    for j := 0 to |section|
      invariant ScanAllKeywords(FlatMap(section[..j], OuterStep(section)), keywords) == Ok(found)
    {
      FlatMapSnoc(section, j, OuterStep(section));
      FlatMapPrefix(section, j + 1, OuterStep(section));
      var (subkey, subsection) := section[j];
      if subkey == KStr("workflow") && subsection.Dict? && HasKey(section, KStr("nodes")) {
        var nodes := Lookup(section, KStr("nodes")).value;
        assert OuterStep(section)(section[j]) == [nodes];
        ScanAllKeywordsSnoc(FlatMap(section[..j], OuterStep(section)), nodes, keywords);
        var scanned := CollectNodeKeywords(nodes, keywords);
        if scanned.Err? {
          ScanAllKeywordsStops(FlatMap(section[..j + 1], OuterStep(section)), FlatMap(section, OuterStep(section)), keywords);
          return Err(scanned.failure);
        }
        found := found + scanned.value;
      } else {
        assert FlatMap(section[..j + 1], OuterStep(section)) == FlatMap(section[..j], OuterStep(section));
      }
    }
    assert section[..|section|] == section;
    return Ok(found);
  }
}
