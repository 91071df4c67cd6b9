/** scripts/metadata_extractor.py: the two workflow-node filters the organizer and the form use.
    Both walk the sections of the metadata dict; they differ in which sections they enter and
    which `nodes` list they read there. */
module MetadataExtractor {
  import opened Json
  import opened Workflow

  // ----- get_workflow_node_data -----

  /** The node lists `get_workflow_node_data` visits in one section: under the key 'prompt',
      the `nodes` of the section's dict 'workflow' entry; under any other dict section, the
      section's own `nodes`, once for each dict 'workflow' entry it holds. */
  function NodeDataSection(entry: (Key, Value)): seq<Value> {
    if entry.0 == KStr("prompt") && entry.1.Dict? then FlatMap(entry.1.entries, InnerStep)
    else if entry.1.Dict? then FlatMap(entry.1.entries, OuterStep(entry.1.entries))
    else []
  }

  function NodeDataSources(metadata: seq<(Key, Value)>): seq<Value> {
    FlatMap(metadata, NodeDataSection)
  }

  /** The body of the section loop of `get_workflow_node_data`. */
  method CollectNodeDataSection(key: Key, section: Value, nodeType: string, nodeKey: string, nodeName: string)
    returns (r: Result<seq<Value>>)
    ensures r == ScanAll(NodeDataSection((key, section)), nodeType, nodeKey, nodeName)
  {
    if key == KStr("prompt") && section.Dict? {
      r := CollectInnerTexts(section.entries, nodeType, nodeKey, nodeName);
    } else if section.Dict? {
      r := CollectOuterTexts(section.entries, nodeType, nodeKey, nodeName);
    } else {
      r := Ok([]);
    }
  }

  /** `get_workflow_node_data(metadata, node_type, node_key, node_name)`: the texts of the
      selected nodes of every node list visited, in order, or the first exception raised. */
  method GetWorkflowNodeData(metadata: seq<(Key, Value)>, nodeType: string, nodeKey: string, nodeName: string)
    returns (r: Result<seq<Value>>)
    ensures r == ScanAll(NodeDataSources(metadata), nodeType, nodeKey, nodeName)
  {
    var found: seq<Value> := [];
    for i := 0 to |metadata|
      invariant ScanAll(FlatMap(metadata[..i], NodeDataSection), nodeType, nodeKey, nodeName) == Ok(found)
    {
      FlatMapSnoc(metadata, i, NodeDataSection);
      FlatMapPrefix(metadata, i + 1, NodeDataSection);
      var (key, section) := metadata[i];
      var scanned := CollectNodeDataSection(key, section, nodeType, nodeKey, nodeName);
      ScanAllAppend(FlatMap(metadata[..i], NodeDataSection), NodeDataSection(metadata[i]), nodeType, nodeKey, nodeName);
      if scanned.Err? {
        ScanAllStops(FlatMap(metadata[..i + 1], NodeDataSection), NodeDataSources(metadata), nodeType, nodeKey, nodeName);
        return Err(scanned.failure);
      }
      found := found + scanned.value;
    }
    assert metadata[..|metadata|] == metadata;
    return Ok(found);
  }

  /** Under the key 'prompt', the nodes come from the section's dict 'workflow' entry, and only
      when that entry holds `nodes`. */
  lemma {:induction false} PromptSectionReadsWorkflowNodes(section: seq<(Key, Value)>)
    requires DistinctKeys(section)
    ensures
      var wf := Lookup(section, KStr("workflow"));
      NodeDataSources([(KStr("prompt"), Dict(section))]) ==
        if wf.Some? && wf.value.Dict? && HasKey(wf.value.entries, KStr("nodes"))
        then [Lookup(wf.value.entries, KStr("nodes")).value]
        else []
  {
    var md := [(KStr("prompt"), Dict(section))];
    assert md[..0] == [];
    assert NodeDataSection(md[0]) == FlatMap(section, InnerStep);
    assert NodeDataSources(md) == FlatMap(md[..0], NodeDataSection) + NodeDataSection(md[0]);
    if HasKey(section, KStr("workflow")) {
      var k := KeyIndex(section, KStr("workflow"));
      FlatMapSingle(section, k, InnerStep);
    } else {
      FlatMapEmpty(section, InnerStep);
    }
  }

  /** Under any other key, the nodes come from the section itself, and only when the section
      also holds a dict 'workflow' entry. */
  lemma {:induction false} OtherSectionReadsOwnNodes(key: Key, section: seq<(Key, Value)>)
    requires key != KStr("prompt") && DistinctKeys(section)
    ensures
      var wf := Lookup(section, KStr("workflow"));
      NodeDataSources([(key, Dict(section))]) ==
        if wf.Some? && wf.value.Dict? && HasKey(section, KStr("nodes"))
        then [Lookup(section, KStr("nodes")).value]
        else []
  {
    var md := [(key, Dict(section))];
    assert md[..0] == [];
    assert NodeDataSection(md[0]) == FlatMap(section, OuterStep(section));
    assert NodeDataSources(md) == FlatMap(md[..0], NodeDataSection) + NodeDataSection(md[0]);
    if HasKey(section, KStr("workflow")) {
      var k := KeyIndex(section, KStr("workflow"));
      FlatMapSingle(section, k, OuterStep(section));
    } else {
      FlatMapEmpty(section, OuterStep(section));
    }
  }

  // ----- find_particular_keywords -----

  /** The node lists `find_particular_keywords` visits in one section: under the key 'workflow',
      the section's `nodes`; under any other dict section, the section's own `nodes`, once for
      each dict 'workflow' entry it holds. */
  function KeywordSection(entry: (Key, Value)): seq<Value> {
    if entry.0 == KStr("workflow") && entry.1.Dict? then
      (if HasKey(entry.1.entries, KStr("nodes")) then [Lookup(entry.1.entries, KStr("nodes")).value] else [])
    else if entry.1.Dict? then FlatMap(entry.1.entries, OuterStep(entry.1.entries))
    else []
  }

  function KeywordSources(metadata: seq<(Key, Value)>): seq<Value> {
    FlatMap(metadata, KeywordSection)
  }

  /** The body of the section loop of `find_particular_keywords`. */
  method CollectKeywordSection(key: Key, section: Value, keywords: seq<string>) returns (r: Result<seq<string>>)
    ensures r == ScanAllKeywords(KeywordSection((key, section)), keywords)
  {
    if key == KStr("workflow") && section.Dict? {
      if HasKey(section.entries, KStr("nodes")) {
        var nodes := Lookup(section.entries, KStr("nodes")).value;
        r := CollectNodeKeywords(nodes, keywords);
        ScanAllKeywordsSingle(nodes, keywords);
      } else {
        r := Ok([]);
      }
    } else if section.Dict? {
      r := CollectOuterKeywords(section.entries, keywords);
    } else {
      r := Ok([]);
    }
  }

  /** `find_particular_keywords(metadata, keywords)`: for every ShowText node text, the keywords
      it contains ignoring case, or the first exception raised. */
  method FindParticularKeywords(metadata: seq<(Key, Value)>, keywords: seq<string>) returns (r: Result<seq<string>>)
    ensures r == ScanAllKeywords(KeywordSources(metadata), keywords)
  {
    var found: seq<string> := [];
    for i := 0 to |metadata|
      invariant ScanAllKeywords(FlatMap(metadata[..i], KeywordSection), keywords) == Ok(found)
    {
      FlatMapSnoc(metadata, i, KeywordSection);
      FlatMapPrefix(metadata, i + 1, KeywordSection);
      var (key, section) := metadata[i];
      var scanned := CollectKeywordSection(key, section, keywords);
      ScanAllKeywordsAppend(FlatMap(metadata[..i], KeywordSection), KeywordSection(metadata[i]), keywords);
      if scanned.Err? {
        ScanAllKeywordsStops(FlatMap(metadata[..i + 1], KeywordSection), KeywordSources(metadata), keywords);
        return Err(scanned.failure);
      }
      found := found + scanned.value;
    }
    assert metadata[..|metadata|] == metadata;
    return Ok(found);
  }

  /** Every name `find_particular_keywords` reports is one of the keywords it was given, and
      with no keywords it reports none. */
  lemma ParticularKeywordsAreListed(metadata: seq<(Key, Value)>, keywords: seq<string>)
    ensures ScanAllKeywords(KeywordSources(metadata), keywords).Ok? ==>
      forall x :: x in ScanAllKeywords(KeywordSources(metadata), keywords).value ==> x in keywords
    ensures ScanAllKeywords(KeywordSources(metadata), []) .Ok? ==>
      ScanAllKeywords(KeywordSources(metadata), []).value == []
  {
    ScanAllKeywordsWithin(KeywordSources(metadata), keywords);
    ScanAllKeywordsWithin(KeywordSources(metadata), []);
  }

  /** Metadata with neither a dict 'workflow' section nor a dict section holding a dict
      'workflow' entry reports nothing. */
  lemma {:induction false} NoWorkflowReportsNothing(metadata: seq<(Key, Value)>, keywords: seq<string>)
    requires forall i :: 0 <= i < |metadata| ==> !(metadata[i].0 == KStr("workflow") && metadata[i].1.Dict?)
    requires forall i, j :: 0 <= i < |metadata| && metadata[i].1.Dict? && 0 <= j < |metadata[i].1.entries| ==>
      !(metadata[i].1.entries[j].0 == KStr("workflow") && metadata[i].1.entries[j].1.Dict?)
    ensures ScanAllKeywords(KeywordSources(metadata), keywords) == Ok([])
  {
    forall i | 0 <= i < |metadata| ensures KeywordSection(metadata[i]) == [] {
      var section := metadata[i].1;
      if section.Dict? {
        FlatMapEmpty(section.entries, OuterStep(section.entries));
      }
    }
    FlatMapEmpty(metadata, KeywordSection);
  }

  /** When the ShowText texts of the visited node lists are all strings, the keywords reported
      are, text after text in node and widget order, the keywords each text contains in
      keyword-list order; a keyword found in several texts is reported once per text. */
  lemma ParticularKeywordsByText(metadata: seq<(Key, Value)>, keywords: seq<string>)
    requires ScanAll(KeywordSources(metadata), ShowTextNode, NodeNameKey, ShowTextNode).Ok?
    requires forall t :: t in ScanAll(KeywordSources(metadata), ShowTextNode, NodeNameKey, ShowTextNode).value ==> t.Str?
    ensures ScanAllKeywords(KeywordSources(metadata), keywords) ==
      Ok(FlatMap(ScanAll(KeywordSources(metadata), ShowTextNode, NodeNameKey, ShowTextNode).value, HitsOf(keywords)))
  {
    ScanAllKeywordsViaTexts(KeywordSources(metadata), keywords);
  }
}
