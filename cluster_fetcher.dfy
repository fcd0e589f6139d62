/** The request-building rules of the cluster fetcher (clusterFetcher.go):
    the payload size gate and the conversion of named YAML texts into
    request objects, the per-category accumulation of resource YAML while
    snapshotting a cluster, and the selection of namespaced API resources
    from discovery. YAML text is a string of one character per byte. */
module ClusterFetcher {
  import opened Types
  import opened FocusComponents

  /** The request payload limit of the API gateway: 32 MiB. */
  const RequestSizeLimit := 32 * 1024 * 1024

  /** Whether a YAML text of this length may be sent: its base64 encoding
      must stay strictly below the limit. */
  predicate FitsRequest(yaml: string)
  {
    EncodedLen(|yaml|) < RequestSizeLimit
  }

  /** The gate in bytes: exactly the texts of at most 25165821 bytes pass. */
  lemma SizeGate(n: nat)
    ensures EncodedLen(n) < RequestSizeLimit <==> n <= 25165821
  {
    var groups := (n + 2) / 3;
    assert EncodedLen(n) == groups * 4;
    if n <= 25165821 {
      assert groups <= 8388607;
    } else {
      assert groups >= 8388608;
    }
  }

  /** The request object built for one YAML text. */
  function RequestFor(name: string, yaml: string): (o: RequestObject)
    ensures o.resourceName == name && o.content.contentType == "1" && o.content.data.raw == yaml
  {
    RequestObject(Content("1", Base64Of(yaml)), name)
  }

  /** The names whose YAML text fits in one request. */
  function KeptNames(yamlMap: map<string, string>): (names: set<string>)
    ensures names <= yamlMap.Keys
    ensures forall name :: name in names <==> name in yamlMap && FitsRequest(yamlMap[name])
  {
    set name | name in yamlMap && FitsRequest(yamlMap[name])
  }

  /** The conversion loop's invariant: the requests so far are those of the
      visited entries that fit, one per name. */
  ghost predicate Converted(yamlMap: map<string, string>, pending: set<string>, objects: seq<RequestObject>)
  {
    && pending <= yamlMap.Keys
    && |objects| + |pending| <= |yamlMap|
    && (forall i :: 0 <= i < |objects| ==>
          objects[i].resourceName in yamlMap && objects[i].resourceName !in pending
          && objects[i] == RequestFor(objects[i].resourceName, yamlMap[objects[i].resourceName]))
    && (forall i, j :: 0 <= i < j < |objects| ==> objects[i].resourceName != objects[j].resourceName)
    && (forall name :: name in KeptNames(yamlMap) && name !in pending <==>
          exists i :: 0 <= i < |objects| && objects[i].resourceName == name)
  }

  /** One iteration of the conversion loop keeps its invariant. */
  lemma ConvertStep(yamlMap: map<string, string>, pending: set<string>, objects: seq<RequestObject>, name: string)
    requires Converted(yamlMap, pending, objects) && name in pending
    ensures Converted(yamlMap, pending - {name},
      objects + (if FitsRequest(yamlMap[name]) then [RequestFor(name, yamlMap[name])] else []))
  {
    var objects' := objects + (if FitsRequest(yamlMap[name]) then [RequestFor(name, yamlMap[name])] else []);
    forall n | n in KeptNames(yamlMap) && n !in pending - {name}
      ensures exists i :: 0 <= i < |objects'| && objects'[i].resourceName == n
    {
      if n == name {
        assert objects'[|objects'| - 1].resourceName == n;
      } else {
        var i :| 0 <= i < |objects| && objects[i].resourceName == n;
        assert objects'[i] == objects[i];
      }
    }
  }

  /** convertYAMLStringToValidateRequestContent: one request per entry whose
      encoding fits, in Go's unspecified map order; an oversized entry is
      only reported. The error result is always nil. */
  method ConvertYAMLStringToValidateRequestContent(yamlMap: map<string, string>)
    returns (objects: seq<RequestObject>, err: Option<string>)
    ensures err == None
    ensures forall i :: 0 <= i < |objects| ==>
      objects[i].resourceName in yamlMap && objects[i] == RequestFor(objects[i].resourceName, yamlMap[objects[i].resourceName])
    ensures forall i, j :: 0 <= i < j < |objects| ==> objects[i].resourceName != objects[j].resourceName
    ensures forall name :: name in KeptNames(yamlMap) <==> exists i :: 0 <= i < |objects| && objects[i].resourceName == name
    ensures |objects| <= |yamlMap|
  {
    objects := [];
    var pending := yamlMap.Keys;
    while pending != {}
      invariant Converted(yamlMap, pending, objects)
      decreases pending
    {
      var name :| name in pending;
      var yaml := yamlMap[name];
      ConvertStep(yamlMap, pending, objects, name);
      if EncodedLen(|yaml|) < RequestSizeLimit {
        objects := objects + [RequestObject(Content("1", Base64Of(yaml)), name)];
      }
      pending := pending - {name};
    }
    err := None;
  }

  // ---------------------------------------------------------------------
  // Accumulating YAML documents per category

  /** The YAML 1.0 document separator used between documents of a category. */
  const Separator := "\n---\n"

  /** Line 260-264: append a document to a category's text, preceded by the
      separator unless the text is still empty. */
  function AppendDocument(text: string, doc: string): (r: string)
    ensures |text| == 0 ==> r == doc
    ensures |text| != 0 ==> r == text + Separator + doc
  {
    if |text| != 0 then text + Separator + doc else doc
  }

  /** yamlMap after appending each (category, document) pair in order. */
  function Accumulate(m: map<string, string>, entries: seq<(string, string)>): (r: map<string, string>)
    ensures m.Keys <= r.Keys
    decreases |entries|
  {
    if entries == [] then m
    else
      var acc := Accumulate(m, entries[..|entries| - 1]);
      var (category, doc) := entries[|entries| - 1];
      acc[category := AppendDocument(if category in acc then acc[category] else "", doc)]
  }

  /** The documents of category `c`, in order. */
  function DocsOf(entries: seq<(string, string)>, c: string): seq<string>
    decreases |entries|
  {
    if entries == [] then []
    else
      var last := entries[|entries| - 1];
      DocsOf(entries[..|entries| - 1], c) + (if last.0 == c then [last.1] else [])
  }

  /** Documents joined by the separator, with none before the first or after the last. */
  function Join(docs: seq<string>): string
    decreases |docs|
  {
    if docs == [] then ""
    else if |docs| == 1 then docs[0]
    else Join(docs[..|docs| - 1]) + Separator + docs[|docs| - 1]
  }

  lemma JoinNonEmpty(docs: seq<string>)
    requires forall i :: 0 <= i < |docs| ==> docs[i] != ""
    ensures Join(docs) == "" <==> docs == []
    decreases |docs|
  {
  }

  /** The categories present are those of the initial map and those some
      entry was filed under. */
  lemma {:induction false} AccumulateKeys(m: map<string, string>, entries: seq<(string, string)>)
    ensures forall c :: c in Accumulate(m, entries) <==> c in m || exists i :: 0 <= i < |entries| && entries[i].0 == c
    decreases |entries|
  {
    if entries != [] {
      var init := entries[..|entries| - 1];
      AccumulateKeys(m, init);
      assert forall i :: 0 <= i < |init| ==> init[i] == entries[i];
    }
  }

  /** Starting from no text, each category holds exactly its non-empty
      documents joined by the separator: no leading and no trailing
      separator. */
  lemma {:induction false} AccumulateJoins(entries: seq<(string, string)>, c: string)
    requires forall i :: 0 <= i < |entries| ==> entries[i].1 != ""
    ensures (if c in Accumulate(map[], entries) then Accumulate(map[], entries)[c] else "") == Join(DocsOf(entries, c))
    decreases |entries|
  {
    if entries != [] {
      var init := entries[..|entries| - 1];
      var last := entries[|entries| - 1];
      assert forall i :: 0 <= i < |init| ==> init[i] == entries[i];
      AccumulateJoins(init, c);
      var docs := DocsOf(init, c);
      forall i | 0 <= i < |docs|
        ensures docs[i] != ""
      {
        DocsOfMembers(init, c);
        assert docs[i] in docs;
        var k :| 0 <= k < |init| && init[k] == (c, docs[i]);
      }
      JoinNonEmpty(docs);
      var acc := Accumulate(map[], init);
      var prev := if c in acc then acc[c] else "";
      if last.0 == c {
        assert DocsOf(entries, c) == docs + [last.1];
        assert Accumulate(map[], entries)[c] == AppendDocument(prev, last.1);
        if docs != [] {
          assert (docs + [last.1])[..|docs|] == docs;
        }
      } else {
        assert DocsOf(entries, c) == docs;
      }
    }
  }

  /** The documents of a category are documents of its entries. */
  lemma {:induction false} DocsOfMembers(entries: seq<(string, string)>, c: string)
    ensures forall d :: d in DocsOf(entries, c) ==> exists i :: 0 <= i < |entries| && entries[i] == (c, d)
    decreases |entries|
  {
    if entries != [] {
      var init := entries[..|entries| - 1];
      DocsOfMembers(init, c);
      assert forall i :: 0 <= i < |init| ==> init[i] == entries[i];
    }
  }

  /** A listed resource item: its name and what serialising it to YAML gives
      (`None`: serialisation failed). */
  datatype Item = Item(name: string, yaml: Option<string>)

  /** Line 247-250: the name an item is classified under. */
  function ScanName(name: string): (r: string)
    ensures r != ""
    ensures name != "" ==> r == name
    ensures name == "" ==> r == "unknown"
  {
    if |name| == 0 then "unknown" else name
  }

  /** The (category, document) pairs of the items the classifier decided to
      scan, in item order. */
  function Scanned(items: seq<Item>, decisions: seq<(string, bool)>): seq<(string, string)>
    requires |items| == |decisions|
    decreases |items|
  {
    if items == [] then []
    else
      var n := |items| - 1;
      Scanned(items[..n], decisions[..n])
        + (if decisions[n].1 && items[n].yaml.Some? then [(decisions[n].0, items[n].yaml.value)] else [])
  }

  /** Scanned over one more item. */
  lemma ScannedStep(items: seq<Item>, decisions: seq<(string, bool)>, i: nat)
    requires i < |items| && |decisions| == i + 1
    ensures Scanned(items[..i + 1], decisions) == Scanned(items[..i], decisions[..i])
      + (if decisions[i].1 && items[i].yaml.Some? then [(decisions[i].0, items[i].yaml.value)] else [])
  {
    assert items[..i + 1][..i] == items[..i];
  }

  /** Accumulate over one more pair. */
  lemma AccumulateStep(m: map<string, string>, entries: seq<(string, string)>, e: (string, string))
    ensures Accumulate(m, entries + [e]) ==
      var acc := Accumulate(m, entries);
      acc[e.0 := AppendDocument(if e.0 in acc then acc[e.0] else "", e.1)]
  {
    assert (entries + [e])[..|entries|] == entries;
  }

  /** Line 260-264 on the map: the category's text grows by one document. */
  method AppendToCategory(yamlMap: map<string, string>, categoryName: string, yamlData: string)
    returns (m: map<string, string>)
    ensures m == yamlMap[categoryName := AppendDocument(if categoryName in yamlMap then yamlMap[categoryName] else "", yamlData)]
  {
    ghost var text := if categoryName in yamlMap then yamlMap[categoryName] else "";
    m := yamlMap;
    if |(if categoryName in m then m[categoryName] else "")| != 0 {
      m := m[categoryName := m[categoryName] + Separator];
    }
    m := m[categoryName := (if categoryName in m then m[categoryName] else "") + yamlData];
    if |text| == 0 {
      assert text + yamlData == yamlData;
    }
  }

  /** Every scanned pair is a scanned item's document under its category. */
  lemma {:induction false} ScannedMembers(items: seq<Item>, decisions: seq<(string, bool)>)
    requires |items| == |decisions|
    ensures forall e :: e in Scanned(items, decisions) ==>
      exists i :: 0 <= i < |items| && decisions[i] == (e.0, true) && items[i].yaml == Some(e.1)
    decreases |items|
  {
    if items != [] {
      var n := |items| - 1;
      ScannedMembers(items[..n], decisions[..n]);
      assert forall i :: 0 <= i < n ==> items[..n][i] == items[i] && decisions[..n][i] == decisions[i];
    }
  }

  /** Each decision is a classification of its item's scan name. */
  ghost predicate Classifies(components: map<string, string>, filePath: string, re: RegexEngine,
                             items: seq<Item>, decisions: seq<(string, bool)>)
    requires |items| == |decisions|
    decreases |items|
  {
    items == [] ||
      var n := |items| - 1;
      && Classifies(components, filePath, re, items[..n], decisions[..n])
      && IsClassification(components, filePath, re, ScanName(items[n].name), decisions[n].0, decisions[n].1)
  }

  /** Classifies, item by item. */
  lemma {:induction false} ClassifiesEach(components: map<string, string>, filePath: string, re: RegexEngine,
                                          items: seq<Item>, decisions: seq<(string, bool)>)
    requires |items| == |decisions|
    requires Classifies(components, filePath, re, items, decisions)
    ensures forall i :: 0 <= i < |items| ==>
      IsClassification(components, filePath, re, ScanName(items[i].name), decisions[i].0, decisions[i].1)
    decreases |items|
  {
    if items != [] {
      var n := |items| - 1;
      ClassifiesEach(components, filePath, re, items[..n], decisions[..n]);
      assert forall i :: 0 <= i < n ==> items[..n][i] == items[i] && decisions[..n][i] == decisions[i];
    }
  }

  /** Classifies over one more item. */
  lemma ClassifiesStep(components: map<string, string>, filePath: string, re: RegexEngine,
                       items: seq<Item>, decisions: seq<(string, bool)>, i: nat)
    requires i < |items| && |decisions| == i + 1
    requires Classifies(components, filePath, re, items[..i], decisions[..i])
    requires IsClassification(components, filePath, re, ScanName(items[i].name), decisions[i].0, decisions[i].1)
    ensures Classifies(components, filePath, re, items[..i + 1], decisions)
  {
    assert items[..i + 1][..i] == items[..i];
  }

  /** What the item loop has built after the items classified by
      `decisions`: every item to scan had its YAML, and the category texts
      are the accumulation of the scanned documents. */
  ghost predicate Accumulated(items: seq<Item>, decisions: seq<(string, bool)>,
                              yamlMap0: map<string, string>, yamlMap: map<string, string>)
    requires |items| == |decisions|
  {
    && (forall j :: 0 <= j < |items| && decisions[j].1 ==> items[j].yaml.Some?)
    && yamlMap == Accumulate(yamlMap0, Scanned(items, decisions))
  }

  /** Accumulated over one more item. */
  lemma AccumulatedStep(items: seq<Item>, decisions: seq<(string, bool)>, i: nat,
                        yamlMap0: map<string, string>, yamlMap: map<string, string>,
                        categoryName: string, shouldScan: bool, next: map<string, string>)
    requires i < |items| && |decisions| == i
    requires Accumulated(items[..i], decisions, yamlMap0, yamlMap)
    requires shouldScan ==> (&& items[i].yaml.Some?
                             && next == yamlMap[categoryName := AppendDocument(if categoryName in yamlMap then yamlMap[categoryName] else "", items[i].yaml.value)])
    requires !shouldScan ==> next == yamlMap
    ensures Accumulated(items[..i + 1], decisions + [(categoryName, shouldScan)], yamlMap0, next)
  {
    var decisions' := decisions + [(categoryName, shouldScan)];
    assert decisions'[..i] == decisions;
    ScannedStep(items, decisions', i);
    if shouldScan {
      AccumulateStep(yamlMap0, Scanned(items[..i], decisions), (categoryName, items[i].yaml.value));
    } else {
      assert Scanned(items[..i], decisions) + [] == Scanned(items[..i], decisions);
    }
  }

  /** The body of the item loop for item `i`: classify it under its scan
      name and, when it is to be scanned, append its YAML to its category.
      A load error or a serialisation failure is fatal. `decisions` are the
      classifier's answers for the items before `i`. */
  method AccumulateItem(cache: FocusComponentCache, yamlMap: map<string, string>, items: seq<Item>, i: nat,
                        ghost decisions: seq<(string, bool)>, ghost yamlMap0: map<string, string>,
                        focusComponentConfigPath: string, readFile: string -> ConfigFile, re: RegexEngine)
    returns (yamlMap': map<string, string>, categoryName: string, shouldScan: bool, fatal: bool)
    requires i < |items| && |decisions| == i
    requires cache.Valid()
    requires i > 0 ==> cache.loaded && cache.loadError == None
    requires i > 0 ==> Classifies(cache.components, focusComponentConfigPath, re, items[..i], decisions)
    requires Accumulated(items[..i], decisions, yamlMap0, yamlMap)
    modifies cache
    ensures cache.Valid() && cache.loaded
    ensures old(cache.loaded) ==> cache.components == old(cache.components) && cache.loadError == old(cache.loadError)
    ensures cache.loadError == None ==>
      Classifies(cache.components, focusComponentConfigPath, re, items[..i + 1], decisions + [(categoryName, shouldScan)])
    ensures fatal <==> cache.loadError != None || (shouldScan && items[i].yaml.None?)
    ensures !fatal && shouldScan ==>
      yamlMap' == yamlMap[categoryName := AppendDocument(if categoryName in yamlMap then yamlMap[categoryName] else "", items[i].yaml.value)]
    ensures !fatal && !shouldScan ==> yamlMap' == yamlMap
    ensures !fatal ==> Accumulated(items[..i + 1], decisions + [(categoryName, shouldScan)], yamlMap0, yamlMap')
  {
    var item := items[i];
    var name := item.name;
    if |name| == 0 {
      name := "unknown";
    }
    var loadFailed;
    categoryName, shouldScan, loadFailed := cache.FindFocusComponent(name, focusComponentConfigPath, readFile, re);
    yamlMap' := yamlMap;
    if loadFailed {
      return yamlMap', categoryName, shouldScan, true;
    }
    ghost var decisions' := decisions + [(categoryName, shouldScan)];
    assert decisions'[..i] == decisions;
    if i == 0 {
      assert items[..i] == [];
    }
    ClassifiesStep(cache.components, focusComponentConfigPath, re, items, decisions', i);
    if shouldScan {
      if item.yaml.None? {
        return yamlMap', categoryName, shouldScan, true;
      }
      yamlMap' := AppendToCategory(yamlMap, categoryName, item.yaml.value);
    }
    AccumulatedStep(items, decisions, i, yamlMap0, yamlMap, categoryName, shouldScan, yamlMap');
    fatal := false;
  }

  /** The item loop of snapshotYAMLs (lines 246-266): classify each item by
      name through the focus-component cache and append the YAML of those
      to scan to the text of their category. A load error of the
      classifier or a serialisation failure ends the process (`fatal`).
      `decisions` records what the classifier answered for each item. */
  method AccumulateItems(cache: FocusComponentCache, yamlMap0: map<string, string>, items: seq<Item>,
                         focusComponentConfigPath: string, readFile: string -> ConfigFile, re: RegexEngine)
    returns (yamlMap: map<string, string>, fatal: bool, ghost decisions: seq<(string, bool)>)
    requires cache.Valid()
    modifies cache
    ensures cache.Valid()
    ensures old(cache.loaded) ==> cache.components == old(cache.components) && cache.loadError == old(cache.loadError)
    ensures |decisions| <= |items|
    ensures cache.loadError == None ==> Classifies(cache.components, focusComponentConfigPath, re, items[..|decisions|], decisions)
    ensures !fatal ==> |decisions| == |items| && Accumulated(items, decisions, yamlMap0, yamlMap)
    ensures fatal ==> (|| cache.loadError != None
                       || (|decisions| > 0 && decisions[|decisions| - 1].1 && items[|decisions| - 1].yaml.None?))
  {
    yamlMap := yamlMap0;
    decisions := [];
    fatal := false;
    for i := 0 to |items|
      invariant cache.Valid()
      invariant old(cache.loaded) ==> cache.components == old(cache.components) && cache.loadError == old(cache.loadError)
      invariant |decisions| == i
      invariant old(cache.loaded) ==> cache.loaded
      invariant i > 0 ==> cache.loaded && cache.loadError == None
      invariant i > 0 ==> Classifies(cache.components, focusComponentConfigPath, re, items[..i], decisions)
      invariant Accumulated(items[..i], decisions, yamlMap0, yamlMap)
    {
      var next, categoryName, shouldScan, itemFatal :=
        AccumulateItem(cache, yamlMap, items, i, decisions, yamlMap0, focusComponentConfigPath, readFile, re);
      if cache.loadError != None {
        return yamlMap, true, decisions;
      }
      decisions := decisions + [(categoryName, shouldScan)];
      if itemFatal {
        return yamlMap, true, decisions;
      }
      yamlMap := next;
    }
    assert items[..|items|] == items;
  }

  // ---------------------------------------------------------------------
  // Discovery

  datatype APIResource = APIResource(name: string, namespaced: bool)
  datatype APIResourceList = APIResourceList(groupVersion: string, apiResources: seq<APIResource>)
  datatype GroupVersion = GroupVersion(group: string, version: string)
  datatype GroupVersionResource = GroupVersionResource(group: string, version: string, resource: string)

  /** The namespaced resources of one list, in order. */
  function Namespaced(gv: GroupVersion, resources: seq<APIResource>): seq<GroupVersionResource>
    decreases |resources|
  {
    if resources == [] then []
    else
      var r := resources[|resources| - 1];
      Namespaced(gv, resources[..|resources| - 1])
        + (if r.namespaced then [GroupVersionResource(gv.group, gv.version, r.name)] else [])
  }

  /** Exactly the namespaced resources appear, under the list's group and
      version, and no more often than there are resources. */
  lemma {:induction false} NamespacedMembers(gv: GroupVersion, resources: seq<APIResource>)
    ensures |Namespaced(gv, resources)| <= |resources|
    ensures forall g :: g in Namespaced(gv, resources) <==>
      exists r :: r in resources && r.namespaced && g == GroupVersionResource(gv.group, gv.version, r.name)
    decreases |resources|
  {
    if resources != [] {
      var init := resources[..|resources| - 1];
      NamespacedMembers(gv, init);
      assert resources == init + [resources[|resources| - 1]];
    }
  }

  /** Every list's group version parses. */
  predicate AllParse(lists: seq<APIResourceList>, parse: string -> Option<GroupVersion>)
  {
    forall i :: 0 <= i < |lists| ==> parse(lists[i].groupVersion).Some?
  }

  /** The namespaced resources of all lists, list by list, in discovery order. */
  function AllNamespaced(lists: seq<APIResourceList>, parse: string -> Option<GroupVersion>): seq<GroupVersionResource>
    requires AllParse(lists, parse)
    decreases |lists|
  {
    if lists == [] then []
    else
      var l := lists[|lists| - 1];
      AllNamespaced(lists[..|lists| - 1], parse) + Namespaced(parse(l.groupVersion).value, l.apiResources)
  }

  /** getAllResources: the namespaced resources of the discovery result;
      a discovery error or a group version that does not parse is an
      error. `discovered` is ServerPreferredResources' answer and `parse`
      stands for schema.ParseGroupVersion. */
  method GetAllResources(discovered: Result<seq<APIResourceList>, string>, parse: string -> Option<GroupVersion>)
    returns (r: Result<seq<GroupVersionResource>, string>)
    ensures r.Success? <==> discovered.Success? && AllParse(discovered.value, parse)
    ensures r.Success? ==> r.value == AllNamespaced(discovered.value, parse)
  {
    if discovered.Failure? {
      return Failure("failed to get preferred resources");
    }
    var apiResourceLists := discovered.value;
    var gvrs: seq<GroupVersionResource> := [];
    for i := 0 to |apiResourceLists|
      invariant AllParse(apiResourceLists[..i], parse)
      invariant gvrs == AllNamespaced(apiResourceLists[..i], parse)
    {
      var apiResourceList := apiResourceLists[i];
      var gv := parse(apiResourceList.groupVersion);
      if gv.None? {
        return Failure("failed to parse group version");
      }
      assert apiResourceLists[..i + 1][..i] == apiResourceLists[..i];
      var resources := apiResourceList.apiResources;
      ghost var before := gvrs;
      for j := 0 to |resources|
        invariant gvrs == before + Namespaced(gv.value, resources[..j])
      {
        assert resources[..j + 1][..j] == resources[..j];
        var apiResource := resources[j];
        if !apiResource.namespaced {
          continue;
        }
        gvrs := gvrs + [GroupVersionResource(gv.value.group, gv.value.version, apiResource.name)];
      }
      assert resources[..|resources|] == resources;
    }
    assert apiResourceLists[..|apiResourceLists|] == apiResourceLists;
    return Success(gvrs);
  }
}
