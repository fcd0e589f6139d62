/** The YAML path selection of the static fetcher (staticFetcher.go):
    which strings of a Terraform plan, in its JSON form, name YAML files
    to validate. */
module StaticFetcher {
  import opened Types
  import opened Seqs

  /** A decoded JSON value. */
  datatype Json =
    | JNull
    | JBool(b: bool)
    | JNumber(n: real)
    | JString(s: string)
    | JArray(elems: seq<Json>)
    | JObject(fields: map<string, Json>)

  /** Decoding into a map fails (`UnmarshalFailed`) or an unchecked type
      assertion fails (`Panic`). */
  datatype PlanError = UnmarshalFailed | Panic

  const YamlFileSuffix := "_yaml_file"

  predicate HasSuffix(s: string, suffix: string)
  {
    |suffix| <= |s| && s[|s| - |suffix|..] == suffix
  }

  /** An attribute naming a YAML file: its key ends in "_yaml_file" and its
      value is a non-empty string. */
  predicate IsYamlAttribute(key: string, value: Json)
  {
    HasSuffix(key, YamlFileSuffix) && value.JString? && value.s != ""
  }

  /** The object under `key`: None when the key is missing or its value is
      not an object, which is when a single-value type assertion
      `.(map[string]interface{})` on the lookup panics. */
  function ObjectAt(fields: map<string, Json>, key: string): (r: Option<map<string, Json>>)
    ensures r.Some? <==> key in fields && fields[key].JObject?
    ensures r.Some? ==> r.value == fields[key].fields
  {
    if key in fields && fields[key].JObject? then Some(fields[key].fields) else None
  }

  /** `planned_values.root_module` of a plan object, if both steps are objects. */
  function RootModule(plan: map<string, Json>): (r: Option<map<string, Json>>)
    ensures r.Some? <==>
      (ObjectAt(plan, "planned_values").Some? && ObjectAt(ObjectAt(plan, "planned_values").value, "root_module").Some?)
  {
    match ObjectAt(plan, "planned_values")
    case None => None
    case Some(plannedValues) => ObjectAt(plannedValues, "root_module")
  }

  /** The comma-ok assertion `["resources"].([]interface{})`: the array, or
      nothing when it is missing or not an array. */
  function ResourcesIn(rootModule: map<string, Json>): (r: seq<Json>)
    ensures "resources" in rootModule && rootModule["resources"].JArray? ==> r == rootModule["resources"].elems
    ensures !("resources" in rootModule && rootModule["resources"].JArray?) ==> r == []
  {
    if "resources" in rootModule && rootModule["resources"].JArray? then rootModule["resources"].elems else []
  }

  /** Line 86-92: the plan's `planned_values.root_module.resources` array.
      `decoded` is what decoding the plan output as JSON gives (`None`: not
      valid JSON). JSON null decodes into a nil map, so its lookups fail the
      type assertions. A missing or non-object `planned_values` or
      `root_module` fails its assertion; a missing or non-array
      `resources` means no resources. */
  function PlanResources(decoded: Option<Json>): (r: Result<seq<Json>, PlanError>)
    ensures decoded.None? ==> r == Failure(UnmarshalFailed)
    ensures decoded.Some? && decoded.value.JNull? ==> r == Failure(Panic)
    ensures r == Failure(UnmarshalFailed) <==> decoded.None? || !(decoded.value.JObject? || decoded.value.JNull?)
    ensures decoded.Some? && decoded.value.JObject? ==>
      var rootModule := RootModule(decoded.value.fields);
      && (r == Failure(Panic) <==> rootModule.None?)
      && (rootModule.Some? ==> r == Success(ResourcesIn(rootModule.value)))
  {
    if decoded.None? || !(decoded.value.JObject? || decoded.value.JNull?) then Failure(UnmarshalFailed)
    else
      var planData := if decoded.value.JObject? then decoded.value.fields else map[];
      if "planned_values" !in planData || !planData["planned_values"].JObject? then Failure(Panic)
      else
        var plannedValues := planData["planned_values"].fields;
        if "root_module" !in plannedValues || !plannedValues["root_module"].JObject? then Failure(Panic)
        else
          var rootModule := plannedValues["root_module"].fields;
          if "resources" in rootModule && rootModule["resources"].JArray? then Success(rootModule["resources"].elems)
          else Success([])
  }

  /** The comma-ok assertion `resource.(map[string]interface{})` of line 94. */
  predicate IsObject(j: Json)
  {
    j.JObject?
  }

  /** The resources that are JSON objects, in order; the others are skipped. */
  function ObjectResources(resources: seq<Json>): seq<Json>
  {
    Filter(IsObject, resources)
  }

  /** Exactly the object entries survive, so non-objects are skipped. */
  lemma ObjectResourcesMembers(resources: seq<Json>)
    ensures forall x :: x in ObjectResources(resources) <==> x in resources && x.JObject?
  {
    FilterMembers(IsObject, resources);
  }

  /** ObjectResources over one more entry. */
  lemma ObjectResourcesStep(resources: seq<Json>, i: nat)
    requires i < |resources|
    ensures ObjectResources(resources[..i + 1]) ==
      ObjectResources(resources[..i]) + (if resources[i].JObject? then [resources[i]] else [])
  {
    assert resources[..i + 1][..i] == resources[..i];
  }

  /** A resource object whose `values` member is an object. */
  predicate HasValues(resource: Json)
  {
    resource.JObject? && "values" in resource.fields && resource.fields["values"].JObject?
  }

  /** The attributes of a resource: its `values` object. */
  function Attributes(resource: Json): map<string, Json>
  {
    if HasValues(resource) then resource.fields["values"].fields else map[]
  }

  /** `order` lists each YAML-file attribute of `attrs` exactly once: the
      order in which Go happened to visit them. */
  ghost predicate IsKeyOrder(attrs: map<string, Json>, order: seq<string>)
  {
    Distinct(order) && forall k :: k in order <==> k in attrs && IsYamlAttribute(k, attrs[k])
  }

  /** The YAML paths of `attrs`, visiting the keys in `order`. */
  function PathsIn(attrs: map<string, Json>, order: seq<string>): (r: seq<string>)
    ensures |r| <= |order|
    decreases |order|
  {
    if order == [] then []
    else
      var k := order[|order| - 1];
      PathsIn(attrs, order[..|order| - 1]) + (if k in attrs && IsYamlAttribute(k, attrs[k]) then [attrs[k].s] else [])
  }

  /** The YAML paths of each resource object, resource by resource. */
  function AllPaths(objects: seq<Json>, orders: seq<seq<string>>): seq<string>
    requires |objects| == |orders|
    decreases |objects|
  {
    if objects == [] then []
    else
      var n := |objects| - 1;
      AllPaths(objects[..n], orders[..n]) + PathsIn(Attributes(objects[n]), orders[n])
  }

  /** The paths of one resource are exactly the values of its YAML-file
      attributes: one per attribute. */
  lemma {:induction false} PathsInMembers(attrs: map<string, Json>, order: seq<string>)
    requires forall k :: k in order ==> k in attrs && IsYamlAttribute(k, attrs[k])
    ensures |PathsIn(attrs, order)| == |order|
    ensures forall p :: p in PathsIn(attrs, order) <==> exists k :: k in order && k in attrs && attrs[k].JString? && attrs[k].s == p
    decreases |order|
  {
    if order != [] {
      var init := order[..|order| - 1];
      assert order == init + [order[|order| - 1]];
      PathsInMembers(attrs, init);
    }
  }

  /** AllPaths peels off the last resource object. */
  lemma AllPathsStep(objects: seq<Json>, orders: seq<seq<string>>)
    requires |objects| == |orders| && objects != []
    ensures AllPaths(objects, orders) ==
      AllPaths(objects[..|objects| - 1], orders[..|objects| - 1]) + PathsIn(Attributes(objects[|objects| - 1]), orders[|objects| - 1])
  {
  }

  /** `p` is the value of a YAML-file attribute of one of `objects`. */
  ghost predicate IsYamlPathOf(objects: seq<Json>, p: string)
  {
    exists i, k :: 0 <= i < |objects| && k in Attributes(objects[i])
      && IsYamlAttribute(k, Attributes(objects[i])[k]) && Attributes(objects[i])[k].s == p
  }

  /** Every selected path is the non-empty string value of a YAML-file
      attribute of some resource object, and every such value is selected. */
  lemma AllPathsMembers(objects: seq<Json>, orders: seq<seq<string>>)
    requires |objects| == |orders|
    requires forall i :: 0 <= i < |objects| ==> IsKeyOrder(Attributes(objects[i]), orders[i])
    ensures forall p :: p in AllPaths(objects, orders) <==> IsYamlPathOf(objects, p)
  {
    forall p
      ensures p in AllPaths(objects, orders) <==> IsYamlPathOf(objects, p)
    {
      if p in AllPaths(objects, orders) {
        AllPathsSound(objects, orders, p);
      }
      if IsYamlPathOf(objects, p) {
        var i, k :| 0 <= i < |objects| && k in Attributes(objects[i])
          && IsYamlAttribute(k, Attributes(objects[i])[k]) && Attributes(objects[i])[k].s == p;
        AllPathsComplete(objects, orders, i, k);
      }
    }
  }

  /** A selected path comes from a YAML-file attribute. */
  lemma {:induction false} AllPathsSound(objects: seq<Json>, orders: seq<seq<string>>, p: string)
    requires |objects| == |orders|
    requires forall i :: 0 <= i < |objects| ==> IsKeyOrder(Attributes(objects[i]), orders[i])
    requires p in AllPaths(objects, orders)
    ensures IsYamlPathOf(objects, p)
    decreases |objects|
  {
    var n := |objects| - 1;
    var init, initOrders := objects[..n], orders[..n];
    var attrs := Attributes(objects[n]);
    AllPathsStep(objects, orders);
    if p in AllPaths(init, initOrders) {
      assert forall i :: 0 <= i < n ==> init[i] == objects[i] && initOrders[i] == orders[i];
      AllPathsSound(init, initOrders, p);
      var i, k :| 0 <= i < n && k in Attributes(init[i])
        && IsYamlAttribute(k, Attributes(init[i])[k]) && Attributes(init[i])[k].s == p;
      assert objects[i] == init[i];
    } else {
      assert IsKeyOrder(attrs, orders[n]);
      var k := PathsInSource(attrs, orders[n], p);
      assert IsYamlAttribute(k, attrs[k]);
    }
  }

  /** The value of every YAML-file attribute is selected. */
  lemma {:induction false} AllPathsComplete(objects: seq<Json>, orders: seq<seq<string>>, i: nat, k: string)
    requires |objects| == |orders|
    requires forall i :: 0 <= i < |objects| ==> IsKeyOrder(Attributes(objects[i]), orders[i])
    requires i < |objects| && k in Attributes(objects[i]) && IsYamlAttribute(k, Attributes(objects[i])[k])
    ensures Attributes(objects[i])[k].s in AllPaths(objects, orders)
    decreases |objects|
  {
    var n := |objects| - 1;
    var init, initOrders := objects[..n], orders[..n];
    AllPathsStep(objects, orders);
    if i < n {
      assert forall j :: 0 <= j < n ==> init[j] == objects[j] && initOrders[j] == orders[j];
      AllPathsComplete(init, initOrders, i, k);
    } else {
      assert IsKeyOrder(Attributes(objects[n]), orders[n]);
      PathsInHas(Attributes(objects[n]), orders[n], k);
    }
  }

  /** The attribute a path of PathsIn was read from. */
  lemma {:induction false} PathsInSource(attrs: map<string, Json>, order: seq<string>, p: string) returns (k: string)
    requires p in PathsIn(attrs, order)
    ensures k in order && k in attrs && IsYamlAttribute(k, attrs[k]) && attrs[k].s == p
    decreases |order|
  {
    var init, last := order[..|order| - 1], order[|order| - 1];
    if p in PathsIn(attrs, init) {
      k := PathsInSource(attrs, init, p);
      assert k in order by { assert order == init + [last]; }
    } else {
      k := last;
    }
  }

  /** A listed YAML-file attribute contributes its value to PathsIn. */
  lemma {:induction false} PathsInHas(attrs: map<string, Json>, order: seq<string>, k: string)
    requires k in order && k in attrs && IsYamlAttribute(k, attrs[k])
    ensures attrs[k].s in PathsIn(attrs, order)
    decreases |order|
  {
    var init, last := order[..|order| - 1], order[|order| - 1];
    if k != last {
      assert order == init + [last];
      PathsInHas(attrs, init, k);
    }
  }

  /** The YAML-file attributes of one `values` object, visited in Go's
      unspecified map order; `order` records that order. */
  method CollectYamlPaths(attributes: map<string, Json>) returns (paths: seq<string>, ghost order: seq<string>)
    ensures IsKeyOrder(attributes, order)
    ensures paths == PathsIn(attributes, order)
  {
    paths, order := [], [];
    var pending := attributes.Keys;
    while pending != {}
      invariant pending <= attributes.Keys
      invariant Distinct(order)
      invariant forall k :: k in order ==> k !in pending
      invariant forall k :: k in order <==> k in attributes && k !in pending && IsYamlAttribute(k, attributes[k])
      invariant paths == PathsIn(attributes, order)
      decreases pending
    {
      var key :| key in pending;
      var value := attributes[key];
      if HasSuffix(key, YamlFileSuffix) {
        if value.JString? && value.s != "" {
          paths := paths + [value.s];
          order := order + [key];
        }
      }
      pending := pending - {key};
    }
  }

  /** The paths collected for `objects`, visited in `orders`. */
  ghost predicate Collected(objects: seq<Json>, orders: seq<seq<string>>, yamlFiles: seq<string>)
  {
    && |orders| == |objects|
    && (forall j :: 0 <= j < |objects| ==> HasValues(objects[j]) && IsKeyOrder(Attributes(objects[j]), orders[j]))
    && yamlFiles == AllPaths(objects, orders)
  }

  /** Collecting one more resource object. */
  lemma CollectedStep(objects: seq<Json>, orders: seq<seq<string>>, yamlFiles: seq<string>,
                      resource: Json, order: seq<string>, paths: seq<string>)
    requires Collected(objects, orders, yamlFiles)
    requires HasValues(resource) && IsKeyOrder(Attributes(resource), order) && paths == PathsIn(Attributes(resource), order)
    ensures Collected(objects + [resource], orders + [order], yamlFiles + paths)
  {
    assert (objects + [resource])[..|objects|] == objects;
    assert (orders + [order])[..|orders|] == orders;
  }

  /** The loop over the resources array (lines 93-104). */
  method CollectFromResources(resources: seq<Json>)
    returns (r: Result<seq<string>, PlanError>, ghost orders: seq<seq<string>>)
    ensures r.Failure? <==> exists i :: 0 <= i < |ObjectResources(resources)| && !HasValues(ObjectResources(resources)[i])
    ensures r.Failure? ==> r.error == Panic
    ensures r.Success? ==> Collected(ObjectResources(resources), orders, r.value)
  {
    orders := [];
    var yamlFiles: seq<string> := [];
    for i := 0 to |resources|
      invariant Collected(ObjectResources(resources[..i]), orders, yamlFiles)
    {
      var resource := resources[i];
      ghost var objects := ObjectResources(resources[..i]);
      ObjectResourcesStep(resources, i);
      if resource.JObject? {
        var res := resource.fields;
        if "values" !in res || !res["values"].JObject? {
          ObjectResourcesPrefix(resources, i + 1);
          assert ObjectResources(resources[..i + 1])[|objects|] == resource;
          return Failure(Panic), orders;
        }
        var attributes := res["values"].fields;
        var paths, order := CollectYamlPaths(attributes);
        assert ObjectResources(resources[..i + 1]) == objects + [resource];
        CollectedStep(objects, orders, yamlFiles, resource, order, paths);
        yamlFiles := yamlFiles + paths;
        orders := orders + [order];
      } else {
        assert ObjectResources(resources[..i + 1]) == objects;
      }
    }
    assert resources[..|resources|] == resources;
    return Success(yamlFiles), orders;
  }

  /** extractYamlFromPlan: the YAML paths of the plan's resources. An
      invalid plan is an error; a failed type assertion panics (`Panic`);
      `orders` records, per resource object, the order its attributes were
      visited in. */
  method ExtractYamlFromPlan(decoded: Option<Json>)
    returns (r: Result<seq<string>, PlanError>, ghost orders: seq<seq<string>>)
    ensures PlanResources(decoded).Failure? ==> r == Failure(PlanResources(decoded).error)
    ensures PlanResources(decoded).Success? ==>
      var objects := ObjectResources(PlanResources(decoded).value);
      && (r.Failure? <==> exists i :: 0 <= i < |objects| && !HasValues(objects[i]))
      && (r.Failure? ==> r.error == Panic)
      && (r.Success? ==> Collected(objects, orders, r.value))
  {
    orders := [];
    var resources := PlanResources(decoded);
    if resources.Failure? {
      return Failure(resources.error), orders;
    }
    r, orders := CollectFromResources(resources.value);
  }

  /** The object resources of a prefix are a prefix of the object resources. */
  lemma {:induction false} ObjectResourcesPrefix(resources: seq<Json>, k: nat)
    requires k <= |resources|
    ensures |ObjectResources(resources[..k])| <= |ObjectResources(resources)|
    ensures ObjectResources(resources)[..|ObjectResources(resources[..k])|] == ObjectResources(resources[..k])
    decreases |resources| - k
  {
    if k < |resources| {
      var n := |resources| - 1;
      assert resources[..n][..k] == resources[..k];
      ObjectResourcesPrefix(resources[..n], k);
    } else {
      assert resources[..k] == resources;
    }
  }
}
