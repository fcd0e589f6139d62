/** The allowlist store and the map-based focus-component search
    (allowlist.go). */
module Allowlist {
  import opened Types
  import opened Utils
  import opened Seqs

  /** FindFocusComponent over a category -> pattern map. Go visits the map
      in an unspecified order, modelled by an arbitrary choice of the next
      category; a pattern that fails to compile is skipped. */
  method FindFocusComponent(name: string, focusComponentMap: map<string, string>, re: RegexEngine)
    returns (category: string, found: bool)
    ensures found ==> category in focusComponentMap && re.MatchString(focusComponentMap[category], name)
    ensures !found ==> category == ""
    ensures !found <==> forall c :: c in focusComponentMap ==> !re.MatchString(focusComponentMap[c], name)
  {
    var pending := focusComponentMap.Keys;
    while pending != {}
      invariant pending <= focusComponentMap.Keys
      invariant forall c :: c in focusComponentMap && c !in pending ==> !re.MatchString(focusComponentMap[c], name)
      decreases pending
    {
      var c :| c in pending;
      if re.MatchString(focusComponentMap[c], name) {
        return c, true;
      }
      pending := pending - {c};
    }
    return "", false;
  }

  /** One step of the walk over the embedded allowlist tree: a callback
      invoked with an error, or an entry with its name, whether it is a
      directory and, for a file, what decoding it as a JSON list of
      violations gives (`None`: the file is not such a list). */
  datatype WalkEvent =
    | WalkError
    | Visit(name: string, isDir: bool, parsed: Option<seq<ViolationRef>>)

  predicate IsJsonFile(e: WalkEvent)
  {
    e.Visit? && !e.isDir && |e.name| >= 5 && e.name[|e.name| - 5..] == ".json"
  }

  /** An event that makes the walk callback return an error, ending the walk. */
  predicate StopsWalk(e: WalkEvent)
  {
    e.WalkError? || (IsJsonFile(e) && e.parsed.None?)
  }

  /** The violations the walk collects: the decoded lists of the `.json`
      files, in walk order, up to the first event that stops the walk. */
  function Loaded(walk: seq<WalkEvent>): (vs: seq<ViolationRef>)
    ensures (forall i :: 0 <= i < |walk| ==> !IsJsonFile(walk[i])) ==> vs == []
    decreases |walk|
  {
    if walk == [] || StopsWalk(walk[0]) then []
    else if IsJsonFile(walk[0]) then walk[0].parsed.value + Loaded(walk[1..])
    else Loaded(walk[1..])
  }

  /** Every loaded violation comes from a decoded `.json` file of the walk. */
  lemma {:induction false} LoadedFromJsonFiles(walk: seq<WalkEvent>, x: ViolationRef)
    requires x in Loaded(walk)
    ensures exists i :: 0 <= i < |walk| && IsJsonFile(walk[i]) && walk[i].parsed.Some? && x in walk[i].parsed.value
    decreases |walk|
  {
    if IsJsonFile(walk[0]) && x in walk[0].parsed.value {
    } else {
      LoadedFromJsonFiles(walk[1..], x);
      var i :| 0 <= i < |walk[1..]| && IsJsonFile(walk[1..][i]) && walk[1..][i].parsed.Some? && x in walk[1..][i].parsed.value;
      assert walk[i + 1] == walk[1..][i];
    }
  }

  /** A failure ends the load: what follows it in the walk is never read,
      and what came before it is kept (a partial allowlist). */
  lemma {:induction false} LoadedStopsAtFailure(walk: seq<WalkEvent>, k: nat)
    requires k < |walk| && StopsWalk(walk[k])
    ensures Loaded(walk) == Loaded(walk[..k])
    decreases k
  {
    if k > 0 && !StopsWalk(walk[0]) {
      LoadedStopsAtFailure(walk[1..], k - 1);
      assert walk[1..][..k - 1] == walk[..k][1..];
    }
  }

  /** allowedViolations: walks the tree, collecting the `.json` files'
      violations. A failure ends the walk and is only printed: the error
      result is always nil. */
  method AllowedViolations(walk: seq<WalkEvent>) returns (vs: seq<ViolationRef>, err: Option<string>)
    ensures err == None
    ensures vs == Loaded(walk)
  {
    vs := [];
    var i := 0;
    while i < |walk|
      invariant 0 <= i <= |walk|
      invariant Loaded(walk) == vs + Loaded(walk[i..])
    {
      var e := walk[i];
      assert walk[i..][0] == e && walk[i..][1..] == walk[i + 1..];
      if StopsWalk(e) {
        break;
      }
      if IsJsonFile(e) {
        vs := vs + e.parsed.value;
      }
      i := i + 1;
    }
    err := None;
  }

  /** Whether a violation's key is `key`. */
  function HasKey(key: string): ViolationRef -> bool
  {
    v => FetchResourceKey(v) == key
  }

  /** The violations of `vs` whose key is `key`, in order. */
  function WithKey(vs: seq<ViolationRef>, key: string): seq<ViolationRef>
  {
    Filter(HasKey(key), vs)
  }

  /** Each bucket holds exactly the violations with its key, and each
      violation lies in the bucket of its own key only. */
  lemma WithKeyMembers(vs: seq<ViolationRef>, key: string)
    ensures forall x :: x in WithKey(vs, key) <==> x in vs && FetchResourceKey(x) == key
  {
    FilterMembers(HasKey(key), vs);
    forall x
      ensures x in WithKey(vs, key) <==> x in vs && FetchResourceKey(x) == key
    {
      assert HasKey(key)(x) == (FetchResourceKey(x) == key);
    }
  }

  /** A key no violation has gets an empty bucket. */
  lemma WithKeyAbsent(vs: seq<ViolationRef>, key: string)
    requires forall x :: x in vs ==> FetchResourceKey(x) != key
    ensures WithKey(vs, key) == []
  {
    FilterEmpty(HasKey(key), vs);
  }

  /** A bucket holds every copy of each violation with its key, and no
      other violation. */
  lemma WithKeyCount(vs: seq<ViolationRef>, key: string, x: ViolationRef)
    ensures multiset(WithKey(vs, key))[x] == if FetchResourceKey(x) == key then multiset(vs)[x] else 0
  {
    FilterCount(HasKey(key), vs, x);
  }

  /** The key -> violations map built one violation at a time. */
  function Buckets(vs: seq<ViolationRef>): (m: map<string, seq<ViolationRef>>)
    ensures forall key :: key in m ==> m[key] != []
    decreases |vs|
  {
    if vs == [] then map[]
    else
      var m := Buckets(vs[..|vs| - 1]);
      var last := vs[|vs| - 1];
      var key := FetchResourceKey(last);
      m[key := (if key in m then m[key] else []) + [last]]
  }

  /** The buckets hold exactly the keys present, each with WithKey. */
  lemma {:induction false} BucketsGroupByKey(vs: seq<ViolationRef>)
    ensures forall key :: key in Buckets(vs) <==> exists x :: x in vs && FetchResourceKey(x) == key
    ensures forall key :: key in Buckets(vs) ==> Buckets(vs)[key] == WithKey(vs, key)
    decreases |vs|
  {
    if vs != [] {
      var init := vs[..|vs| - 1];
      BucketsGroupByKey(init);
      assert vs == init + [vs[|vs| - 1]];
      var key := FetchResourceKey(vs[|vs| - 1]);
      if key !in Buckets(init) {
        WithKeyAbsent(init, key);
      }
    }
  }

  /** The buckets partition the violations: each violation's copies all
      lie in the bucket of its own key, and a bucket holds only violations
      with its key. The bucket sizes therefore add up to |vs|. */
  lemma BucketsPartition(vs: seq<ViolationRef>)
    ensures forall x :: x in vs ==>
      FetchResourceKey(x) in Buckets(vs) && multiset(Buckets(vs)[FetchResourceKey(x)])[x] == multiset(vs)[x]
    ensures forall key, x :: key in Buckets(vs) && x in Buckets(vs)[key] ==> FetchResourceKey(x) == key
  {
    BucketsGroupByKey(vs);
    forall x | x in vs
      ensures FetchResourceKey(x) in Buckets(vs) && multiset(Buckets(vs)[FetchResourceKey(x)])[x] == multiset(vs)[x]
    {
      WithKeyCount(vs, FetchResourceKey(x), x);
    }
    forall key | key in Buckets(vs)
      ensures forall x :: x in Buckets(vs)[key] ==> FetchResourceKey(x) == key
    {
      WithKeyMembers(vs, key);
    }
  }

  /** AllowedResourceKeysMap: the loaded violations grouped by key, each
      bucket in load order. The load-error branch gives an empty map. */
  method AllowedResourceKeysMap(walk: seq<WalkEvent>) returns (keyMap: map<string, seq<ViolationRef>>)
    ensures forall key :: key in keyMap <==> exists x :: x in Loaded(walk) && FetchResourceKey(x) == key
    ensures forall key :: key in keyMap ==> keyMap[key] == WithKey(Loaded(walk), key)
    ensures forall x :: x in Loaded(walk) ==>
      FetchResourceKey(x) in keyMap && multiset(keyMap[FetchResourceKey(x)])[x] == multiset(Loaded(walk))[x]
    ensures forall key, x :: key in keyMap && x in keyMap[key] ==> FetchResourceKey(x) == key
  {
    var violations, err := AllowedViolations(walk);
    keyMap := map[];
    if err.Some? {
      return;
    }
    for i := 0 to |violations|
      invariant keyMap == Buckets(violations[..i])
    {
      var v := violations[i];
      var key := FetchResourceKey(v);
      assert violations[..i + 1][..i] == violations[..i];
      keyMap := keyMap[key := (if key in keyMap then keyMap[key] else []) + [v]];
    }
    assert violations[..|violations|] == violations;
    BucketsGroupByKey(violations);
    BucketsPartition(violations);
  }

  /** The allowlist's purifier: the identity. */
  function PurifyViolation(v: ViolationRef): (r: ViolationRef)
    ensures r == v
  {
    v
  }

  /** ShouldReport: report a violation iff its key is not allowlisted. */
  function ShouldReport(v: ViolationRef, allowedResourceKeysMap: map<string, seq<ViolationRef>>): (report: bool)
    ensures report <==> FetchResourceKey(v) !in allowedResourceKeysMap
  {
    FetchResourceKey(v) !in allowedResourceKeysMap
  }

  /** Fail-open: an empty allowlist reports everything. */
  lemma EmptyAllowlistReportsAll(v: ViolationRef)
    ensures ShouldReport(v, map[])
  {
  }

  /** A violation loaded from the allowlist is never reported again. */
  lemma AllowlistedNotReported(walk: seq<WalkEvent>, keyMap: map<string, seq<ViolationRef>>, v: ViolationRef, w: ViolationRef)
    requires forall key :: key in keyMap <==> exists x :: x in Loaded(walk) && FetchResourceKey(x) == key
    requires w in Loaded(walk) && FetchResourceKey(v) == FetchResourceKey(w)
    ensures !ShouldReport(v, keyMap)
  {
  }
}
