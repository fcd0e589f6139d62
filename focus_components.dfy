/** The focus-component classifier with its load-once cache
    (focusComponentConfigurator.go). The package-level map, the sync.Once
    and the stored load error become the fields of one cache object. */
module FocusComponents {
  import opened Types
  import opened Utils

  /** What reading the configuration file and decoding it as a JSON object
      of category -> pattern strings gives. */
  datatype ConfigFile = ReadFailed | Malformed | Parsed(raw: map<string, string>)

  /** The categories of `raw` whose patterns compile, each with its own pattern. */
  function Compiled(raw: map<string, string>, re: RegexEngine): (m: map<string, string>)
    ensures m.Keys <= raw.Keys
    ensures forall c :: c in m ==> m[c] == raw[c] && re.compiles(raw[c])
    ensures forall c :: c in raw && re.compiles(raw[c]) ==> c in m
  {
    map c | c in raw && re.compiles(raw[c]) :: raw[c]
  }

  /** The load error loadFocusComponentMap reports for `filePath`. */
  function LoadError(filePath: string, readFile: string -> ConfigFile): (err: Option<string>)
    ensures err == None <==> filePath == "" || readFile(filePath).Parsed?
  {
    if filePath == "" then None
    else match readFile(filePath)
      case ReadFailed => Some("failed to read file")
      case Malformed => Some("failed to unmarshal JSON")
      case Parsed(_) => None
  }

  /** The map loadFocusComponentMap installs when it succeeds. */
  function LoadedMap(filePath: string, readFile: string -> ConfigFile, re: RegexEngine): (m: map<string, string>)
    requires LoadError(filePath, readFile) == None
    ensures filePath == "" ==> m == map[]
  {
    if filePath == "" then map[] else Compiled(readFile(filePath).raw, re)
  }

  /** What FindFocusComponent may answer for `name` once `components` is
      loaded: with no path, every name is scanned under the empty category;
      otherwise some category whose pattern matches, or ("", false) when
      none does. */
  ghost predicate IsClassification(components: map<string, string>, filePath: string, re: RegexEngine,
                                   name: string, category: string, shouldScan: bool)
  {
    if filePath == "" then category == "" && shouldScan
    else if shouldScan then category in components && re.matches(components[category], name)
    else category == "" && forall c :: c in components ==> !re.matches(components[c], name)
  }

  class FocusComponentCache {
    /** focusComponentMap: category -> compiled pattern (kept as its source text). */
    var components: map<string, string>
    /** Whether the sync.Once has run. */
    var loaded: bool
    /** focusComponentMapCacheLoadError. */
    var loadError: Option<string>

    /** Nothing loaded yet: all three package variables at their zero values. */
    ghost predicate Valid()
      reads this
    {
      !loaded ==> components == map[] && loadError == None
    }

    constructor ()
      ensures Valid() && !loaded && components == map[] && loadError == None
    {
      components, loaded, loadError := map[], false, None;
    }

    /** loadFocusComponentMap: an empty path installs the empty map; otherwise
        the file's categories whose patterns compile. A read or decode error
        is returned and leaves the map as it was. */
    method LoadFocusComponentMap(filePath: string, readFile: string -> ConfigFile, re: RegexEngine)
      returns (err: Option<string>)
      modifies this`components
      ensures err == LoadError(filePath, readFile)
      ensures err == None ==> components == LoadedMap(filePath, readFile, re)
      ensures err != None ==> components == old(components)
    {
      if filePath == "" {
        components := map[];
        return None;
      }
      var file := readFile(filePath);
      if file.ReadFailed? {
        return Some("failed to read file");
      }
      if file.Malformed? {
        return Some("failed to unmarshal JSON");
      }
      var raw := file.raw;
      components := map[];
      var pending := raw.Keys;
      while pending != {}
        invariant pending <= raw.Keys
        invariant components.Keys <= raw.Keys - pending
        invariant forall c :: c in components ==> components[c] == raw[c] && re.compiles(raw[c])
        invariant forall c :: c in raw && c !in pending && re.compiles(raw[c]) ==> c in components
        decreases pending
      {
        var categoryName :| categoryName in pending;
        var pattern := raw[categoryName];
        if re.compiles(pattern) {
          components := components[categoryName := pattern];
        }
        pending := pending - {categoryName};
      }
      assert components == Compiled(raw, re);
      return None;
    }

    /** FindFocusComponent: the first call loads the map from its own path;
        every later call reuses that map and that load error whatever path it
        is given. A load error ends the process (`fatal`). */
    method FindFocusComponent(name: string, filePath: string, readFile: string -> ConfigFile, re: RegexEngine)
      returns (category: string, shouldScan: bool, fatal: bool)
      requires Valid()
      modifies this
      ensures Valid() && loaded
      ensures old(loaded) ==> components == old(components) && loadError == old(loadError)
      ensures !old(loaded) ==> loadError == LoadError(filePath, readFile)
      ensures !old(loaded) && loadError == None ==> components == LoadedMap(filePath, readFile, re)
      ensures fatal <==> loadError != None
      ensures !fatal ==> IsClassification(components, filePath, re, name, category, shouldScan)
    {
      if !loaded {
        loadError := LoadFocusComponentMap(filePath, readFile, re);
        loaded := true;
      }
      if loadError != None {
        return "", false, true;
      }
      if filePath == "" {
        return "", true, false;
      }
      var pending := components.Keys;
      while pending != {}
        invariant pending <= components.Keys
        invariant forall c :: c in components && c !in pending ==> !re.matches(components[c], name)
        decreases pending
      {
        var categoryName :| categoryName in pending;
        if re.matches(components[categoryName], name) {
          return categoryName, true, false;
        }
        pending := pending - {categoryName};
      }
      return "", false, false;
    }
  }

  /** A process whose first lookup passes an empty path scans every name
      under the empty category, and every later lookup with a real path
      finds nothing: the empty map stays cached. */
  method FirstEmptyPathDisablesScoping(name: string, otherName: string, otherPath: string,
                                       readFile: string -> ConfigFile, re: RegexEngine)
    returns (first: (string, bool), later: (string, bool))
    requires otherPath != ""
    ensures first == ("", true)
    ensures later == ("", false)
  {
    var cache := new FocusComponentCache();
    var c1, s1, f1 := cache.FindFocusComponent(name, "", readFile, re);
    var c2, s2, f2 := cache.FindFocusComponent(otherName, otherPath, readFile, re);
    first, later := (c1, s1), (c2, s2);
  }

  /** The configurator's purifier: the identity. */
  function PurifyViolation(v: ViolationRef): (r: ViolationRef)
    ensures r == v
  {
    v
  }

  /** ShouldReportBasedOnAllowList: report iff the key is not allowlisted. */
  function ShouldReportBasedOnAllowList(v: ViolationRef, allowedResourceKeysMap: map<string, seq<ViolationRef>>)
    : (report: bool)
    ensures report <==> FetchResourceKey(v) !in allowedResourceKeysMap
  {
    FetchResourceKey(v) !in allowedResourceKeysMap
  }
}
