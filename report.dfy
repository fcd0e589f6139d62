/** The violation pipeline of the default result handler (report.go):
    purify, deduplicate, filter, report and record, then decide pass/fail. */
module Report {
  import opened Types
  import opened Utils
  import opened Seqs

  /** The handler's two pluggable functions. The process wires the
      allowlist's two-argument ShouldReport, partially applied to the loaded
      allowlist, where a one-argument predicate is expected. */
  datatype DefaultResultHandler = DefaultResultHandler(
    shouldReportViolation: Violation -> bool,
    purifyViolation: Violation -> Violation)

  datatype ReportAndRecordRequest = ReportAndRecordRequest(resourceName: string, violations: seq<Violation>)

  datatype ReportAndRecordResult = ReportAndRecordResult(
    resourceName: string,
    recordViolations: seq<Violation>,
    reportViolations: seq<Violation>)

  // ---------------------------------------------------------------------
  // Deduplication: what the two loops of deduplicate compute

  /** The purified violations, in input order. */
  function Purified(purify: Violation -> Violation, vs: seq<Violation>): (r: seq<Violation>)
    ensures |r| == |vs|
    decreases |vs|
  {
    if vs == [] then [] else Purified(purify, vs[..|vs| - 1]) + [purify(vs[|vs| - 1])]
  }

  /** Whether a violation has no resource key. */
  predicate IsKeyless(v: Violation)
  {
    KeyOf(v) == ""
  }

  /** The violations without a key, in order: these are never deduplicated. */
  function Keyless(s: seq<Violation>): seq<Violation>
  {
    Filter(IsKeyless, s)
  }

  /** The keyless part holds input violations without a key only. */
  lemma KeylessMembers(s: seq<Violation>)
    ensures forall x :: x in Keyless(s) ==> x in s && KeyOf(x) == ""
  {
    FilterMembers(IsKeyless, s);
  }

  /** The (key, message) pair under which a keyed violation is stored. */
  function Pair(v: Violation): (string, string)
  {
    (KeyOf(v), v.message)
  }

  /** key -> message -> violation after storing `v`; keyless ones are not stored. */
  function Insert(index: map<string, map<string, Violation>>, v: Violation): map<string, map<string, Violation>>
  {
    var key := KeyOf(v);
    if key == "" then index
    else index[key := (if key in index then index[key] else map[])[v.message := v]]
  }

  /** violationMap after the first loop: the last violation stored under
      each (key, message) pair. */
  function IndexOf(s: seq<Violation>): (index: map<string, map<string, Violation>>)
    ensures "" !in index
    decreases |s|
  {
    if s == [] then map[] else Insert(IndexOf(s[..|s| - 1]), s[|s| - 1])
  }

  /** Every stored violation sits under its own non-empty key and its own message. */
  ghost predicate WellKeyed(index: map<string, map<string, Violation>>)
  {
    forall key, msg :: key in index && msg in index[key] ==>
      key != "" && KeyOf(index[key][msg]) == key && index[key][msg].message == msg
  }

  /** The violations stored in `index`. */
  ghost function Entries(index: map<string, map<string, Violation>>): set<Violation>
  {
    set key, msg | key in index && msg in index[key] :: index[key][msg]
  }

  /** `x` is the violation stored under its own key and message. */
  ghost predicate Stored(index: map<string, map<string, Violation>>, x: Violation)
  {
    KeyOf(x) in index && x.message in index[KeyOf(x)] && index[KeyOf(x)][x.message] == x
  }

  /** In a well-keyed index the stored violations are the entries. */
  lemma EntriesAreStored(index: map<string, map<string, Violation>>)
    requires WellKeyed(index)
    ensures forall x :: x in Entries(index) <==> Stored(index, x)
  {
    forall x | Stored(index, x)
      ensures x in Entries(index)
    {
      var key, msg := KeyOf(x), x.message;
      assert key in index && msg in index[key] && x == index[key][msg];
    }
  }

  lemma SubsetCard<T>(a: set<T>, b: set<T>)
    requires a <= b
    ensures |a| <= |b|
    decreases |b|
  {
    if a != {} {
      var x :| x in a;
      SubsetCard(a - {x}, b - {x});
    }
  }

  /** The (key, message) pairs of the keyed violations of `s`. */
  ghost function KeyedPairs(s: seq<Violation>): set<(string, string)>
  {
    set x | x in s && KeyOf(x) != "" :: Pair(x)
  }

  /** What deduplicate returns for the purified input `s`: the keyless
      violations verbatim and in order, then, in some order, each stored
      violation exactly once. */
  ghost predicate IsDedupOf(s: seq<Violation>, out: seq<Violation>)
  {
    var keyless := Keyless(s);
    && |keyless| <= |out|
    && out[..|keyless|] == keyless
    && Distinct(out[|keyless|..])
    && (forall x :: x in out[|keyless|..] <==> x in Entries(IndexOf(s)))
  }

  lemma {:induction false} IndexWellKeyed(s: seq<Violation>)
    ensures WellKeyed(IndexOf(s))
    decreases |s|
  {
    if s != [] {
      IndexWellKeyed(s[..|s| - 1]);
    }
  }

  /** The stored pairs are exactly the pairs of the keyed inputs. */
  lemma {:induction false} IndexPairs(s: seq<Violation>)
    ensures forall key, msg :: key in IndexOf(s) && msg in IndexOf(s)[key] <==> (key, msg) in KeyedPairs(s)
    decreases |s|
  {
    if s != [] {
      var init, x := s[..|s| - 1], s[|s| - 1];
      IndexPairs(init);
      assert s == init + [x];
      assert KeyedPairs(s) == KeyedPairs(init) + (if KeyOf(x) != "" then {Pair(x)} else {});
    }
  }

  /** Last write wins: each stored violation is an input with that pair
      that no later input shares. */
  lemma {:induction false} IndexLastWins(s: seq<Violation>, key: string, msg: string)
    requires key in IndexOf(s) && msg in IndexOf(s)[key]
    ensures exists i :: (0 <= i < |s| && s[i] == IndexOf(s)[key][msg] && Pair(s[i]) == (key, msg)
      && forall j :: i < j < |s| && KeyOf(s[j]) != "" ==> Pair(s[j]) != (key, msg))
    decreases |s|
  {
    var init, x := s[..|s| - 1], s[|s| - 1];
    if KeyOf(x) != "" && Pair(x) == (key, msg) {
      IndexWellKeyed(s);
      assert s[|s| - 1] == IndexOf(s)[key][msg];
    } else {
      assert key in IndexOf(init) && msg in IndexOf(init)[key] && IndexOf(s)[key][msg] == IndexOf(init)[key][msg];
      IndexLastWins(init, key, msg);
      var i :| 0 <= i < |init| && init[i] == IndexOf(init)[key][msg] && Pair(init[i]) == (key, msg)
        && forall j :: i < j < |init| && KeyOf(init[j]) != "" ==> Pair(init[j]) != (key, msg);
      assert s[i] == init[i];
      assert forall j :: i < j < |s| && KeyOf(s[j]) != "" ==> Pair(s[j]) != (key, msg) by {
        forall j | i < j < |s| && KeyOf(s[j]) != ""
          ensures Pair(s[j]) != (key, msg)
        {
          if j < |init| {
            assert s[j] == init[j];
          }
        }
      }
    }
  }

  /** Storing one more violation adds at most that violation, and adds it
      when its pair was not stored yet. */
  lemma InsertEntries(index: map<string, map<string, Violation>>, v: Violation)
    requires WellKeyed(index)
    ensures Entries(Insert(index, v)) <= Entries(index) + {v}
    ensures KeyOf(v) != "" && !(KeyOf(v) in index && v.message in index[KeyOf(v)]) ==>
      Entries(Insert(index, v)) == Entries(index) + {v}
  {
    InsertAddsAtMost(index, v);
    if KeyOf(v) != "" && !(KeyOf(v) in index && v.message in index[KeyOf(v)]) {
      InsertAddsNew(index, v);
    }
  }

  lemma InsertAddsAtMost(index: map<string, map<string, Violation>>, v: Violation)
    ensures Entries(Insert(index, v)) <= Entries(index) + {v}
  {
    var key := KeyOf(v);
    var index' := Insert(index, v);
    forall y | y in Entries(index')
      ensures y in Entries(index) + {v}
    {
      var k, m :| k in index' && m in index'[k] && y == index'[k][m];
      if key == "" || k != key || m != v.message {
        assert k in index && m in index[k] && y == index[k][m];
      }
    }
  }

  lemma InsertAddsNew(index: map<string, map<string, Violation>>, v: Violation)
    requires KeyOf(v) != "" && !(KeyOf(v) in index && v.message in index[KeyOf(v)])
    ensures Entries(index) + {v} <= Entries(Insert(index, v))
  {
    var key := KeyOf(v);
    var index' := Insert(index, v);
    forall y | y in Entries(index)
      ensures y in Entries(index')
    {
      var k, m :| k in index && m in index[k] && y == index[k][m];
      assert k in index' && m in index'[k] && y == index'[k][m];
    }
    assert v == index'[key][v.message];
  }

  /** There are at most as many stored violations as keyed inputs. */
  lemma {:induction false} EntriesBound(s: seq<Violation>)
    ensures |Entries(IndexOf(s))| + |Keyless(s)| <= |s|
    decreases |s|
  {
    if s != [] {
      var init, x := s[..|s| - 1], s[|s| - 1];
      EntriesBound(init);
      IndexWellKeyed(init);
      InsertEntries(IndexOf(init), x);
      if KeyOf(x) == "" {
        assert IndexOf(s) == IndexOf(init);
      } else {
        assert Keyless(s) == Keyless(init);
        SubsetCard(Entries(IndexOf(s)), Entries(IndexOf(init)) + {x});
      }
    }
  }

  /** No two keyed violations of `s` share a (key, message) pair. */
  ghost predicate PairsUnique(s: seq<Violation>)
  {
    forall i, j :: 0 <= i < j < |s| && KeyOf(s[i]) != "" && KeyOf(s[j]) != "" ==> Pair(s[i]) != Pair(s[j])
  }

  /** With unique pairs nothing is overwritten: the stored violations are
      exactly the keyed inputs. */
  lemma {:induction false} EntriesOfUniquePairs(s: seq<Violation>)
    requires PairsUnique(s)
    ensures forall x :: x in Entries(IndexOf(s)) <==> x in s && KeyOf(x) != ""
    decreases |s|
  {
    if s != [] {
      var init, x := s[..|s| - 1], s[|s| - 1];
      assert s == init + [x];
      assert PairsUnique(init) by {
        forall i, j | 0 <= i < j < |init| && KeyOf(init[i]) != "" && KeyOf(init[j]) != ""
          ensures Pair(init[i]) != Pair(init[j])
        {
          assert init[i] == s[i] && init[j] == s[j];
        }
      }
      EntriesOfUniquePairs(init);
      IndexWellKeyed(init);
      InsertEntries(IndexOf(init), x);
      if KeyOf(x) != "" {
        assert !(KeyOf(x) in IndexOf(init) && x.message in IndexOf(init)[KeyOf(x)]);
      }
    }
  }

  // ---------------------------------------------------------------------
  // What a deduplicated list satisfies

  /** Among the keyed outputs no (key, message) pair appears twice. */
  lemma DedupPairsUnique(s: seq<Violation>, out: seq<Violation>)
    requires IsDedupOf(s, out)
    ensures PairsUnique(out)
  {
    KeylessMembers(s);
    var k := |Keyless(s)|;
    var rest := out[k..];
    IndexWellKeyed(s);
    EntriesAreStored(IndexOf(s));
    assert forall i :: 0 <= i < k ==> out[i] in Keyless(s);
    forall i, j | 0 <= i < j < |out| && KeyOf(out[i]) != "" && KeyOf(out[j]) != ""
      ensures Pair(out[i]) != Pair(out[j])
    {
      assert out[i] == rest[i - k] && out[j] == rest[j - k];
      assert Stored(IndexOf(s), out[i]) && Stored(IndexOf(s), out[j]);
    }
  }

  /** Deduplication keeps exactly the (key, message) pairs of its input. */
  lemma DedupKeepsPairs(s: seq<Violation>, out: seq<Violation>)
    requires IsDedupOf(s, out)
    ensures KeyedPairs(out) == KeyedPairs(s)
  {
    KeylessMembers(s);
    var k := |Keyless(s)|;
    IndexWellKeyed(s);
    IndexPairs(s);
    EntriesAreStored(IndexOf(s));
    assert out == out[..k] + out[k..];
    forall p | p in KeyedPairs(out)
      ensures p in KeyedPairs(s)
    {
      var x :| x in out && KeyOf(x) != "" && Pair(x) == p;
      assert x !in out[..k];
      assert Stored(IndexOf(s), x);
    }
    forall p | p in KeyedPairs(s)
      ensures p in KeyedPairs(out)
    {
      var x := IndexOf(s)[p.0][p.1];
      assert x in Entries(IndexOf(s));
      assert x in out[k..];
    }
  }

  /** Every keyed output is the last input with its (key, message) pair. */
  lemma DedupLastWins(s: seq<Violation>, out: seq<Violation>, x: Violation)
    requires IsDedupOf(s, out)
    requires x in out && KeyOf(x) != ""
    ensures exists i :: (0 <= i < |s| && s[i] == x
      && forall j :: i < j < |s| && KeyOf(s[j]) != "" ==> Pair(s[j]) != Pair(x))
  {
    KeylessMembers(s);
    var k := |Keyless(s)|;
    assert out == out[..k] + out[k..];
    assert x !in out[..k];
    IndexWellKeyed(s);
    EntriesAreStored(IndexOf(s));
    assert Stored(IndexOf(s), x);
    IndexLastWins(s, KeyOf(x), x.message);
  }

  /** Deduplication never lengthens its input. */
  lemma DedupShortens(s: seq<Violation>, out: seq<Violation>)
    requires IsDedupOf(s, out)
    ensures |out| <= |s|
  {
    var k := |Keyless(s)|;
    var rest := out[k..];
    DistinctMultiset(rest);
    assert (set x | x in rest) == Entries(IndexOf(s));
    assert |multiset(rest)| == |rest|;
    EntriesBound(s);
  }

  /** A deduplicated list splits again into the same keyless prefix and
      a tail whose entries are the stored violations. */
  lemma DedupOutputSplits(s: seq<Violation>, out: seq<Violation>)
    requires IsDedupOf(s, out)
    ensures Keyless(out) == Keyless(s)
    ensures forall x :: x in Entries(IndexOf(out)) <==> x in out[|Keyless(s)|..]
  {
    KeylessMembers(s);
    var k := |Keyless(s)|;
    var rest := out[k..];
    IndexWellKeyed(s);
    EntriesAreStored(IndexOf(s));
    assert out == Keyless(s) + rest;
    assert forall x :: x in rest ==> Stored(IndexOf(s), x);
    KeylessOfKeyed(Keyless(s), rest);
    DedupPairsUnique(s, out);
    EntriesOfUniquePairs(out);
  }

  /** Applied to its own output, deduplication returns the same violations,
      possibly in another order. */
  lemma DedupIdempotent(s: seq<Violation>, once: seq<Violation>, twice: seq<Violation>)
    requires IsDedupOf(s, once) && IsDedupOf(once, twice)
    ensures multiset(twice) == multiset(once)
  {
    var k := |Keyless(s)|;
    DedupOutputSplits(s, once);
    var rest, rest2 := once[k..], twice[k..];
    assert once == once[..k] + rest && twice == twice[..k] + rest2;
    SameSetSameMultiset(rest2, rest);
  }

  /** Keyless walks keyless violations through and drops keyed ones. */
  lemma KeylessOfKeyed(a: seq<Violation>, b: seq<Violation>)
    requires forall x :: x in a ==> KeyOf(x) == ""
    requires forall x :: x in b ==> KeyOf(x) != ""
    ensures Keyless(a + b) == a
  {
    KeylessDropsKeyed(a, b);
    KeylessKeepsKeyless(a);
  }

  /** Keyed violations appended at the end contribute nothing. */
  lemma KeylessDropsKeyed(a: seq<Violation>, b: seq<Violation>)
    requires forall x :: x in b ==> KeyOf(x) != ""
    ensures Keyless(a + b) == Keyless(a)
  {
    FilterAppend(IsKeyless, a, b);
    FilterEmpty(IsKeyless, b);
    assert Keyless(a) + [] == Keyless(a);
  }

  /** A sequence of keyless violations is its own keyless part. */
  lemma KeylessKeepsKeyless(a: seq<Violation>)
    requires forall x :: x in a ==> KeyOf(x) == ""
    ensures Keyless(a) == a
  {
    FilterAll(IsKeyless, a);
  }

  /** With the identity purifier nothing changes before keying. */
  lemma {:induction false} PurifiedByIdentity(purify: Violation -> Violation, vs: seq<Violation>)
    requires forall v :: purify(v) == v
    ensures Purified(purify, vs) == vs
    decreases |vs|
  {
    if vs != [] {
      PurifiedByIdentity(purify, vs[..|vs| - 1]);
    }
  }

  // ---------------------------------------------------------------------
  // The handler's steps

  /** deduplicate: purify each violation, keep those without a key verbatim,
      store the keyed ones by key and then message (last write wins), and
      append the stored ones in Go's unspecified map order. */
  method Deduplicate(d: DefaultResultHandler, violations: seq<Violation>) returns (out: seq<Violation>)
    ensures IsDedupOf(Purified(d.purifyViolation, violations), out)
  {
    var violationMap, violationArray := StoreViolations(d, violations);
    ghost var s := Purified(d.purifyViolation, violations);
    IndexWellKeyed(s);
    out := AppendStored(violationMap, violationArray);
    EntriesAreStored(violationMap);
  }

  /** Purified, Keyless and IndexOf over one more violation. */
  lemma PurifiedStep(purify: Violation -> Violation, vs: seq<Violation>, i: nat)
    requires i < |vs|
    ensures Purified(purify, vs[..i + 1]) == Purified(purify, vs[..i]) + [purify(vs[i])]
    ensures Keyless(Purified(purify, vs[..i + 1])) ==
      Keyless(Purified(purify, vs[..i])) + (if KeyOf(purify(vs[i])) == "" then [purify(vs[i])] else [])
    ensures IndexOf(Purified(purify, vs[..i + 1])) == Insert(IndexOf(Purified(purify, vs[..i])), purify(vs[i]))
  {
    assert vs[..i + 1][..i] == vs[..i];
    var s := Purified(purify, vs[..i + 1]);
    assert s[..|s| - 1] == Purified(purify, vs[..i]);
  }

  /** The first loop of deduplicate: keyless violations go to the output
      array, keyed ones into the map of maps. */
  method StoreViolations(d: DefaultResultHandler, violations: seq<Violation>)
    returns (violationMap: map<string, map<string, Violation>>, violationArray: seq<Violation>)
    ensures violationMap == IndexOf(Purified(d.purifyViolation, violations))
    ensures violationArray == Keyless(Purified(d.purifyViolation, violations))
  {
    violationMap, violationArray := map[], [];
    for i := 0 to |violations|
      invariant violationMap == IndexOf(Purified(d.purifyViolation, violations[..i]))
      invariant violationArray == Keyless(Purified(d.purifyViolation, violations[..i]))
    {
      PurifiedStep(d.purifyViolation, violations, i);
      var v := d.purifyViolation(violations[i]);
      var resourceKey := FetchResourceKey(Some(v));
      if |resourceKey| == 0 {
        violationArray := violationArray + [v];
      } else {
        if resourceKey !in violationMap {
          violationMap := violationMap[resourceKey := map[]];
        }
        violationMap := violationMap[resourceKey := violationMap[resourceKey][v.message := v]];
      }
    }
    assert violations[..|violations|] == violations;
  }

  /** The second loop of deduplicate: append every stored violation once,
      key by key and, within a key, message by message, both in Go's
      unspecified map order. */
  method AppendStored(violationMap: map<string, map<string, Violation>>, violationArray: seq<Violation>)
    returns (out: seq<Violation>)
    requires WellKeyed(violationMap)
    ensures |violationArray| <= |out| && out[..|violationArray|] == violationArray
    ensures Distinct(out[|violationArray|..])
    ensures forall x :: x in out[|violationArray|..] <==> Stored(violationMap, x)
  {
    out := violationArray;
    ghost var emitted: seq<Violation> := [];
    var keys := violationMap.Keys;
    while keys != {}
      invariant keys <= violationMap.Keys
      invariant out == violationArray + emitted
      invariant Distinct(emitted)
      invariant forall x :: x in emitted ==> Stored(violationMap, x) && KeyOf(x) !in keys
      invariant forall k, m :: k in violationMap && k !in keys && m in violationMap[k] ==> violationMap[k][m] in emitted
      decreases keys
    {
      var key :| key in keys;
      var violationMessageMap := violationMap[key];
      var messages := violationMessageMap.Keys;
      while messages != {}
        invariant messages <= violationMessageMap.Keys
        invariant out == violationArray + emitted
        invariant Distinct(emitted)
        invariant forall x :: x in emitted ==>
          Stored(violationMap, x) && (KeyOf(x) !in keys || (KeyOf(x) == key && x.message !in messages))
        invariant forall k, m :: k in violationMap && k !in keys && m in violationMap[k] ==> violationMap[k][m] in emitted
        invariant forall m :: m in violationMessageMap && m !in messages ==> violationMessageMap[m] in emitted
        decreases messages
      {
        var msg :| msg in messages;
        var violation := violationMessageMap[msg];
        assert KeyOf(violation) == key && violation.message == msg;
        out := out + [violation];
        emitted := emitted + [violation];
        messages := messages - {msg};
      }
      keys := keys - {key};
    }
    assert out[|violationArray|..] == emitted;
  }

  /** filterViolations: a placeholder that passes everything through. */
  function FilterViolations(violations: seq<Violation>): (r: Result<seq<Violation>, string>)
    ensures r == Success(violations)
  {
    Success(violations)
  }

  /** reportAndRecord: record every violation; report, in order, those the
      handler's predicate selects. */
  method ReportAndRecord(d: DefaultResultHandler, request: ReportAndRecordRequest)
    returns (result: ReportAndRecordResult)
    ensures result.resourceName == request.resourceName
    ensures result.recordViolations == request.violations
    ensures result.reportViolations == Filter(d.shouldReportViolation, request.violations)
  {
    var reportViolations: seq<Violation> := [];
    for i := 0 to |request.violations|
      invariant reportViolations == Filter(d.shouldReportViolation, request.violations[..i])
    {
      assert request.violations[..i + 1][..i] == request.violations[..i];
      var violation := request.violations[i];
      if d.shouldReportViolation(violation) {
        reportViolations := reportViolations + [violation];
      }
    }
    assert request.violations[..|request.violations|] == request.violations;
    result := ReportAndRecordResult(request.resourceName, request.violations, reportViolations);
  }

  /** The reported violations grouped by policy name, each group in order. */
  function ByPolicy(vs: seq<Violation>): (groups: map<string, seq<Violation>>)
    ensures forall p :: p in groups ==> groups[p] != []
    decreases |vs|
  {
    if vs == [] then map[]
    else
      var m := ByPolicy(vs[..|vs| - 1]);
      var v := vs[|vs| - 1];
      m[v.policyName := (if v.policyName in m then m[v.policyName] else []) + [v]]
  }

  /** Whether a violation belongs to `policy`. */
  function HasPolicy(policy: string): Violation -> bool
  {
    (v: Violation) => v.policyName == policy
  }

  /** The violations of `vs` under a given policy, in order. */
  function OfPolicy(vs: seq<Violation>, policy: string): seq<Violation>
  {
    Filter(HasPolicy(policy), vs)
  }

  lemma OfPolicyMembers(vs: seq<Violation>, policy: string)
    ensures forall x :: x in OfPolicy(vs, policy) <==> x in vs && x.policyName == policy
  {
    FilterMembers(HasPolicy(policy), vs);
    forall x
      ensures x in OfPolicy(vs, policy) <==> x in vs && x.policyName == policy
    {
      assert HasPolicy(policy)(x) == (x.policyName == policy);
    }
  }

  lemma OfPolicyAbsent(vs: seq<Violation>, policy: string)
    requires forall x :: x in vs ==> x.policyName != policy
    ensures OfPolicy(vs, policy) == []
  {
    FilterEmpty(HasPolicy(policy), vs);
  }

  /** The groups partition the reported list: one group per policy that
      occurs, holding exactly that policy's violations in order. */
  lemma {:induction false} ByPolicyPartitions(vs: seq<Violation>)
    ensures forall p :: p in ByPolicy(vs) <==> exists x :: x in vs && x.policyName == p
    ensures forall p :: p in ByPolicy(vs) ==> ByPolicy(vs)[p] == OfPolicy(vs, p)
    decreases |vs|
  {
    if vs != [] {
      var init, v := vs[..|vs| - 1], vs[|vs| - 1];
      ByPolicyPartitions(init);
      assert vs == init + [v];
      if v.policyName !in ByPolicy(init) {
        OfPolicyAbsent(init, v.policyName);
      }
    }
  }

  /** The number of reported violations across all results. */
  function TotalReported(results: seq<ReportAndRecordResult>): nat
    decreases |results|
  {
    if results == [] then 0
    else TotalReported(results[..|results| - 1]) + |results[|results| - 1].reportViolations|
  }

  /** The total is zero exactly when no result reports anything. */
  lemma {:induction false} TotalReportedZero(results: seq<ReportAndRecordResult>)
    ensures TotalReported(results) == 0 <==> forall i :: 0 <= i < |results| ==> results[i].reportViolations == []
    decreases |results|
  {
    if results != [] {
      var init := results[..|results| - 1];
      TotalReportedZero(init);
      assert forall i :: 0 <= i < |init| ==> init[i] == results[i];
    }
  }

  /** Lines 106-113 for one result: group its reported violations by
      policy, appending each to the running list of reported violations. */
  method GroupByPolicy(vs: seq<Violation>, reported: seq<Violation>)
    returns (violationsByPolicy: map<string, seq<Violation>>, reported': seq<Violation>)
    ensures violationsByPolicy == ByPolicy(vs)
    ensures reported' == reported + vs
  {
    violationsByPolicy, reported' := map[], reported;
    for j := 0 to |vs|
      invariant violationsByPolicy == ByPolicy(vs[..j])
      invariant reported' == reported + vs[..j]
    {
      var violation := vs[j];
      assert vs[..j + 1][..j] == vs[..j];
      assert vs[..j + 1] == vs[..j] + [violation];
      if violation.policyName !in violationsByPolicy {
        violationsByPolicy := violationsByPolicy[violation.policyName := []];
      }
      violationsByPolicy := violationsByPolicy[violation.policyName := violationsByPolicy[violation.policyName] + [violation]];
      reported' := reported' + [violation];
    }
    assert vs[..|vs|] == vs;
  }

  /** examResult: group each result's reported violations by policy (the
      groups are only logged; they are returned here) and fail iff anything
      is reported at all. */
  method ExamResult(results: seq<ReportAndRecordResult>)
    returns (err: Option<string>, groups: seq<map<string, seq<Violation>>>)
    ensures |groups| == |results|
    ensures forall i :: 0 <= i < |results| ==> groups[i] == ByPolicy(results[i].reportViolations)
    ensures err != None <==> TotalReported(results) > 0
  {
    var reportViolations: seq<Violation> := [];
    groups := [];
    for i := 0 to |results|
      invariant |groups| == i
      invariant forall j :: 0 <= j < i ==> groups[j] == ByPolicy(results[j].reportViolations)
      invariant |reportViolations| == TotalReported(results[..i])
    {
      assert results[..i + 1][..i] == results[..i];
      var violationsByPolicy;
      violationsByPolicy, reportViolations := GroupByPolicy(results[i].reportViolations, reportViolations);
      groups := groups + [violationsByPolicy];
    }
    assert results[..|results|] == results;
    if |reportViolations| != 0 {
      err := Some("please check the output log see what is new violations");
    } else {
      err := None;
    }
  }

  /** The violations deduplicate keeps for `vs`, whatever its order. */
  ghost predicate Kept(d: DefaultResultHandler, vs: seq<Violation>, x: Violation)
  {
    var s := Purified(d.purifyViolation, vs);
    x in Keyless(s) || x in Entries(IndexOf(s))
  }

  /** No result object contains a violation that survives deduplication
      and that the handler's predicate reports. */
  ghost predicate NothingReported(d: DefaultResultHandler, objects: seq<ResultObject>)
  {
    forall i, x :: 0 <= i < |objects| && Kept(d, objects[i].violations, x) ==> !d.shouldReportViolation(x)
  }

  /** One result object went through deduplicate, filterViolations and
      reportAndRecord into `result`. */
  ghost predicate Handled(d: DefaultResultHandler, obj: ResultObject, result: ReportAndRecordResult)
  {
    && result.resourceName == obj.resourceName
    && IsDedupOf(Purified(d.purifyViolation, obj.violations), result.recordViolations)
    && result.reportViolations == Filter(d.shouldReportViolation, result.recordViolations)
  }

  /** A handled object reports nothing exactly when no violation that
      survives deduplication is selected by the predicate. */
  lemma HandledReportsNothing(d: DefaultResultHandler, obj: ResultObject, result: ReportAndRecordResult)
    requires Handled(d, obj, result)
    ensures result.reportViolations == [] <==>
      forall x :: Kept(d, obj.violations, x) ==> !d.shouldReportViolation(x)
  {
    var s := Purified(d.purifyViolation, obj.violations);
    var out := result.recordViolations;
    KeylessMembers(s);
    FilterEmpty(d.shouldReportViolation, out);
    assert out == out[..|Keyless(s)|] + out[|Keyless(s)|..];
    assert forall x :: x in out <==> Kept(d, obj.violations, x);
  }

  /** HandleResult: one report-and-record result per result obj, in
      order; the run fails iff some violation is reported. */
  method HandleResult(d: DefaultResultHandler, objects: seq<ResultObject>)
    returns (err: Option<string>, results: seq<ReportAndRecordResult>)
    ensures |results| == |objects|
    ensures forall i :: 0 <= i < |objects| ==> Handled(d, objects[i], results[i])
    ensures err == None <==> forall i :: 0 <= i < |results| ==> results[i].reportViolations == []
    ensures err == None <==> NothingReported(d, objects)
  {
    results := [];
    for i := 0 to |objects|
      invariant |results| == i
      invariant forall j :: 0 <= j < i ==> Handled(d, objects[j], results[j])
    {
      var resultObject := objects[i];
      var deduplicated := Deduplicate(d, resultObject.violations);
      var filtered := FilterViolations(deduplicated);
      var result := ReportAndRecord(d, ReportAndRecordRequest(resultObject.resourceName, filtered.value));
      results := results + [result];
    }
    var groups;
    err, groups := ExamResult(results);
    TotalReportedZero(results);
    forall i | 0 <= i < |objects|
      ensures results[i].reportViolations == [] <==>
        forall x :: Kept(d, objects[i].violations, x) ==> !d.shouldReportViolation(x)
    {
      HandledReportsNothing(d, objects[i], results[i]);
    }
  }
}
