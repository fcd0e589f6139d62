/** The validator (validate.go): submit every request object to the
    validation service, poll the resulting long-running operations in FIFO
    order until the queue drains or the deadline passes, then hand the
    results to the result handler.

    The remote service is an oracle. `submit(i, content)` is the reply to
    the i-th ValidateResource call; `replies[t]` is what the t-th call of
    the polling condition gets from RetrieveOperation (and, for a finished
    operation, from RetrieveViolationsFromOperation). The length of
    `replies` is the number of condition calls the deadline allows. */
module Validate {
  import opened Types
  import opened Report

  /** Outcome of one ValidateResource call. */
  datatype SubmitReply = SubmitFailed(reason: string) | Submitted(operationName: string)

  /** What one tick learns about the operation at the head of the queue:
      the fetch failed (an error or a non-200 status: no operation), the
      operation is still running, it finished with an error, it finished
      and its response decodes to `violations` (an empty or absent response
      decodes to none), or it finished with a response that does not
      decode. */
  datatype PollReply =
    | RetrieveFailed
    | NotDone
    | DoneWithError(reason: string)
    | DoneOk(violations: seq<Violation>)
    | DoneUndecodable

  datatype ScanError = SubmitError(reason: string) | PollTimeout

  datatype ValidateError =
    | FetchError(reason: string)
    | ClientError(cause: ScanError)
    | HandleError(reason: string)

  /** wait.PollUntilContextTimeout(ctx, 1s, 120min, immediate = true, ...):
      one immediate call, then at most one per interval until the timeout. */
  const PollIntervalSeconds := 1
  const PollTimeoutSeconds := 120 * 60
  const MaxTicks := PollTimeoutSeconds / PollIntervalSeconds + 1

  /** A tick budget the poller can produce: the first check is immediate. */
  predicate TickBudget(replies: seq<PollReply>)
  {
    1 <= |replies| <= MaxTicks
  }

  // ---------------------------------------------------------------------
  // Submission

  /** The operation names of the submit loop over `objects`, or the reason
      of the first failed submission. */
  function Submission(objects: seq<RequestObject>, submit: (nat, Content) -> SubmitReply): (r: Result<seq<string>, string>)
    ensures r.Success? ==> |r.value| == |objects|
    decreases |objects|
  {
    if objects == [] then Success([])
    else
      var n := |objects| - 1;
      match Submission(objects[..n], submit)
      case Failure(reason) => Failure(reason)
      case Success(queue) =>
        match submit(n, objects[n].content)
        case SubmitFailed(reason) => Failure(reason)
        case Submitted(name) => Success(queue + [name])
  }

  /** Every submission succeeded and the queue holds their operation names in order. */
  lemma {:induction false} SubmissionSucceeds(objects: seq<RequestObject>, submit: (nat, Content) -> SubmitReply)
    ensures Submission(objects, submit).Success? <==>
      forall i :: 0 <= i < |objects| ==> submit(i, objects[i].content).Submitted?
    ensures Submission(objects, submit).Success? ==>
      forall i :: 0 <= i < |objects| ==> Submission(objects, submit).value[i] == submit(i, objects[i].content).operationName
    decreases |objects|
  {
    if objects != [] {
      var n := |objects| - 1;
      SubmissionSucceeds(objects[..n], submit);
      assert forall i :: 0 <= i < n ==> objects[..n][i] == objects[i];
    }
  }

  /** A failure is the reason of the first failed submission: every object
      before it was submitted and none after it is. */
  lemma {:induction false} SubmissionFirstFailure(objects: seq<RequestObject>, submit: (nat, Content) -> SubmitReply)
    requires Submission(objects, submit).Failure?
    ensures exists i :: (0 <= i < |objects| && submit(i, objects[i].content) == SubmitFailed(Submission(objects, submit).error)
      && forall j :: 0 <= j < i ==> submit(j, objects[j].content).Submitted?)
    decreases |objects|
  {
    var n := |objects| - 1;
    assert forall i :: 0 <= i < n ==> objects[..n][i] == objects[i];
    if Submission(objects[..n], submit).Failure? {
      SubmissionFirstFailure(objects[..n], submit);
      var i :| 0 <= i < n && submit(i, objects[..n][i].content) == SubmitFailed(Submission(objects[..n], submit).error)
        && forall j :: 0 <= j < i ==> submit(j, objects[..n][j].content).Submitted?;
    } else {
      SubmissionSucceeds(objects[..n], submit);
    }
  }

  /** Once a prefix fails, the whole submit loop fails with the same reason. */
  lemma {:induction false} SubmissionFailureSticks(objects: seq<RequestObject>, submit: (nat, Content) -> SubmitReply, k: nat)
    requires k <= |objects| && Submission(objects[..k], submit).Failure?
    ensures Submission(objects, submit) == Submission(objects[..k], submit)
    decreases |objects| - k
  {
    if k < |objects| {
      var n := |objects| - 1;
      assert objects[..n][..k] == objects[..k];
      SubmissionFailureSticks(objects[..n], submit, k);
    } else {
      assert objects[..k] == objects;
    }
  }

  /** operationResourceMap: operation name -> resource name for the
      successful submissions; a repeated name maps to its last object. */
  function NameMap(objects: seq<RequestObject>, submit: (nat, Content) -> SubmitReply): (m: map<string, string>)
    ensures |m| <= |objects|
    decreases |objects|
  {
    if objects == [] then map[]
    else
      var n := |objects| - 1;
      var m := NameMap(objects[..n], submit);
      match submit(n, objects[n].content)
      case SubmitFailed(_) => m
      case Submitted(name) => m[name := objects[n].resourceName]
  }

  /** Every entry of the map comes from a successful submission. */
  lemma {:induction false} NameMapSound(objects: seq<RequestObject>, submit: (nat, Content) -> SubmitReply, name: string)
    requires name in NameMap(objects, submit)
    ensures exists i :: (0 <= i < |objects| && submit(i, objects[i].content) == Submitted(name)
      && NameMap(objects, submit)[name] == objects[i].resourceName)
    decreases |objects|
  {
    var n := |objects| - 1;
    if submit(n, objects[n].content) != Submitted(name) {
      var prefix := objects[..n];
      NameMapSound(prefix, submit, name);
      var i :| 0 <= i < |prefix| && submit(i, prefix[i].content) == Submitted(name)
        && NameMap(prefix, submit)[name] == prefix[i].resourceName;
      assert prefix[i] == objects[i];
    }
  }

  /** Every submitted operation is in the map; with distinct operation
      names each one maps to its own object's resource name. */
  lemma {:induction false} NameMapNamesResources(objects: seq<RequestObject>, submit: (nat, Content) -> SubmitReply, i: nat)
    requires i < |objects| && submit(i, objects[i].content).Submitted?
    requires forall j :: i < j < |objects| ==> submit(j, objects[j].content) != submit(i, objects[i].content)
    ensures submit(i, objects[i].content).operationName in NameMap(objects, submit)
    ensures NameMap(objects, submit)[submit(i, objects[i].content).operationName] == objects[i].resourceName
    decreases |objects|
  {
    var n := |objects| - 1;
    if i < n {
      var name := submit(i, objects[i].content).operationName;
      var prefix := objects[..n];
      assert prefix[i] == objects[i];
      assert forall j :: i < j < n ==> prefix[j] == objects[j];
      NameMapNamesResources(prefix, submit, i);
      assert submit(n, objects[n].content) != Submitted(name);
    }
  }

  // ---------------------------------------------------------------------
  // Polling

  /** Go's map lookup: a missing operation name reads as "". */
  function Lookup(m: map<string, string>, name: string): (r: string)
    ensures name in m ==> r == m[name]
    ensures name !in m ==> r == ""
  {
    if name in m then m[name] else ""
  }

  /** Every violation has a non-nil resource key. */
  predicate Keyed(vs: seq<Violation>)
  {
    forall i :: 0 <= i < |vs| ==> vs[i].resourceKey.Some?
  }

  /** Line 92 dereferences each returned violation's key, so a finished
      operation reporting a keyless violation would panic: the service is
      taken never to do so. */
  predicate KeyedReplies(replies: seq<PollReply>)
  {
    forall t :: 0 <= t < |replies| && replies[t].DoneOk? ==> Keyed(replies[t].violations)
  }

  /** The violations with the key's Name field overwritten by `name`. */
  function Stamp(vs: seq<Violation>, name: string): (r: seq<Violation>)
    requires Keyed(vs)
    ensures |r| == |vs|
    ensures forall i :: 0 <= i < |r| ==>
      && r[i].policyName == vs[i].policyName
      && r[i].message == vs[i].message
      && r[i].resourceKey.Some?
      && r[i].resourceKey.value.name == name
      && r[i].resourceKey.value.group == vs[i].resourceKey.value.group
      && r[i].resourceKey.value.kind == vs[i].resourceKey.value.kind
      && r[i].resourceKey.value.version == vs[i].resourceKey.value.version
    decreases |vs|
  {
    if vs == [] then []
    else
      var v := vs[|vs| - 1];
      Stamp(vs[..|vs| - 1], name) + [v.(resourceKey := Some(v.resourceKey.value.(name := name)))]
  }

  /** The poller's state: the FIFO queue of operation names, the result
      objects emitted so far, and (for the proofs) the names that produced a
      result and those dropped on an operation error. */
  datatype PollState = PollState(queue: seq<string>, results: seq<ResultObject>,
                                 completed: seq<string>, dropped: seq<string>)

  /** Whether a tick puts the head name back at the tail. */
  predicate Requeues(reply: PollReply)
  {
    reply.RetrieveFailed? || reply.NotDone?
  }

  /** One call of the polling condition: pop the head; requeue it if the
      fetch failed or the operation is running; drop it if the operation
      failed; otherwise emit its result object, named through `names`, with
      every violation stamped with that name (none if the response did not
      decode). */
  function Tick(st: PollState, reply: PollReply, names: map<string, string>): (r: PollState)
    requires st.queue != []
    requires reply.DoneOk? ==> Keyed(reply.violations)
    ensures |r.queue| <= |st.queue|
    ensures |st.results| <= |r.results| <= |st.results| + 1
    ensures r.results[..|st.results|] == st.results
  {
    var name, rest := st.queue[0], st.queue[1..];
    var resourceName := Lookup(names, name);
    match reply
    case RetrieveFailed => st.(queue := rest + [name])
    case NotDone => st.(queue := rest + [name])
    case DoneWithError(_) => st.(queue := rest, dropped := st.dropped + [name])
    case DoneOk(vs) =>
      st.(queue := rest, results := st.results + [ResultObject(Stamp(vs, resourceName), resourceName)],
          completed := st.completed + [name])
    case DoneUndecodable =>
      st.(queue := rest, results := st.results + [ResultObject([], resourceName)],
          completed := st.completed + [name])
  }

  /** The poll loop: tick while the queue is non-empty and the deadline
      allows another call. */
  function Poll(st: PollState, replies: seq<PollReply>, names: map<string, string>): (r: PollState)
    requires KeyedReplies(replies)
    ensures |r.queue| <= |st.queue|
    ensures |st.results| <= |r.results|
    ensures r.results[..|st.results|] == st.results
    decreases |replies|
  {
    if st.queue == [] || replies == [] then st
    else Poll(Tick(st, replies[0], names), replies[1..], names)
  }

  /** Every result is named after the operation that produced it and all of
      its violations carry that name in their key. */
  ghost predicate Accounted(st: PollState, names: map<string, string>)
  {
    && |st.results| == |st.completed|
    && (forall i :: 0 <= i < |st.results| ==> st.results[i].resourceName == Lookup(names, st.completed[i]))
    && (forall i, v :: 0 <= i < |st.results| && v in st.results[i].violations ==>
          v.resourceKey.Some? && v.resourceKey.value.name == st.results[i].resourceName)
  }

  /** The names the poller is responsible for: queued, completed or dropped. */
  ghost function Tracked(st: PollState): multiset<string>
  {
    multiset(st.queue) + multiset(st.completed) + multiset(st.dropped)
  }

  /** One tick removes exactly the head: it goes back to the tail iff the
      fetch failed or the operation is running, a failed operation is
      dropped without a result, and a finished one yields exactly one. */
  lemma TickMovesHead(st: PollState, reply: PollReply, names: map<string, string>)
    requires st.queue != []
    requires reply.DoneOk? ==> Keyed(reply.violations)
    ensures Requeues(reply) ==> Tick(st, reply, names).queue == st.queue[1..] + [st.queue[0]]
    ensures !Requeues(reply) ==> Tick(st, reply, names).queue == st.queue[1..]
    ensures reply.DoneWithError? ==> Tick(st, reply, names).results == st.results
    ensures (reply.DoneOk? || reply.DoneUndecodable?) <==> |Tick(st, reply, names).results| == |st.results| + 1
    ensures reply.DoneUndecodable? ==>
      Tick(st, reply, names).results == st.results + [ResultObject([], Lookup(names, st.queue[0]))]
    ensures reply.DoneOk? ==>
      Tick(st, reply, names).results ==
        st.results + [ResultObject(Stamp(reply.violations, Lookup(names, st.queue[0])), Lookup(names, st.queue[0]))]
    ensures Tick(st, reply, names).completed ==
      st.completed + (if reply.DoneOk? || reply.DoneUndecodable? then [st.queue[0]] else [])
    ensures Tick(st, reply, names).dropped ==
      st.dropped + (if reply.DoneWithError? then [st.queue[0]] else [])
  {
  }

  /** A tick keeps the tracked names and never lengthens the queue. */
  lemma TickConserves(st: PollState, reply: PollReply, names: map<string, string>)
    requires st.queue != []
    requires reply.DoneOk? ==> Keyed(reply.violations)
    ensures Tracked(Tick(st, reply, names)) == Tracked(st)
    ensures |Tick(st, reply, names).queue| <= |st.queue|
  {
    var head, rest := st.queue[0], st.queue[1..];
    assert st.queue == [head] + rest;
    assert multiset(st.queue) == multiset(rest) + multiset{head};
    TickMovesHead(st, reply, names);
  }

  /** A tick keeps every result accounted for. */
  lemma TickAccounts(st: PollState, reply: PollReply, names: map<string, string>)
    requires st.queue != []
    requires reply.DoneOk? ==> Keyed(reply.violations)
    requires Accounted(st, names)
    ensures Accounted(Tick(st, reply, names), names)
  {
    var st' := Tick(st, reply, names);
    if reply.DoneOk? || reply.DoneUndecodable? {
      var resourceName := Lookup(names, st.queue[0]);
      var r := st'.results[|st.results|];
      assert st'.results == st.results + [r];
      assert st'.completed == st.completed + [st.queue[0]];
      assert forall v :: v in r.violations ==> v.resourceKey.Some? && v.resourceKey.value.name == resourceName by {
        forall v | v in r.violations
          ensures v.resourceKey.Some? && v.resourceKey.value.name == resourceName
        {
          var k :| 0 <= k < |r.violations| && r.violations[k] == v;
        }
      }
    }
  }

  /** The poll loop conserves the tracked names, never lengthens the queue,
      only appends results, and keeps every result accounted for. */
  lemma {:induction false} PollInvariant(st: PollState, replies: seq<PollReply>, names: map<string, string>)
    requires KeyedReplies(replies)
    requires Accounted(st, names)
    ensures Tracked(Poll(st, replies, names)) == Tracked(st)
    ensures |Poll(st, replies, names).queue| <= |st.queue|
    ensures |st.results| <= |Poll(st, replies, names).results|
    ensures Poll(st, replies, names).results[..|st.results|] == st.results
    ensures Accounted(Poll(st, replies, names), names)
    decreases |replies|
  {
    if st.queue != [] && replies != [] {
      var st' := Tick(st, replies[0], names);
      TickConserves(st, replies[0], names);
      TickAccounts(st, replies[0], names);
      PollInvariant(st', replies[1..], names);
      var f := Poll(st', replies[1..], names);
      assert f.results[..|st.results|] == f.results[..|st'.results|][..|st.results|];
    }
  }

  /** The result object a reply yields for an operation of `resourceName`:
      the reply's own violations stamped with that name, none when the
      response does not decode, and no result unless the operation finished
      without an error. */
  function ResultOf(reply: PollReply, resourceName: string): (r: Option<ResultObject>)
    requires reply.DoneOk? ==> Keyed(reply.violations)
    ensures r.Some? <==> reply.DoneOk? || reply.DoneUndecodable?
    ensures r.Some? ==> r.value.resourceName == resourceName
    ensures reply.DoneOk? ==> r.value.violations == Stamp(reply.violations, resourceName)
    ensures reply.DoneUndecodable? ==> r.value.violations == []
  {
    match reply
    case DoneOk(vs) => Some(ResultObject(Stamp(vs, resourceName), resourceName))
    case DoneUndecodable => Some(ResultObject([], resourceName))
    case _ => None
  }

  /** A tick emits exactly what its reply yields for the head, and records
      the head as completed when it does. */
  lemma TickYields(st: PollState, reply: PollReply, names: map<string, string>)
    requires st.queue != []
    requires reply.DoneOk? ==> Keyed(reply.violations)
    ensures var out := ResultOf(reply, Lookup(names, st.queue[0]));
      && Tick(st, reply, names).results == st.results + (if out.Some? then [out.value] else [])
      && Tick(st, reply, names).completed == st.completed + (if out.Some? then [st.queue[0]] else [])
  {
  }

  /** Every result the poll loop emits is what some reply yields for the
      operation it completed; results and completed names grow in step. */
  lemma {:induction false} PollResultsFromReplies(st: PollState, replies: seq<PollReply>, names: map<string, string>)
    requires KeyedReplies(replies)
    requires |st.results| == |st.completed|
    ensures var f := Poll(st, replies, names);
      && |f.results| == |f.completed|
      && |st.results| <= |f.results|
      && f.results[..|st.results|] == st.results
      && f.completed[..|st.completed|] == st.completed
      && forall k :: |st.results| <= k < |f.results| ==>
           exists t :: 0 <= t < |replies| && ResultOf(replies[t], Lookup(names, f.completed[k])) == Some(f.results[k])
    decreases |replies|
  {
    if st.queue != [] && replies != [] {
      var st' := Tick(st, replies[0], names);
      TickYields(st, replies[0], names);
      PollResultsFromReplies(st', replies[1..], names);
      var f := Poll(st', replies[1..], names);
      assert f.results[..|st.results|] == f.results[..|st'.results|][..|st.results|];
      assert f.completed[..|st.completed|] == f.completed[..|st'.completed|][..|st.completed|];
      forall k | |st.results| <= k < |f.results|
        ensures exists t :: 0 <= t < |replies| && ResultOf(replies[t], Lookup(names, f.completed[k])) == Some(f.results[k])
      {
        if k < |st'.results| {
          assert f.results[k] == f.results[..|st'.results|][k] == st'.results[k];
          assert f.completed[k] == f.completed[..|st'.completed|][k] == st'.completed[k] == st.queue[0];
          assert ResultOf(replies[0], Lookup(names, f.completed[k])) == Some(f.results[k]);
        } else {
          var t :| 0 <= t < |replies[1..]| && ResultOf(replies[1..][t], Lookup(names, f.completed[k])) == Some(f.results[k]);
          assert replies[1..][t] == replies[t + 1];
        }
      }
    }
  }

  /** Only a failed operation is dropped: while no reply reports an
      operation error, the poll loop drops nothing. */
  lemma {:induction false} PollKeepsDropped(st: PollState, replies: seq<PollReply>, names: map<string, string>)
    requires KeyedReplies(replies)
    requires forall t :: 0 <= t < |replies| ==> !replies[t].DoneWithError?
    ensures Poll(st, replies, names).dropped == st.dropped
    decreases |replies|
  {
    if st.queue != [] && replies != [] {
      TickMovesHead(st, replies[0], names);
      PollKeepsDropped(Tick(st, replies[0], names), replies[1..], names);
    }
  }

  /** An operation that never finishes keeps the queue busy: while every
      reply is a failed fetch or a running operation nothing is emitted and
      the deadline passes with the same names still queued. */
  lemma {:induction false} PendingForeverTimesOut(st: PollState, replies: seq<PollReply>, names: map<string, string>)
    requires KeyedReplies(replies)
    requires st.queue != []
    requires forall t :: 0 <= t < |replies| ==> Requeues(replies[t])
    ensures Poll(st, replies, names).queue != []
    ensures multiset(Poll(st, replies, names).queue) == multiset(st.queue)
    ensures Poll(st, replies, names).results == st.results
    decreases |replies|
  {
    if replies != [] {
      TickMovesHead(st, replies[0], names);
      var st' := Tick(st, replies[0], names);
      assert st.queue == [st.queue[0]] + st.queue[1..];
      PendingForeverTimesOut(st', replies[1..], names);
    }
  }

  /** When every reply reports a finished operation and there are at least
      as many ticks as queued names, the queue drains. */
  lemma {:induction false} FinishedOperationsDrain(st: PollState, replies: seq<PollReply>, names: map<string, string>)
    requires KeyedReplies(replies)
    requires forall t :: 0 <= t < |replies| ==> !Requeues(replies[t])
    requires |st.queue| <= |replies|
    ensures Poll(st, replies, names).queue == []
    decreases |replies|
  {
    if st.queue != [] {
      TickMovesHead(st, replies[0], names);
      FinishedOperationsDrain(Tick(st, replies[0], names), replies[1..], names);
    }
  }

  // ---------------------------------------------------------------------
  // scanViolation

  /** What scanViolation returns: no results and the submit error if a
      submission fails, nothing if there is nothing to poll, otherwise the
      poll loop's results, with a timeout error iff names are still queued
      at the deadline. */
  function Scan(objects: seq<RequestObject>, submit: (nat, Content) -> SubmitReply, replies: seq<PollReply>)
    : (r: (seq<ResultObject>, Option<ScanError>))
    requires KeyedReplies(replies)
    ensures (r.1.Some? && r.1.value.SubmitError?) <==> Submission(objects, submit).Failure?
    ensures r.1.Some? && r.1.value.SubmitError? ==> r.0 == []
    ensures objects == [] ==> r == ([], None)
  {
    match Submission(objects, submit)
    case Failure(reason) => ([], Some(SubmitError(reason)))
    case Success(queue) =>
      if queue == [] then ([], None)
      else
        var final := Poll(PollState(queue, [], [], []), replies, NameMap(objects, submit));
        (final.results, if final.queue == [] then None else Some(PollTimeout))
  }

  /** A failed submission aborts the scan with its reason and no results;
      the failure is the first one and no later object is submitted. */
  lemma ScanSubmitFailure(objects: seq<RequestObject>, submit: (nat, Content) -> SubmitReply, replies: seq<PollReply>, i: nat)
    requires KeyedReplies(replies)
    requires i < |objects| && submit(i, objects[i].content).SubmitFailed?
    requires forall j :: 0 <= j < i ==> submit(j, objects[j].content).Submitted?
    ensures Scan(objects, submit, replies) == ([], Some(SubmitError(submit(i, objects[i].content).reason)))
  {
    var prefix := objects[..i + 1];
    assert prefix[..i] == objects[..i];
    assert forall j :: 0 <= j < i ==> objects[..i][j] == objects[j];
    SubmissionSucceeds(objects[..i], submit);
    SubmissionFailureSticks(objects, submit, i + 1);
  }

  /** With no request objects nothing is polled: no results and no error. */
  lemma ScanNothing(submit: (nat, Content) -> SubmitReply, replies: seq<PollReply>)
    requires KeyedReplies(replies)
    ensures Scan([], submit, replies) == ([], None)
  {
  }

  /** Once every object is submitted, each submitted operation ends in
      exactly one of: a result, the dropped set, or still queued at the
      deadline; and the error is set iff some are still queued. */
  lemma ScanAccounts(objects: seq<RequestObject>, submit: (nat, Content) -> SubmitReply, replies: seq<PollReply>)
    requires KeyedReplies(replies)
    requires objects != [] && Submission(objects, submit).Success?
    ensures var final := Poll(PollState(Submission(objects, submit).value, [], [], []), replies, NameMap(objects, submit));
      && Scan(objects, submit, replies).0 == final.results
      && |final.results| + |final.queue| + |final.dropped| == |objects|
      && Tracked(final) == multiset(Submission(objects, submit).value)
      && (Scan(objects, submit, replies).1 == None <==> final.queue == [])
      && Accounted(final, NameMap(objects, submit))
  {
    var st := PollState(Submission(objects, submit).value, [], [], []);
    PollInvariant(st, replies, NameMap(objects, submit));
    var final := Poll(st, replies, NameMap(objects, submit));
    assert |Tracked(final)| == |final.queue| + |final.completed| + |final.dropped|;
    assert |multiset(st.queue)| == |objects|;
  }

  /** If no submitted operation ever finishes, the scan times out with no results. */
  lemma ScanTimesOut(objects: seq<RequestObject>, submit: (nat, Content) -> SubmitReply, replies: seq<PollReply>)
    requires KeyedReplies(replies)
    requires objects != [] && Submission(objects, submit).Success?
    requires forall t :: 0 <= t < |replies| ==> Requeues(replies[t])
    ensures Scan(objects, submit, replies) == ([], Some(PollTimeout))
  {
    var st := PollState(Submission(objects, submit).value, [], [], []);
    PendingForeverTimesOut(st, replies, NameMap(objects, submit));
  }

  /** If every reply reports a finished operation and there are at least
      as many ticks as objects, the queue drains and the scan reports no
      error. */
  lemma ScanDrains(objects: seq<RequestObject>, submit: (nat, Content) -> SubmitReply, replies: seq<PollReply>)
    requires KeyedReplies(replies)
    requires Submission(objects, submit).Success?
    requires forall t :: 0 <= t < |replies| ==> !Requeues(replies[t])
    requires |objects| <= |replies|
    ensures Scan(objects, submit, replies).1 == None
  {
    if objects != [] {
      var st := PollState(Submission(objects, submit).value, [], [], []);
      FinishedOperationsDrain(st, replies, NameMap(objects, submit));
    }
  }

  /** N operations that all complete successfully give exactly N result
      objects: when every submission succeeds, no operation fails and the
      scan reports no error, there is one result per request object. */
  lemma ScanAllSucceed(objects: seq<RequestObject>, submit: (nat, Content) -> SubmitReply, replies: seq<PollReply>)
    requires KeyedReplies(replies)
    requires Submission(objects, submit).Success?
    requires forall t :: 0 <= t < |replies| ==> !replies[t].DoneWithError?
    requires Scan(objects, submit, replies).1 == None
    ensures |Scan(objects, submit, replies).0| == |objects|
  {
    if objects != [] {
      var st := PollState(Submission(objects, submit).value, [], [], []);
      ScanAccounts(objects, submit, replies);
      PollKeepsDropped(st, replies, NameMap(objects, submit));
    }
  }

  /** Every result of a scan is what some reply yields for a submitted
      operation: that reply's violations stamped with the resource name the
      operation was submitted under (none if the response did not decode). */
  lemma ScanResultsFromReplies(objects: seq<RequestObject>, submit: (nat, Content) -> SubmitReply, replies: seq<PollReply>)
    requires KeyedReplies(replies)
    requires objects != [] && Submission(objects, submit).Success?
    ensures var final := Poll(PollState(Submission(objects, submit).value, [], [], []), replies, NameMap(objects, submit));
      && Scan(objects, submit, replies).0 == final.results
      && |final.completed| == |final.results|
      && forall k :: 0 <= k < |final.results| ==>
           && final.completed[k] in Submission(objects, submit).value
           && exists t :: 0 <= t < |replies| &&
                ResultOf(replies[t], Lookup(NameMap(objects, submit), final.completed[k])) == Some(final.results[k])
  {
    var queue := Submission(objects, submit).value;
    var st := PollState(queue, [], [], []);
    var final := Poll(st, replies, NameMap(objects, submit));
    PollResultsFromReplies(st, replies, NameMap(objects, submit));
    PollInvariant(st, replies, NameMap(objects, submit));
    forall k | 0 <= k < |final.results|
      ensures final.completed[k] in queue
    {
      assert final.completed[k] in multiset(final.completed);
      assert final.completed[k] in Tracked(final);
      assert final.completed[k] in multiset(queue);
    }
  }

  /** The stamping loop of line 91-93: overwrite each violation's key name. */
  method StampViolations(violations: seq<Violation>, resourceName: string) returns (stamped: seq<Violation>)
    requires Keyed(violations)
    ensures stamped == Stamp(violations, resourceName)
  {
    stamped := [];
    for j := 0 to |violations|
      invariant stamped == Stamp(violations[..j], resourceName)
    {
      assert violations[..j + 1][..j] == violations[..j];
      var violation := violations[j];
      stamped := stamped + [violation.(resourceKey := Some(violation.resourceKey.value.(name := resourceName)))];
    }
    assert violations[..|violations|] == violations;
  }

  /** The submit loop: submit each object in order, recording its operation
      name in the queue and in operationResourceMap; stop at the first error. */
  method SubmitAll(objects: seq<RequestObject>, submit: (nat, Content) -> SubmitReply)
    returns (queue: seq<string>, operationResourceMap: map<string, string>, failure: Option<string>)
    ensures failure.Some? <==> Submission(objects, submit).Failure?
    ensures failure.Some? ==> failure.value == Submission(objects, submit).error
    ensures failure.None? ==> queue == Submission(objects, submit).value
    ensures failure.None? ==> operationResourceMap == NameMap(objects, submit)
  {
    queue, operationResourceMap := [], map[];
    for i := 0 to |objects|
      invariant Submission(objects[..i], submit) == Success(queue)
      invariant operationResourceMap == NameMap(objects[..i], submit)
    {
      assert objects[..i + 1][..i] == objects[..i];
      var operation := submit(i, objects[i].content);
      if operation.SubmitFailed? {
        SubmissionFailureSticks(objects, submit, i + 1);
        return queue, operationResourceMap, Some(operation.reason);
      }
      queue := queue + [operation.operationName];
      operationResourceMap := operationResourceMap[operation.operationName := objects[i].resourceName];
    }
    assert objects[..|objects|] == objects;
    failure := None;
  }

  /** The polling closure run by PollUntilContextTimeout: one tick per
      reply until the queue is empty or the replies run out. */
  method PollQueue(queue0: seq<string>, operationResourceMap: map<string, string>, replies: seq<PollReply>)
    returns (resultObjects: seq<ResultObject>, queue: seq<string>)
    requires KeyedReplies(replies)
    ensures resultObjects == Poll(PollState(queue0, [], [], []), replies, operationResourceMap).results
    ensures queue == Poll(PollState(queue0, [], [], []), replies, operationResourceMap).queue
  {
    ghost var start := PollState(queue0, [], [], []);
    ghost var completed: seq<string> := [];
    ghost var dropped: seq<string> := [];
    queue, resultObjects := queue0, [];
    var t := 0;
    var done := queue == [];
    while !done && t < |replies|
      invariant 0 <= t <= |replies|
      invariant done <==> queue == []
      invariant Poll(start, replies, operationResourceMap)
        == Poll(PollState(queue, resultObjects, completed, dropped), replies[t..], operationResourceMap)
      decreases |replies| - t
    {
      ghost var st := PollState(queue, resultObjects, completed, dropped);
      assert replies[t..][0] == replies[t] && replies[t..][1..] == replies[t + 1..];
      var name := queue[0];
      queue := queue[1..];
      var operation := replies[t];
      if operation.RetrieveFailed? || operation.NotDone? {
        queue := queue + [name];
      } else if operation.DoneWithError? {
        dropped := dropped + [name];
      } else {
        var resourceName := Lookup(operationResourceMap, name);
        var violations := if operation.DoneOk? then operation.violations else [];
        var stamped := StampViolations(violations, resourceName);
        resultObjects := resultObjects + [ResultObject(stamped, resourceName)];
        completed := completed + [name];
      }
      assert PollState(queue, resultObjects, completed, dropped) == Tick(st, replies[t], operationResourceMap);
      t := t + 1;
      done := |queue| == 0;
    }
  }

  /** scanViolation: the submit loop followed by the FIFO poll loop. */
  method ScanViolation(objects: seq<RequestObject>, submit: (nat, Content) -> SubmitReply, replies: seq<PollReply>)
    returns (resultObjects: seq<ResultObject>, err: Option<ScanError>)
    requires TickBudget(replies) && KeyedReplies(replies)
    ensures (resultObjects, err) == Scan(objects, submit, replies)
  {
    var queue, operationResourceMap, failure := SubmitAll(objects, submit);
    if failure.Some? {
      return [], Some(SubmitError(failure.value));
    }
    if |queue| == 0 {
      return [], None;
    }
    resultObjects, queue := PollQueue(queue, operationResourceMap, replies);
    err := if queue == [] then None else Some(PollTimeout);
  }

  // ---------------------------------------------------------------------
  // Validate

  /** Validator.Validate with the default result handler: fetch, scan,
      handle, stopping at the first step that fails. `fetched` is what the
      fetcher's PrepareValidateRequestContent returns. */
  method Validate(d: DefaultResultHandler, fetched: Result<seq<RequestObject>, string>,
                  submit: (nat, Content) -> SubmitReply, replies: seq<PollReply>)
    returns (err: Option<ValidateError>)
    requires TickBudget(replies) && KeyedReplies(replies)
    ensures fetched.Failure? ==> err == Some(FetchError(fetched.error))
    ensures fetched.Success? && Scan(fetched.value, submit, replies).1.Some? ==>
      err == Some(ClientError(Scan(fetched.value, submit, replies).1.value))
    ensures fetched.Success? && Scan(fetched.value, submit, replies).1.None? ==>
      && (err == None <==> NothingReported(d, Scan(fetched.value, submit, replies).0))
      && (err != None ==> err.value.HandleError?)
  {
    if fetched.Failure? {
      return Some(FetchError(fetched.error));
    }
    var requestObjects := fetched.value;
    var resultObjects, scanErr := ScanViolation(requestObjects, submit, replies);
    if scanErr.Some? {
      return Some(ClientError(scanErr.value));
    }
    var handleErr, results := HandleResult(d, resultObjects);
    if handleErr.Some? {
      return Some(HandleError(handleErr.value));
    }
    return None;
  }
}
