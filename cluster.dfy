/** What the playbook engine sees of the Elasticsearch cluster and of the
    operator, and the record of what it asked them.

    The client is a record of answers, each a function of the request: a
    reply body, or the `NotFoundError` / other `TransportError` the client
    raises. The operator is a function from a prompt to the line typed. Every
    request, prompt and pause is recorded, in order, as a `Call`; a run of
    the engine is the list of its calls and how it ended. */
module Cluster {
  import opened Values

  /** The answer to one client request. */
  datatype Reply =
    | Body(value: Value)   // the decoded JSON reply
    | NotFoundError        // elasticsearch.exceptions.NotFoundError
    | TransportError       // any other elasticsearch.exceptions.TransportError

  /** The answer to one `snapshot.create` request of `create_snapshot`. */
  datatype Attempt =
    | Answered(result: Value) // a reply: acknowledged or not
    | Missing                 // NotFoundError
    | Unavailable(lookup: Reply) // another TransportError; `lookup` answers the get_snapshot that follows

  /** What the operator is asked to confirm. */
  datatype Prompt = ConfirmRepository(repository: Value) | ConfirmDelete(index: string)

  datatype Client = Client(
    repository: Value -> Reply,               // snapshot.get_repository(name)
    createRepository: (Value, Value) -> Reply, // snapshot.create_repository(name, body)
    attempts: (Value, Value, Value) -> seq<Attempt>, // the answers to snapshot.create(repository, name, body), in order
    indexSettings: string -> Reply)           // get_index_settings(pattern)

  /** One request to the cluster, one prompt or one pause. */
  datatype Call =
    | GetRepository(repository: Value)
    | PutRepository(repository: Value, body: Value)
    | PutSnapshot(repository: Value, snapshot: Value, body: Value)
    | GetSnapshot(repository: Value, snapshot: Value)
    | Sleep(seconds: nat)                     // the whole seconds of the pause
    | GetSettings(pattern: string)
    | DeleteIndex(index: string)
    | Ask(prompt: Prompt)

  /** How a run ended: normally, by an exception, or with the client's
      scripted answers used up while the engine was still asking. */
  datatype Status = Completed | Raised(error: Error) | Unfinished

  datatype Trace = Trace(status: Status, calls: seq<Call>)

  const Done := Trace(Completed, [])

  /** `PlayBook.get_snapshot` and `PlayBook.get_snapshot_repository`: the
      reply body, `{}` when the client raises NotFoundError; any other
      transport error escapes. */
  function Fetched(reply: Reply): (r: Result<Value>)
    ensures r.Err? <==> reply.TransportError?
    ensures r.Ok? && Truthy(r.value) ==> reply == Body(r.value)
    ensures reply.NotFoundError? ==> r.Ok? && !Truthy(r.value)
    ensures reply.Body? ==> r == Ok(reply.value)
    ensures reply.NotFoundError? ==> r == Ok(Mapping([]))
  {
    match reply
    case Body(v) => Ok(v)
    case NotFoundError => Ok(Mapping([]))
    case TransportError => Err(ClusterFailure)
  }

  /** `result.get("acknowledged", "")` is true. */
  predicate Acknowledged(result: Value)
    requires result.Mapping?
  {
    Truthy(GetOr(result, "acknowledged", Str("")).value)
  }

  /** `PlayBook.create_snapshot_repository`: whether the cluster acknowledged
      the new repository. The client's errors escape. */
  function RepositoryCreated(reply: Reply): (r: Result<bool>)
    ensures r == Ok(true) <==> reply.Body? && reply.value.Mapping? && Acknowledged(reply.value)
    ensures r.Err? <==> !reply.Body? || !reply.value.Mapping?
  {
    match reply
    case Body(v) => if v.Mapping? then Ok(Acknowledged(v)) else Err(WrongType)
    case _ => Err(ClusterFailure)
  }

  /** `raw_input(...) in ("y", "Y")`. */
  predicate Approves(answer: string) {
    answer == "y" || answer == "Y"
  }

  /** Run `b` after `a` unless `a` did not complete. */
  function Then(a: Trace, b: Trace): Trace {
    if a.status.Completed? then Trace(b.status, a.calls + b.calls) else a
  }

  /** A `for` loop that runs `step` on each element in turn and stops at the
      first one that does not complete. */
  function Sequence<T>(xs: seq<T>, step: T -> Trace): Trace
    decreases |xs|
  {
    if xs == [] then Done else Then(Sequence(xs[..|xs| - 1], step), step(xs[|xs| - 1]))
  }

  /** All the calls of the steps, one element after the other. */
  function AllCalls<T>(xs: seq<T>, step: T -> Trace): seq<Call>
    decreases |xs|
  {
    if xs == [] then [] else AllCalls(xs[..|xs| - 1], step) + step(xs[|xs| - 1]).calls
  }

  /** One more element: the loop runs its step after the earlier ones. */
  lemma SequenceNext<T>(xs: seq<T>, step: T -> Trace, i: nat)
    requires i < |xs|
    ensures Sequence(xs[..i + 1], step) == Then(Sequence(xs[..i], step), step(xs[i]))
  {
    assert xs[..i + 1][..i] == xs[..i];
  }

  lemma AllCallsNext<T>(xs: seq<T>, step: T -> Trace, i: nat)
    requires i < |xs|
    ensures AllCalls(xs[..i + 1], step) == AllCalls(xs[..i], step) + step(xs[i]).calls
  {
    assert xs[..i + 1][..i] == xs[..i];
  }

  /** When the steps before the `i`-th complete and the `i`-th does not, the
      loop ends there, with that step's status and no later element visited. */
  lemma SequenceFailsAt<T>(xs: seq<T>, step: T -> Trace, i: nat)
    requires i < |xs|
    requires forall j | 0 <= j < i :: step(xs[j]).status.Completed?
    requires !step(xs[i]).status.Completed?
    ensures Sequence(xs, step) == Trace(step(xs[i]).status, AllCalls(xs[..i], step) + step(xs[i]).calls)
  {
    assert forall x | x in xs[..i] :: step(x).status.Completed?;
    SequenceCompleted(xs[..i], step);
    SequenceNext(xs, step, i);
    SequenceStops(xs, step, i + 1);
  }

  /** Once a step has not completed, the later elements are not visited. */
  lemma {:induction false} SequenceStops<T>(xs: seq<T>, step: T -> Trace, i: nat)
    requires i <= |xs| && !Sequence(xs[..i], step).status.Completed?
    ensures Sequence(xs, step) == Sequence(xs[..i], step)
    decreases |xs|
  {
    if i < |xs| {
      var init := xs[..|xs| - 1];
      assert init[..i] == xs[..i];
      SequenceStops(init, step, i);
    } else {
      assert xs[..i] == xs;
    }
  }

  /** When every step completes, each element is visited once, in order. */
  lemma {:induction false} SequenceCompleted<T>(xs: seq<T>, step: T -> Trace)
    requires forall x | x in xs :: step(x).status.Completed?
    ensures Sequence(xs, step) == Trace(Completed, AllCalls(xs, step))
    decreases |xs|
  {
    if xs != [] {
      var init := xs[..|xs| - 1];
      assert forall x | x in init :: x in xs;
      SequenceCompleted(init, step);
      assert xs[|xs| - 1] in xs;
    }
  }

  /** The names of the indices deleted, in order. */
  function Deleted(calls: seq<Call>): (names: seq<string>)
    ensures forall n :: n in names <==> DeleteIndex(n) in calls
    decreases |calls|
  {
    if calls == [] then []
    else
      var rest := Deleted(calls[1..]);
      assert forall c :: c in calls <==> c == calls[0] || c in calls[1..] by {
        assert calls == [calls[0]] + calls[1..];
      }
      if calls[0].DeleteIndex? then [calls[0].index] + rest else rest
  }

  /** The patterns whose index settings were requested, in order. */
  function Lookups(calls: seq<Call>): (patterns: seq<string>)
    ensures forall p :: p in patterns <==> GetSettings(p) in calls
    decreases |calls|
  {
    if calls == [] then []
    else
      var rest := Lookups(calls[1..]);
      assert forall c :: c in calls <==> c == calls[0] || c in calls[1..] by {
        assert calls == [calls[0]] + calls[1..];
      }
      if calls[0].GetSettings? then [calls[0].pattern] + rest else rest
  }

  lemma {:induction false} IndexCallsConcat(a: seq<Call>, b: seq<Call>)
    ensures Deleted(a + b) == Deleted(a) + Deleted(b)
    ensures Lookups(a + b) == Lookups(a) + Lookups(b)
    decreases |a|
  {
    if a != [] {
      assert (a + b)[1..] == a[1..] + b;
      IndexCallsConcat(a[1..], b);
    } else {
      assert a + b == b;
    }
  }

  /** The number of requests to create a snapshot. */
  function Creates(calls: seq<Call>): (n: nat)
    ensures n <= |calls|
    decreases |calls|
  {
    if calls == [] then 0 else (if calls[0].PutSnapshot? then 1 else 0) + Creates(calls[1..])
  }

  /** The lengths of the pauses, in order. */
  function Sleeps(calls: seq<Call>): (pauses: seq<nat>)
    ensures |pauses| <= |calls|
    decreases |calls|
  {
    if calls == [] then [] else (if calls[0].Sleep? then [calls[0].seconds] else []) + Sleeps(calls[1..])
  }

  lemma {:induction false} CountsConcat(a: seq<Call>, b: seq<Call>)
    ensures Creates(a + b) == Creates(a) + Creates(b)
    ensures Sleeps(a + b) == Sleeps(a) + Sleeps(b)
    decreases |a|
  {
    if a != [] {
      assert (a + b)[1..] == a[1..] + b;
      CountsConcat(a[1..], b);
    } else {
      assert a + b == b;
    }
  }
}
