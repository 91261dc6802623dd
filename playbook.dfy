/** The playbook engine, `PlayBook`: each job of the playbook names a handler
    (`job_backup` or `job_delete`) that snapshots indices into a repository
    or deletes the indices older than their retention.

    Each handler is a method with the loops of its source, proved equal to a
    function that gives the whole run as a `Trace`: the requests, prompts
    and pauses in order, and whether the run completed or raised. The
    properties of the engine are lemmas about those functions. */
module Playbook {
  import opened Values
  import opened Render
  import opened Cluster
  import opened Retention
  import opened Snapshot

  /** `PlayBook(config, settings, es, force)`: the rendered playbook (its
      jobs), the tool's own settings document and the force switch. */
  datatype PlayBook = PlayBook(jobs: Value, settings: Value, force: bool)

  /** What the engine talks to: the cluster client, the operator (the line
      typed at each prompt), the clock (one instant, in milliseconds, for the
      whole run) and `ast.literal_eval`, used by `Config.format_data`. */
  datatype Host = Host(client: Client, confirm: Prompt -> string, now: int, parse: string -> Option<Value>)

  function Raise(e: Error, calls: seq<Call>): Trace {
    Trace(Raised(e), calls)
  }

  // ---------------------------------------------------------------------------
  // _exe_delete_index_job

  /** The pattern `_get_index_create_data` asks the settings of. */
  function IndexPattern(index: Value): string {
    StrOf(index) + "*"
  }

  /** One round of the deletion loop for the expired index `name`: deleted
      at once under force, otherwise only when the operator answers y. */
  function Deletion(book: PlayBook, host: Host, name: string): Trace {
    if book.force then Trace(Completed, [DeleteIndex(name)])
    else if Approves(host.confirm(ConfirmDelete(name))) then
      Trace(Completed, [Ask(ConfirmDelete(name)), DeleteIndex(name)])
    else Trace(Completed, [Ask(ConfirmDelete(name))])
  }

  function DeletionStep(book: PlayBook, host: Host): string -> Trace {
    name => Deletion(book, host, name)
  }

  /** The expired indices `_exe_delete_index_job` finds for `index` kept
      `saveDay` days, or what it raises while finding them. */
  function Expired(host: Host, index: Value, saveDay: Value): Result<Dict<int>> {
    var dates :- GetIndexCreateData(host.client.indexSettings(IndexPattern(index)));
    var day :- IntOf(saveDay);
    var stamps :- Timestamps(dates);
    Ok(FilterIndex(stamps, day, host.now))
  }

  /** `PlayBook._exe_delete_index_job(index, save_day)`. */
  function IndexDeletion(book: PlayBook, host: Host, index: Value, saveDay: Value): Trace {
    var lookup := [GetSettings(IndexPattern(index))];
    match Expired(host, index, saveDay)
    case Err(e) => Raise(e, lookup)
    case Ok(expired) => Trace(Completed, lookup + AllCalls(Keys(expired), DeletionStep(book, host)))
  }

  /** The `if result:` block of `_exe_delete_index_job`: one round per
      expired index, in the order of the dict. */
  method DeleteExpired(book: PlayBook, host: Host, expired: seq<string>) returns (calls: seq<Call>)
    ensures calls == AllCalls(expired, DeletionStep(book, host))
  {
    calls := [];
    var i := 0;
    while i < |expired|
      invariant 0 <= i <= |expired|
      invariant calls == AllCalls(expired[..i], DeletionStep(book, host))
    {
      var name := expired[i];
      var round: seq<Call>;
      if book.force {
        round := [DeleteIndex(name)];
      } else {
        round := [Ask(ConfirmDelete(name))];
        if Approves(host.confirm(ConfirmDelete(name))) {
          round := round + [DeleteIndex(name)];
        }
      }
      assert round == DeletionStep(book, host)(name).calls;
      AllCallsNext(expired, DeletionStep(book, host), i);
      calls := calls + round;
      i := i + 1;
    }
    assert expired[..i] == expired;
  }

  method ExeDeleteIndexJob(book: PlayBook, host: Host, index: Value, saveDay: Value) returns (t: Trace)
    ensures t == IndexDeletion(book, host, index, saveDay)
  {
    var pattern := IndexPattern(index);
    var lookup := [GetSettings(pattern)];
    var dates := GetIndexCreateData(host.client.indexSettings(pattern));
    if dates.Err? {
      return Raise(dates.error, lookup);
    }
    var day := IntOf(saveDay);
    if day.Err? {
      return Raise(day.error, lookup);
    }
    var stamps := Timestamps(dates.value);
    if stamps.Err? {
      return Raise(stamps.error, lookup);
    }
    var result := FilterIndex(stamps.value, day.value, host.now);
    var calls := DeleteExpired(book, host, Keys(result));
    t := Trace(Completed, lookup + calls);
  }

  // ---------------------------------------------------------------------------
  // job_delete

  function IndexDeletionStep(book: PlayBook, host: Host, saveDay: Value): Value -> Trace {
    index => IndexDeletion(book, host, index, saveDay)
  }

  /** `PlayBook.job_delete(config)`: a list of index prefixes is handled one
      after the other, a single string on its own, anything else not at all. */
  function DeleteJob(book: PlayBook, host: Host, config: Value): Trace {
    match GetOr(config, "index", Str(""))
    case Err(e) => Raise(e, [])
    case Ok(index) =>
      var saveDay := GetOr(config, "save", Str("")).value;
      if index.List? then Sequence(index.items, IndexDeletionStep(book, host, saveDay))
      else if index.Str? then IndexDeletion(book, host, index, saveDay)
      else Done
  }

  method JobDelete(book: PlayBook, host: Host, config: Value) returns (t: Trace)
    ensures t == DeleteJob(book, host, config)
  {
    var index := GetOr(config, "index", Str(""));
    if index.Err? {
      return Raise(index.error, []);
    }
    var saveDay := GetOr(config, "save", Str("")).value;
    if index.value.List? {
      var xs := index.value.items;
      ghost var step := IndexDeletionStep(book, host, saveDay);
      t := Done;
      var i := 0;
      while i < |xs|
        invariant 0 <= i <= |xs|
        invariant t == Sequence(xs[..i], step)
      {
        if !t.status.Completed? {
          SequenceStops(xs, step, i);
          return;
        }
        var r := ExeDeleteIndexJob(book, host, xs[i], saveDay);
        SequenceNext(xs, step, i);
        t := Then(t, r);
        i := i + 1;
      }
      assert xs[..i] == xs;
    } else if index.value.Str? {
      t := ExeDeleteIndexJob(book, host, index.value, saveDay);
    } else {
      t := Done;
    }
  }

  // ---------------------------------------------------------------------------
  // _exe_create_s3_snapshot_job

  /** `create_snapshot_repository(name, body)`: its answer is only logged,
      but an error of the client escapes. */
  function RepositoryCreation(host: Host, repository: Value, body: Value): Trace {
    var put := [PutRepository(repository, body)];
    match RepositoryCreated(host.client.createRepository(repository, body))
    case Ok(_) => Trace(Completed, put)
    case Err(e) => Raise(e, put)
  }

  /** The repository check at the head of `_exe_create_s3_snapshot_job`: an
      absent repository is created under force, or when the operator agrees. */
  function RepositoryGate(book: PlayBook, host: Host, repository: Value, body: Value): Trace {
    var get := [GetRepository(repository)];
    match Fetched(host.client.repository(repository))
    case Err(e) => Raise(e, get)
    case Ok(found) =>
      if Truthy(found) then Trace(Completed, get)
      else if book.force then Then(Trace(Completed, get), RepositoryCreation(host, repository, body))
      else
        var asked := get + [Ask(ConfirmRepository(repository))];
        if Approves(host.confirm(ConfirmRepository(repository))) then
          Then(Trace(Completed, asked), RepositoryCreation(host, repository, body))
        else Trace(Completed, asked)
  }

  /** The indices to snapshot: a single string stands for itself. */
  function Indices(indexList: Value): Result<seq<Value>> {
    if indexList.Str? then Ok([indexList]) else Elements(indexList)
  }

  /** How a `create_snapshot` run ends the step of its index: either answer
      lets the loop go on. */
  function SnapshotStatus(o: Outcome): Status {
    match o
    case Returned(_) => Completed
    case Failed(e) => Raised(e)
    case OutOfScript => Unfinished
  }

  /** One round of the snapshot loop: the body rendered with the index's
      name, then `create_snapshot` under that name. */
  function IndexSnapshot(host: Host, repository: Value, indexBody: Value, index: Value): Trace {
    match FormatData(indexBody, [("index", index)], host.parse)
    case Err(e) => Raise(e, [])
    case Ok(postBody) =>
      var run := SnapshotRun(repository, index, postBody, host.client.attempts(repository, index, postBody), 0);
      Trace(SnapshotStatus(run.outcome), run.calls)
  }

  function SnapshotStep(host: Host, repository: Value, indexBody: Value): Value -> Trace {
    index => IndexSnapshot(host, repository, indexBody, index)
  }

  /** `PlayBook._exe_create_s3_snapshot_job(...)`. */
  function SnapshotJob(book: PlayBook, host: Host, repository: Value, repositoryBody: Value,
                       indexList: Value, indexBody: Value): Trace
  {
    Then(RepositoryGate(book, host, repository, repositoryBody),
         match Indices(indexList)
         case Err(e) => Raise(e, [])
         case Ok(indices) => Sequence(indices, SnapshotStep(host, repository, indexBody)))
  }

  /** One pass of the `for` loop of `_exe_create_s3_snapshot_job`. */
  method SnapshotIndex(host: Host, repository: Value, indexBody: Value, index: Value) returns (r: Trace)
    ensures r == IndexSnapshot(host, repository, indexBody, index)
  {
    var postBody := FormatData(indexBody, [("index", index)], host.parse);
    if postBody.Err? {
      return Raise(postBody.error, []);
    }
    var run := CreateSnapshot(repository, index, postBody.value,
                              host.client.attempts(repository, index, postBody.value));
    r := Trace(SnapshotStatus(run.outcome), run.calls);
  }

  /** The `for` loop of `_exe_create_s3_snapshot_job`. */
  method SnapshotIndices(host: Host, repository: Value, indexBody: Value, indices: seq<Value>) returns (t: Trace)
    ensures t == Sequence(indices, SnapshotStep(host, repository, indexBody))
  {
    ghost var step := SnapshotStep(host, repository, indexBody);
    t := Done;
    var i := 0;
    while i < |indices|
      invariant 0 <= i <= |indices|
      invariant t == Sequence(indices[..i], step)
    {
      if !t.status.Completed? {
        SequenceStops(indices, step, i);
        return;
      }
      var r := SnapshotIndex(host, repository, indexBody, indices[i]);
      assert r == step(indices[i]);
      SequenceNext(indices, step, i);
      t := Then(t, r);
      i := i + 1;
    }
    assert indices[..i] == indices;
  }

  method ExeCreateS3SnapshotJob(book: PlayBook, host: Host, repository: Value, repositoryBody: Value,
                                indexList: Value, indexBody: Value) returns (t: Trace)
    ensures t == SnapshotJob(book, host, repository, repositoryBody, indexList, indexBody)
  {
    t := RepositoryGate(book, host, repository, repositoryBody);
    if !t.status.Completed? {
      return;
    }
    var indices := Indices(indexList);
    if indices.Err? {
      return Raise(indices.error, t.calls);
    }
    var r := SnapshotIndices(host, repository, indexBody, indices.value);
    t := Then(t, r);
  }

  // ---------------------------------------------------------------------------
  // job_backup

  /** The parameters `job_backup` reads, in its order. */
  datatype Backup = Backup(repository: Value, repositoryBody: Value, indexList: Value, indexBody: Value)

  function BackupParameters(settings: Value, config: Value): Result<Backup> {
    var snapshot :- Index(settings, "snapshot");
    var repository :- Index(snapshot, "repository");
    var repositoryBody :- Index(snapshot, "body");
    var indexList :- Index(config, "index");
    var indexBody :- Index(config, "body");
    Ok(Backup(repository, repositoryBody, indexList, indexBody))
  }

  /** `PlayBook.job_backup(config)`. */
  function BackupJob(book: PlayBook, host: Host, config: Value): Trace {
    match BackupParameters(book.settings, config)
    case Err(e) => Raise(e, [])
    case Ok(p) => SnapshotJob(book, host, p.repository, p.repositoryBody, p.indexList, p.indexBody)
  }

  /** The snapshot job's first request looks the repository up. */
  lemma SnapshotJobAsksRepositoryFirst(book: PlayBook, host: Host, repository: Value, repositoryBody: Value,
                                       indexList: Value, indexBody: Value)
    ensures var t := SnapshotJob(book, host, repository, repositoryBody, indexList, indexBody);
      t.calls != [] && t.calls[0] == GetRepository(repository)
  {
    var gate := RepositoryGate(book, host, repository, repositoryBody);
    assert gate.calls != [] && gate.calls[0] == GetRepository(repository);
  }

  /** With every parameter present, `job_backup` is the snapshot job on the
      values it read, and it starts by looking the repository up. */
  lemma BackupRunsSnapshotJob(book: PlayBook, host: Host, config: Value, snapshot: Value, repository: Value,
                              repositoryBody: Value, indexList: Value, indexBody: Value)
    requires Index(book.settings, "snapshot") == Ok(snapshot)
    requires Index(snapshot, "repository") == Ok(repository)
    requires Index(snapshot, "body") == Ok(repositoryBody)
    requires Index(config, "index") == Ok(indexList)
    requires Index(config, "body") == Ok(indexBody)
    ensures BackupJob(book, host, config) == SnapshotJob(book, host, repository, repositoryBody, indexList, indexBody)
    ensures BackupJob(book, host, config).calls != []
    ensures BackupJob(book, host, config).calls[0] == GetRepository(repository)
  {
    SnapshotJobAsksRepositoryFirst(book, host, repository, repositoryBody, indexList, indexBody);
  }

  /** A parameter missing from the settings or from the job raises before
      any request is made, and only then does `job_backup` make none. */
  lemma BackupMissingParameterRaises(book: PlayBook, host: Host, config: Value)
    ensures BackupParameters(book.settings, config).Err? <==> BackupJob(book, host, config).calls == []
    ensures BackupParameters(book.settings, config).Err? ==>
      BackupJob(book, host, config) == Raise(BackupParameters(book.settings, config).error, [])
  {
    var p := BackupParameters(book.settings, config);
    if p.Ok? {
      SnapshotJobAsksRepositoryFirst(book, host, p.value.repository, p.value.repositoryBody,
                                     p.value.indexList, p.value.indexBody);
    }
  }

  method JobBackup(book: PlayBook, host: Host, config: Value) returns (t: Trace)
    ensures t == BackupJob(book, host, config)
  {
    var p := BackupParameters(book.settings, config);
    if p.Err? {
      return Raise(p.error, []);
    }
    t := ExeCreateS3SnapshotJob(book, host, p.value.repository, p.value.repositoryBody,
                                p.value.indexList, p.value.indexBody);
  }

  // ---------------------------------------------------------------------------
  // run

  /** The handler `getattr(self, "job_" + type)` finds for one job. */
  function JobRun(book: PlayBook, host: Host, job: Value): Trace {
    match Index(job, "job")
    case Err(e) => Raise(e, [])
    case Ok(jobType) =>
      var handler := "job_" + StrOf(jobType);
      if handler == "job_backup" then BackupJob(book, host, job)
      else if handler == "job_delete" then DeleteJob(book, host, job)
      else Done
  }

  function JobStep(book: PlayBook, host: Host): Value -> Trace {
    job => JobRun(book, host, job)
  }

  /** `PlayBook.run()`: the jobs one after the other. */
  function PlaybookRun(book: PlayBook, host: Host): Trace {
    match Elements(book.jobs)
    case Err(e) => Raise(e, [])
    case Ok(jobs) => Sequence(jobs, JobStep(book, host))
  }

  method Run(book: PlayBook, host: Host) returns (t: Trace)
    ensures t == PlaybookRun(book, host)
  {
    var jobs := Elements(book.jobs);
    if jobs.Err? {
      return Raise(jobs.error, []);
    }
    var xs := jobs.value;
    ghost var step := JobStep(book, host);
    t := Done;
    var i := 0;
    while i < |xs|
      invariant 0 <= i <= |xs|
      invariant t == Sequence(xs[..i], step)
    {
      if !t.status.Completed? {
        SequenceStops(xs, step, i);
        return;
      }
      var job := xs[i];
      var r: Trace;
      var jobType := Index(job, "job");
      if jobType.Err? {
        r := Raise(jobType.error, []);
      } else {
        var handler := "job_" + StrOf(jobType.value);
        if handler == "job_backup" {
          r := JobBackup(book, host, job);
        } else if handler == "job_delete" {
          r := JobDelete(book, host, job);
        } else {
          r := Done;
        }
      }
      SequenceNext(xs, step, i);
      t := Then(t, r);
      i := i + 1;
    }
    assert xs[..i] == xs;
  }

  // ---------------------------------------------------------------------------
  // Properties

  /** A job runs the handler its `job` entry names, and nothing when there
      is no handler of that name. */
  lemma JobDispatch(book: PlayBook, host: Host, job: Value, jobType: Value)
    requires Index(job, "job") == Ok(jobType)
    ensures JobRun(book, host, job) ==
      if jobType == Str("backup") then BackupJob(book, host, job)
      else if jobType == Str("delete") then DeleteJob(book, host, job)
      else Done
  {
    var name := StrOf(jobType);
    HandlerNames(name);
    if !jobType.Str? {
      StrOfHead(jobType);
      assert name != "backup" && name != "delete" by {
        assert "backup"[0] == 'b' && "delete"[0] == 'd';
      }
    }
  }

  lemma HandlerNames(name: string)
    ensures "job_" + name == "job_backup" <==> name == "backup"
    ensures "job_" + name == "job_delete" <==> name == "delete"
  {
    if "job_" + name == "job_backup" || "job_" + name == "job_delete" {
      assert name == ("job_" + name)[4..];
    }
  }

  /** When every job completes, each runs once, in the order of the playbook. */
  lemma RunVisitsEveryJob(book: PlayBook, host: Host, jobs: seq<Value>)
    requires Elements(book.jobs) == Ok(jobs)
    requires forall job | job in jobs :: JobRun(book, host, job).status.Completed?
    ensures PlaybookRun(book, host) == Trace(Completed, AllCalls(jobs, JobStep(book, host)))
  {
    SequenceCompleted(jobs, JobStep(book, host));
  }

  /** A job that raises ends the run: its exception escapes `run` and no
      later job starts. */
  lemma RunStopsAtRaisingJob(book: PlayBook, host: Host, jobs: seq<Value>, i: nat)
    requires Elements(book.jobs) == Ok(jobs) && i < |jobs|
    requires forall j | 0 <= j < i :: JobRun(book, host, jobs[j]).status.Completed?
    requires !JobRun(book, host, jobs[i]).status.Completed?
    ensures PlaybookRun(book, host) ==
      Trace(JobRun(book, host, jobs[i]).status, AllCalls(jobs[..i], JobStep(book, host)) + JobRun(book, host, jobs[i]).calls)
  {
    SequenceFailsAt(jobs, JobStep(book, host), i);
  }

  predicate NoDuplicates(names: seq<string>) {
    forall i, j | 0 <= i < j < |names| :: names[i] != names[j]
  }

  /** The indices the deletion rounds let go, in order: all of them under
      force, otherwise those the operator answers y for. */
  function Approved(book: PlayBook, host: Host, names: seq<string>): (approved: seq<string>)
    ensures forall n :: n in approved <==> n in names && (book.force || Approves(host.confirm(ConfirmDelete(n))))
    ensures NoDuplicates(names) ==> NoDuplicates(approved)
    decreases |names|
  {
    if names == [] then []
    else
      var init := names[..|names| - 1];
      var last := names[|names| - 1];
      assert forall n :: n in names <==> n in init || n == last by {
        assert names == init + [last];
      }
      var kept := Approved(book, host, init);
      if book.force || Approves(host.confirm(ConfirmDelete(last))) then kept + [last] else kept
  }

  /** What one deletion round records. */
  lemma DeletionRound(book: PlayBook, host: Host, name: string)
    ensures Deleted(Deletion(book, host, name).calls) ==
      if book.force || Approves(host.confirm(ConfirmDelete(name))) then [name] else []
    ensures Lookups(Deletion(book, host, name).calls) == []
    ensures forall n :: Ask(ConfirmDelete(n)) in Deletion(book, host, name).calls <==> !book.force && n == name
  {
    var ask := Ask(ConfirmDelete(name));
    var delete := DeleteIndex(name);
    assert [ask, delete][1..] == [delete];
    assert Deleted([delete]) == [name] by { assert [delete][1..] == []; }
    assert Lookups([delete]) == [] by { assert [delete][1..] == []; }
    assert Deleted([ask]) == [] by { assert [ask][1..] == []; }
    assert Lookups([ask]) == [] by { assert [ask][1..] == []; }
  }

  /** The deletion rounds over `names` delete exactly the approved ones, in
      order, and look nothing up. */
  lemma {:induction false} DeletionCalls(book: PlayBook, host: Host, names: seq<string>)
    ensures Deleted(AllCalls(names, DeletionStep(book, host))) == Approved(book, host, names)
    ensures Lookups(AllCalls(names, DeletionStep(book, host))) == []
    decreases |names|
  {
    if names != [] {
      var step := DeletionStep(book, host);
      var init := names[..|names| - 1];
      var last := names[|names| - 1];
      DeletionCalls(book, host, init);
      var before := AllCalls(init, step);
      var round := Deletion(book, host, last).calls;
      assert AllCalls(names, step) == before + round;
      IndexCallsConcat(before, round);
      DeletionRound(book, host, last);
    }
  }

  /** Unless forced, the deletion rounds over `names` ask about each of them
      and about nothing else. */
  lemma {:induction false} DeletionAsks(book: PlayBook, host: Host, names: seq<string>)
    ensures forall n :: Ask(ConfirmDelete(n)) in AllCalls(names, DeletionStep(book, host)) <==> !book.force && n in names
    decreases |names|
  {
    if names != [] {
      var step := DeletionStep(book, host);
      var init := names[..|names| - 1];
      var last := names[|names| - 1];
      DeletionAsks(book, host, init);
      var before := AllCalls(init, step);
      var round := Deletion(book, host, last).calls;
      assert AllCalls(names, step) == before + round;
      DeletionRound(book, host, last);
      assert forall n :: n in names <==> n in init || n == last by {
        assert names == init + [last];
      }
      forall n ensures Ask(ConfirmDelete(n)) in before + round <==> !book.force && n in names {
      }
    }
  }

  /** Once the expired indices are known, `_exe_delete_index_job` deletes
      exactly those that force or the operator lets go, asks about each of
      them unless forced. */
  lemma DeletesApprovedExpired(book: PlayBook, host: Host, index: Value, saveDay: Value, expired: Dict<int>)
    requires Expired(host, index, saveDay) == Ok(expired)
    ensures IndexDeletion(book, host, index, saveDay).status == Completed
    ensures Deleted(IndexDeletion(book, host, index, saveDay).calls) == Approved(book, host, Keys(expired))
    ensures forall n :: DeleteIndex(n) in IndexDeletion(book, host, index, saveDay).calls <==>
      HasKey(expired, n) && (book.force || Approves(host.confirm(ConfirmDelete(n))))
    ensures forall n :: Ask(ConfirmDelete(n)) in IndexDeletion(book, host, index, saveDay).calls <==>
      !book.force && HasKey(expired, n)
  {
    var lookup := [GetSettings(IndexPattern(index))];
    var rounds := AllCalls(Keys(expired), DeletionStep(book, host));
    DeletionCalls(book, host, Keys(expired));
    DeletionAsks(book, host, Keys(expired));
    IndexCallsConcat(lookup, rounds);
  }

  /** An index whose settings are listed once is deleted at most once. */
  lemma DeletesEachIndexOnce(book: PlayBook, host: Host, index: Value, saveDay: Value,
                             settings: Dict<Value>, dates: Dict<Value>, day: int, stamps: Dict<int>)
    requires host.client.indexSettings(IndexPattern(index)) == Body(Mapping(settings))
    requires DistinctKeys(settings)
    requires CreationDates(settings) == Ok(dates)
    requires IntOf(saveDay) == Ok(day)
    requires Timestamps(dates) == Ok(stamps)
    ensures NoDuplicates(Deleted(IndexDeletion(book, host, index, saveDay).calls))
  {
    assert Keys(stamps) == Keys(settings);
    assert DistinctKeys(stamps) by {
      forall i, j | 0 <= i < j < |stamps| ensures stamps[i].0 != stamps[j].0 {
        assert Keys(stamps)[i] == settings[i].0 && Keys(stamps)[j] == settings[j].0;
      }
    }
    var expired := FilterIndex(stamps, day, host.now);
    FilterIndexDistinct(stamps, day, host.now);
    assert Expired(host, index, saveDay) == Ok(expired);
    DeletesApprovedExpired(book, host, index, saveDay, expired);
  }

  /** `job_delete` with a list looks up each prefix once, in order, when
      every prefix's indices can be read. */
  lemma DeleteJobLooksUpEachPrefix(book: PlayBook, host: Host, config: Value, prefixes: seq<Value>, saveDay: Value)
    requires GetOr(config, "index", Str("")) == Ok(List(prefixes))
    requires GetOr(config, "save", Str("")) == Ok(saveDay)
    requires forall x | x in prefixes :: Expired(host, x, saveDay).Ok?
    ensures DeleteJob(book, host, config).status == Completed
    ensures Lookups(DeleteJob(book, host, config).calls) == Patterns(prefixes)
  {
    var step := IndexDeletionStep(book, host, saveDay);
    forall x | x in prefixes ensures step(x).status.Completed? {
      DeletesApprovedExpired(book, host, x, saveDay, Expired(host, x, saveDay).value);
    }
    SequenceCompleted(prefixes, step);
    PrefixLookups(book, host, saveDay, prefixes);
  }

  /** `job_delete` with a single string looks up that one prefix; with
      anything else but a list it does nothing at all. */
  lemma DeleteJobSingleOrNothing(book: PlayBook, host: Host, config: Value, index: Value)
    requires GetOr(config, "index", Str("")) == Ok(index) && !index.List?
    ensures index.Str? ==> Lookups(DeleteJob(book, host, config).calls) == [IndexPattern(index)]
    ensures !index.Str? ==> DeleteJob(book, host, config) == Done
  {
    if index.Str? {
      IndexDeletionLooksUpOnce(book, host, index, GetOr(config, "save", Str("")).value);
    }
  }

  /** Whatever happens next, a deletion job looks up its prefix exactly once. */
  lemma IndexDeletionLooksUpOnce(book: PlayBook, host: Host, index: Value, saveDay: Value)
    ensures Lookups(IndexDeletion(book, host, index, saveDay).calls) == [IndexPattern(index)]
  {
    var lookup := [GetSettings(IndexPattern(index))];
    assert Lookups(lookup) == [IndexPattern(index)] by { assert lookup[1..] == []; }
    var expired := Expired(host, index, saveDay);
    if expired.Ok? {
      var rounds := AllCalls(Keys(expired.value), DeletionStep(book, host));
      DeletionCalls(book, host, Keys(expired.value));
      IndexCallsConcat(lookup, rounds);
    }
  }

  /** The patterns of a list of prefixes, in order. */
  function Patterns(prefixes: seq<Value>): (patterns: seq<string>)
    ensures |patterns| == |prefixes|
    ensures forall i | 0 <= i < |prefixes| :: patterns[i] == IndexPattern(prefixes[i])
    decreases |prefixes|
  {
    if prefixes == [] then [] else Patterns(prefixes[..|prefixes| - 1]) + [IndexPattern(prefixes[|prefixes| - 1])]
  }

  lemma {:induction false} PrefixLookups(book: PlayBook, host: Host, saveDay: Value, prefixes: seq<Value>)
    ensures Lookups(AllCalls(prefixes, IndexDeletionStep(book, host, saveDay))) == Patterns(prefixes)
    decreases |prefixes|
  {
    if prefixes != [] {
      var step := IndexDeletionStep(book, host, saveDay);
      var init := prefixes[..|prefixes| - 1];
      var last := prefixes[|prefixes| - 1];
      PrefixLookups(book, host, saveDay, init);
      var before := AllCalls(init, step);
      var round := IndexDeletion(book, host, last, saveDay).calls;
      assert AllCalls(prefixes, step) == before + round;
      IndexDeletionLooksUpOnce(book, host, last, saveDay);
      IndexCallsConcat(before, round);
    }
  }

  /** The repository is created exactly when it is absent and force is on
      or the operator answers y; the operator is asked only without force. */
  lemma RepositoryGateCreates(book: PlayBook, host: Host, repository: Value, body: Value, found: Value)
    requires Fetched(host.client.repository(repository)) == Ok(found)
    ensures PutRepository(repository, body) in RepositoryGate(book, host, repository, body).calls <==>
      !Truthy(found) && (book.force || Approves(host.confirm(ConfirmRepository(repository))))
    ensures Ask(ConfirmRepository(repository)) in RepositoryGate(book, host, repository, body).calls <==>
      !Truthy(found) && !book.force
    ensures RepositoryGate(book, host, repository, body).status.Completed? <==>
      Truthy(found) || !(book.force || Approves(host.confirm(ConfirmRepository(repository)))) ||
      RepositoryCreated(host.client.createRepository(repository, body)).Ok?
  {
  }

  /** A snapshot run that ends either way, created or not, lets the loop go
      on to the next index. */
  lemma IndexSnapshotCompletes(host: Host, repository: Value, indexBody: Value, index: Value, postBody: Value)
    requires FormatData(indexBody, [("index", index)], host.parse) == Ok(postBody)
    ensures IndexSnapshot(host, repository, indexBody, index).status.Completed? <==>
      SnapshotRun(repository, index, postBody, host.client.attempts(repository, index, postBody), 0).outcome.Returned?
  {
  }

  /** The first request of an index's round creates the snapshot named after
      the index, with the body rendered for it; a body that does not mention
      `index` is sent as it is. */
  lemma IndexSnapshotRequests(host: Host, repository: Value, indexBody: Value, index: Value, postBody: Value)
    requires FormatData(indexBody, [("index", index)], host.parse) == Ok(postBody)
    requires host.client.attempts(repository, index, postBody) != []
    ensures IndexSnapshot(host, repository, indexBody, index).calls != []
    ensures IndexSnapshot(host, repository, indexBody, index).calls[0] == PutSnapshot(repository, index, postBody)
    ensures !Occurs("index", StrOf(indexBody)) ==> postBody == indexBody
  {
    if !Occurs("index", StrOf(indexBody)) {
      FormatDataWithoutNames(indexBody, [("index", index)], host.parse);
    }
  }

  /** When the repository check passes and every index's round completes,
      each index is snapshotted once, in order. */
  lemma SnapshotJobVisitsEveryIndex(book: PlayBook, host: Host, repository: Value, repositoryBody: Value,
                                    indexList: Value, indexBody: Value, indices: seq<Value>)
    requires RepositoryGate(book, host, repository, repositoryBody).status.Completed?
    requires Indices(indexList) == Ok(indices)
    requires forall x | x in indices :: IndexSnapshot(host, repository, indexBody, x).status.Completed?
    ensures SnapshotJob(book, host, repository, repositoryBody, indexList, indexBody) ==
      Trace(Completed, RepositoryGate(book, host, repository, repositoryBody).calls +
                       AllCalls(indices, SnapshotStep(host, repository, indexBody)))
  {
    SequenceCompleted(indices, SnapshotStep(host, repository, indexBody));
  }
}
