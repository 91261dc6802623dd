/** Which indices a `delete` job removes: `PlayBook._get_index_create_data`
    reads each matching index's creation date from its settings, and
    `PlayBook._filter_index` keeps those created before the retention
    threshold, `day` days (in milliseconds) before `now`. */
module Retention {
  import opened Values
  import opened Cluster

  /** One day in milliseconds. */
  const DayMillis := 86400000

  /** `last_time = now_time - int(day) * 86400000`. */
  function Threshold(now: int, day: int): int {
    now - day * DayMillis
  }

  /** `PlayBook._filter_index` after `int(...)` of each creation date: the
      entries strictly older than the threshold, in their order. */
  function FilterIndex(data: Dict<int>, day: int, now: int): (expired: Dict<int>)
    ensures forall e | e in expired :: e in data && e.1 < Threshold(now, day)
    ensures forall e | e in data && e.1 < Threshold(now, day) :: e in expired
    ensures |expired| <= |data|
    decreases |data|
  {
    if data == [] then []
    else
      var rest := FilterIndex(data[1..], day, now);
      assert forall e | e in data :: e == data[0] || e in data[1..] by {
        assert data == [data[0]] + data[1..];
      }
      if data[0].1 < Threshold(now, day) then [data[0]] + rest else rest
  }

  /** `int(x[1])` of every creation date; the first that is not a number raises. */
  function Timestamps(dates: Dict<Value>): (r: Result<Dict<int>>)
    ensures r.Ok? ==> Keys(r.value) == Keys(dates)
    ensures r.Ok? ==> forall i | 0 <= i < |dates| :: IntOf(dates[i].1) == Ok(r.value[i].1)
    ensures r.Err? <==> exists i | 0 <= i < |dates| :: IntOf(dates[i].1).Err?
    decreases |dates|
  {
    if dates == [] then Ok([])
    else match IntOf(dates[0].1)
      case Err(e) => Err(e)
      case Ok(t) =>
        match Timestamps(dates[1..])
        case Err(e) =>
          ghost var i :| 0 <= i < |dates[1..]| && IntOf(dates[1..][i].1).Err?;
          assert IntOf(dates[i + 1].1).Err?;
          Err(e)
        case Ok(rest) =>
          var r := [(dates[0].0, t)] + rest;
          assert Keys(r) == [dates[0].0] + Keys(rest) by { assert r[1..] == rest; }
          assert Keys(dates) == [dates[0].0] + Keys(dates[1..]);
          assert forall i | 0 <= i < |dates| :: IntOf(dates[i].1) == Ok(r[i].1) by {
            forall i | 0 <= i < |dates| ensures IntOf(dates[i].1) == Ok(r[i].1) {
              if i > 0 { assert dates[i] == dates[1..][i - 1]; }
            }
          }
          Ok(r)
  }

  /** `v["settings"]["index"]["creation_date"]`. */
  function CreationDate(settings: Value): Result<Value> {
    match Index(settings, "settings")
    case Err(e) => Err(e)
    case Ok(s) =>
      match Index(s, "index")
      case Err(e) => Err(e)
      case Ok(ix) => Index(ix, "creation_date")
  }

  /** The dict comprehension of `_get_index_create_data` over the reply's entries. */
  function CreationDates(settings: Dict<Value>): (r: Result<Dict<Value>>)
    ensures r.Ok? ==> Keys(r.value) == Keys(settings)
    ensures r.Ok? ==> forall i | 0 <= i < |settings| :: CreationDate(settings[i].1) == Ok(r.value[i].1)
    ensures r.Err? <==> exists i | 0 <= i < |settings| :: CreationDate(settings[i].1).Err?
    decreases |settings|
  {
    if settings == [] then Ok([])
    else match CreationDate(settings[0].1)
      case Err(e) => Err(e)
      case Ok(d) =>
        match CreationDates(settings[1..])
        case Err(e) =>
          ghost var i :| 0 <= i < |settings[1..]| && CreationDate(settings[1..][i].1).Err?;
          assert CreationDate(settings[i + 1].1).Err?;
          Err(e)
        case Ok(rest) =>
          var r := [(settings[0].0, d)] + rest;
          assert Keys(r) == [settings[0].0] + Keys(rest) by { assert r[1..] == rest; }
          assert Keys(settings) == [settings[0].0] + Keys(settings[1..]);
          assert forall i | 0 <= i < |settings| :: CreationDate(settings[i].1) == Ok(r[i].1) by {
            forall i | 0 <= i < |settings| ensures CreationDate(settings[i].1) == Ok(r[i].1) {
              if i > 0 { assert settings[i] == settings[1..][i - 1]; }
            }
          }
          Ok(r)
  }

  /** `PlayBook._get_index_create_data`, given the reply to
      `get_index_settings(pattern)`: each index's creation date. */
  function GetIndexCreateData(reply: Reply): Result<Dict<Value>> {
    match reply
    case Body(v) => if v.Mapping? then CreationDates(v.entries) else Err(WrongType)
    case _ => Err(ClusterFailure)
  }

  // ---------------------------------------------------------------------------
  // Properties

  /** An index created exactly at the threshold has not expired. */
  lemma ThresholdNotExpired(data: Dict<int>, day: int, now: int, name: string)
    requires (name, Threshold(now, day)) in data
    ensures (name, Threshold(now, day)) !in FilterIndex(data, day, now)
  {
  }

  /** The filter keeps the order of the dict and so its distinct keys. */
  lemma {:induction false} FilterIndexDistinct(data: Dict<int>, day: int, now: int)
    requires DistinctKeys(data)
    ensures DistinctKeys(FilterIndex(data, day, now))
    decreases |data|
  {
    if data != [] {
      var rest := data[1..];
      assert DistinctKeys(rest) by {
        forall i, j | 0 <= i < j < |rest| ensures rest[i].0 != rest[j].0 {
          assert rest[i] == data[i + 1] && rest[j] == data[j + 1];
        }
      }
      FilterIndexDistinct(rest, day, now);
      var r := FilterIndex(rest, day, now);
      if data[0].1 < Threshold(now, day) {
        var m := [data[0]] + r;
        forall i, j | 0 <= i < j < |m| ensures m[i].0 != m[j].0 {
          if i == 0 {
            assert m[j] in r;
            var l :| 0 <= l < |rest| && rest[l] == m[j];
            assert data[l + 1] == m[j];
          }
        }
      }
    }
  }

  /** Keeping indices for more days never deletes more of them: every index
      expired under the longer retention is expired under the shorter one. */
  lemma {:induction false} LongerRetentionKeepsMore(data: Dict<int>, day: int, day': int, now: int)
    requires day <= day'
    ensures forall e | e in FilterIndex(data, day', now) :: e in FilterIndex(data, day, now)
    ensures |FilterIndex(data, day', now)| <= |FilterIndex(data, day, now)|
    decreases |data|
  {
    if data != [] {
      LongerRetentionKeepsMore(data[1..], day, day', now);
    }
  }
}
