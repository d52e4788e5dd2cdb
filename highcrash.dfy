/** highcrash_intersections/refresh_intersections_highestcrashes.py: rebuild
    or refresh the nyc_highcrash_intersections materialized view through
    CARTO's Batch API, wait for the job, then read the view back. The batch
    endpoint, the successive status replies and the final read are
    parameters. */
module HighCrash {
  import opened Common

  const AllIntersections := "nyc_intersections"
  const HighcrashView := "nyc_highcrash_intersections"

  /** HOWMANY_INTERSECTIONS: the size of the view. */
  const HowManyIntersections := "500"

  // --------------------------------------------------------- statements

  const DropPart := "DROP MATERIALIZED VIEW "
  const CreatePart := "CREATE MATERIALIZED VIEW "
  /** The rows the view keeps: counted intersections, highest count
      first, HOWMANY_INTERSECTIONS of them. */
  const Ranking := "WHERE crashcount IS NOT NULL ORDER BY crashcount DESC LIMIT " + HowManyIntersections
  const SelectAll := " AS SELECT * FROM " + AllIntersections + " "

  /** The first-time batch: drop the view, create it from the
      intersections with the highest crash counts, open it to the public,
      and index both geometry columns. */
  function CreateStatements(): seq<string>
  {
    [ DropPart + HighcrashView,
      CreatePart + HighcrashView + SelectAll + Ranking,
      "GRANT SELECT ON " + HighcrashView + " TO PUBLIC",
      "CREATE INDEX " + HighcrashView + "_the_geom ON " + HighcrashView + " (the_geom)",
      "CREATE INDEX " + HighcrashView + "_the_geom_webmercator ON " + HighcrashView + " (the_geom_webmercator)" ]
  }

  /** The routine batch: recompute the view in place. */
  function RefreshStatements(): seq<string>
  {
    ["REFRESH MATERIALIZED VIEW " + HighcrashView]
  }

  /** The batch jobs run() starts for a mode: the two mode tests are
      independent, so a mode other than "create" and "refresh" starts
      none. */
  function BatchJobs(mode: string): (r: seq<seq<string>>)
    ensures |r| <= 1
    ensures r != [] <==> mode == "create" || mode == "refresh"
    ensures mode == "create" ==> r == [CreateStatements()]
    ensures mode == "refresh" ==> r == [RefreshStatements()]
  {
    (if mode == "create" then [CreateStatements()] else []) +
    (if mode == "refresh" then [RefreshStatements()] else [])
  }

  /** Every statement of either batch is about the high-crash view; the
      first-time batch drops it before it creates it, creates it from the
      crash-counted intersections in descending count order, and has five
      statements; the routine batch has one. */
  lemma StatementsShape(mode: string, k: nat)
    requires |BatchJobs(mode)| == 1 && k < |BatchJobs(mode)[0]|
    ensures Contains(BatchJobs(mode)[0][k], HighcrashView)
    ensures mode == "create" ==>
      && |BatchJobs(mode)[0]| == 5
      && BatchJobs(mode)[0][0] == DropPart + HighcrashView
      && BatchJobs(mode)[0][1][..|CreatePart + HighcrashView|] == CreatePart + HighcrashView
      && Contains(BatchJobs(mode)[0][1], Ranking)
    ensures mode == "refresh" ==> |BatchJobs(mode)[0]| == 1
  {
    if mode == "create" {
      CreateNamesView(k);
      CreateOrder();
    } else {
      ContainsPart("REFRESH MATERIALIZED VIEW ", HighcrashView, "");
      assert "REFRESH MATERIALIZED VIEW " + HighcrashView + "" == RefreshStatements()[0];
    }
  }

  /** Each statement of the first-time batch names the view. */
  lemma CreateNamesView(k: nat)
    requires k < |CreateStatements()|
    ensures Contains(CreateStatements()[k], HighcrashView)
  {
    var ss := CreateStatements();
    if k == 0 {
      ContainsPart(DropPart, HighcrashView, "");
      assert DropPart + HighcrashView + "" == ss[0];
    } else if k == 1 {
      ContainsPart(CreatePart, HighcrashView, SelectAll + Ranking);
      assert CreatePart + HighcrashView + (SelectAll + Ranking) == ss[1];
    } else if k == 2 {
      ContainsPart("GRANT SELECT ON ", HighcrashView, " TO PUBLIC");
    } else if k == 3 {
      ContainsPart("CREATE INDEX " + HighcrashView + "_the_geom ON ", HighcrashView, " (the_geom)");
    } else {
      ContainsPart("CREATE INDEX " + HighcrashView + "_the_geom_webmercator ON ", HighcrashView, " (the_geom_webmercator)");
    }
  }

  /** The first-time batch has five statements: the drop comes first, then
      the creation from the ranked intersections. */
  lemma CreateOrder()
    ensures var ss := CreateStatements();
      && |ss| == 5
      && ss[0] == DropPart + HighcrashView
      && ss[1][..|CreatePart + HighcrashView|] == CreatePart + HighcrashView
      && Contains(ss[1], Ranking)
  {
    var ss := CreateStatements();
    var created := CreatePart + HighcrashView;
    HeadAndTail(created, SelectAll, Ranking);
  }

  /** The first part of a + b + c is a, and c occurs in it. */
  lemma HeadAndTail(a: string, b: string, c: string)
    ensures (a + b + c)[..|a|] == a && Contains(a + b + c, c)
  {
    ContainsPart(a + b, c, "");
    assert a + b + c + "" == a + b + c;
  }

  // ------------------------------------------------------------ the job

  /** start_carto_batchjob(): a truthy 'error' in the reply, or a reply
      without 'job_id', ends the script with status 1; otherwise the job
      id. */
  function StartBatchJob(reply: Reply): (r: Outcome<Value>)
    ensures r.Ok? <==>
      reply.ObjectReply? && !("error" in reply.fields && Truthy(reply.fields["error"])) && "job_id" in reply.fields
    ensures r.Ok? ==> r.value == reply.fields["job_id"]
    ensures r.Exit? ==> r.status == 1
  {
    match reply
    case ListReply(_) => Exit(1)
    case ObjectReply(fields) =>
      if "error" in fields && Truthy(fields["error"]) then Exit(1)
      else if "job_id" in fields then Ok(fields["job_id"])
      else Exit(1)
  }

  /** What one status reply tells the waiting loop. */
  datatype Poll = KeepWaiting | Finished(job: Row) | Failed

  /** One pass of wait_carto_batchjob(): "running" and "pending" poll
      again, "done" returns the whole reply, "failed" and every other
      status end the script, as does a reply without a status. */
  function PollStep(reply: Reply): (r: Poll)
    ensures r.KeepWaiting? <==>
      && reply.ObjectReply? && "status" in reply.fields
      && (reply.fields["status"] == VText("running") || reply.fields["status"] == VText("pending"))
    ensures r.Finished? <==> reply.ObjectReply? && "status" in reply.fields && reply.fields["status"] == VText("done")
    ensures r.Finished? ==> r.job == reply.fields
  {
    match reply
    case ListReply(_) => Failed
    case ObjectReply(fields) =>
      if "status" !in fields then Failed
      else if fields["status"] == VText("running") || fields["status"] == VText("pending") then KeepWaiting
      else if fields["status"] == VText("done") then Finished(fields)
      else Failed
  }

  /** The waiting loop over the replies it gets, in order: Ok(Some(job))
      when it returns, Exit(1) when it gives up, Ok(None) when the replies
      run out while the job is still running. */
  function Wait(polls: seq<Reply>): (r: Outcome<Option<Row>>)
    ensures r.Exit? ==> r.status == 1
  {
    if polls == [] then Ok(None)
    else match PollStep(polls[0])
      case KeepWaiting => Wait(polls[1..])
      case Finished(job) => Ok(Some(job))
      case Failed => Exit(1)
  }

  /** The first reply that is not "running" or "pending" decides: "done"
      returns that reply, anything else is status 1; while every reply so
      far is "running" or "pending" the loop is still waiting. */
  lemma {:induction false} WaitSpec(polls: seq<Reply>)
    ensures Wait(polls) == Ok(None) <==> forall i :: 0 <= i < |polls| ==> PollStep(polls[i]).KeepWaiting?
    ensures forall i ::
      (0 <= i < |polls| && !PollStep(polls[i]).KeepWaiting? &&
       (forall j :: 0 <= j < i ==> PollStep(polls[j]).KeepWaiting?))
      ==> Wait(polls) == if PollStep(polls[i]).Finished? then Ok(Some(PollStep(polls[i]).job)) else Exit(1)
  {
    if polls != [] {
      WaitSpec(polls[1..]);
      assert forall i :: 1 <= i < |polls| ==> polls[i] == polls[1..][i - 1];
      if PollStep(polls[0]).KeepWaiting? {
        forall i | 0 <= i < |polls| && !PollStep(polls[i]).KeepWaiting? &&
          (forall j :: 0 <= j < i ==> PollStep(polls[j]).KeepWaiting?)
          ensures Wait(polls) == if PollStep(polls[i]).Finished? then Ok(Some(PollStep(polls[i]).job)) else Exit(1)
        {
          assert i >= 1;
          assert forall j :: 0 <= j < i - 1 ==> PollStep(polls[1..][j]).KeepWaiting? by {
            forall j | 0 <= j < i - 1 ensures PollStep(polls[1..][j]).KeepWaiting? {
              assert polls[1..][j] == polls[j + 1];
            }
          }
        }
      }
    }
  }

  /** wait_carto_batchjob(): poll until the job is no longer running. */
  method WaitBatchJob(polls: seq<Reply>) returns (r: Outcome<Option<Row>>)
    ensures r == Wait(polls)
  {
    var i := 0;
    while i < |polls|
      invariant 0 <= i <= |polls|
      invariant Wait(polls[i..]) == Wait(polls)
    {
      assert polls[i..][1..] == polls[i + 1..];
      var step := PollStep(polls[i]);
      match step {
        case KeepWaiting =>
        case Finished(job) => return Ok(Some(job));
        case Failed => return Exit(1);
      }
      i := i + 1;
    }
    return Ok(None);
  }

  // ---------------------------------------------------------------- run

  /** The final read: status 1 unless the reply has a non-empty 'rows'
      array whose rows all carry name, borough and crashcount. */
  function TopIntersections(reply: Reply): (r: Outcome<seq<Row>>)
    ensures r.Ok? <==>
      && reply.ObjectReply? && "rows" in reply.fields && reply.fields["rows"].VRows? && reply.fields["rows"].rows != []
      && forall i :: 0 <= i < |reply.fields["rows"].rows| ==>
           "name" in reply.fields["rows"].rows[i] && "borough" in reply.fields["rows"].rows[i] &&
           "crashcount" in reply.fields["rows"].rows[i]
    ensures r.Ok? ==> r.value == reply.fields["rows"].rows
    ensures r.Exit? ==> r.status == 1
  {
    if reply.ObjectReply? && "rows" in reply.fields && reply.fields["rows"].VRows? && reply.fields["rows"].rows != [] then
      var rows := reply.fields["rows"].rows;
      if forall i :: 0 <= i < |rows| ==> "name" in rows[i] && "borough" in rows[i] && "crashcount" in rows[i] then Ok(rows)
      else Exit(1)
    else Exit(1)
  }

  /** How run() ends: with the view's rows, with an exit status, or still
      waiting on the batch job when the status replies run out. */
  datatype Ending = Listed(rows: seq<Row>) | Exited(status: int) | StillWaiting

  /** run(): at most one batch job, whose statements are `submitted`,
      then the wait for it, then the final read. `mode` is
      CREATE_OR_REFRESH, which the script ships as "refresh". */
  method Run(mode: string, batch: seq<string> -> Reply, polls: seq<Reply>, top: Reply)
    returns (submitted: seq<seq<string>>, ending: Ending)
    ensures submitted == BatchJobs(mode)
    ensures submitted != [] && StartBatchJob(batch(submitted[0])).Exit? ==> ending == Exited(1)
    ensures submitted != [] && StartBatchJob(batch(submitted[0])).Ok? && Wait(polls).Exit? ==> ending == Exited(1)
    ensures submitted != [] && StartBatchJob(batch(submitted[0])).Ok? && Wait(polls) == Ok(None) ==> ending == StillWaiting
    ensures (submitted == [] || (StartBatchJob(batch(submitted[0])).Ok? && Wait(polls).Ok? && Wait(polls).value.Some?)) ==>
      ending == match TopIntersections(top) case Ok(rows) => Listed(rows) case Exit(s) => Exited(s)
  {
    submitted := BatchJobs(mode);
    if submitted != [] {
      var jobid := StartBatchJob(batch(submitted[0]));
      if jobid.Exit? {
        return submitted, Exited(jobid.status);
      }
      var results := WaitBatchJob(polls);
      if results.Exit? {
        return submitted, Exited(results.status);
      }
      if results.value.None? {
        return submitted, StillWaiting;
      }
    }
    var rows := TopIntersections(top);
    if rows.Exit? {
      return submitted, Exited(rows.status);
    }
    return submitted, Listed(rows.value);
  }
}
