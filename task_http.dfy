/** The HTTP task (task/task_http.go): the one task variant of the queue. Its
    exported fields are the durable snapshot `TaskData`; the object `HttpTask`
    adds the transient fields that only live through one execution attempt. */
module Tasks {
  import opened Common

  /** One year in seconds. An ExpectTime below it is a delay from creation, at or
      above it an absolute Unix timestamp. */
  const OneYear: int := 3600 * 24 * 365

  /** The exported fields of an HTTP task: exactly what a stored snapshot keeps. */
  datatype TaskData = TaskData(
    sid: string,          // producer (server) id
    id: string,           // task id, a UUID assigned by Init
    createTime: int,      // Unix seconds at Init
    nextTime: int,        // next eligible time, moved by IncreaseTimes
    times: int,           // failed attempts counted by IncreaseTimes
    processing: int,      // 1 once the consumer decided to run it at once
    expectTime: int,      // 0: now; under a year: delay; otherwise: timestamp
    appId: string,
    url: string,
    httpMethod: string,
    contentType: string,
    body: string)
  {
    /** GetExpectTime: when the producer wants the task run. */
    function ExpectAt(): (r: int)
      ensures expectTime == 0 ==> r == createTime
      ensures 0 < expectTime < OneYear ==> createTime < r < createTime + OneYear
      ensures expectTime < OneYear ==> r - createTime == expectTime
      ensures expectTime >= OneYear ==> r == expectTime && r >= OneYear
    {
      if expectTime < OneYear then createTime + expectTime else expectTime
    }

    /** Validate: both the app id and the URL must be given; the app id is checked first. */
    function Validate(): (r: Option<Error>)
      ensures r.None? <==> appId != "" && url != ""
      ensures appId == "" ==> r == Some(MissingParameter("app_id"))
      ensures appId != "" && url == "" ==> r == Some(MissingParameter("url"))
    {
      if appId == "" then Some(MissingParameter("app_id"))
      else if url == "" then Some(MissingParameter("url"))
      else None
    }

    /** Whether the consumer chose to run the task at once: exactly the flag value 1. */
    predicate IsProcessing()
      ensures IsProcessing() <==> processing == 1
    {
      processing == 1
    }

    /** The type name, under which the task is registered. */
    function GetType(): (r: string)
      ensures r == "http"
    {
      "http"
    }

    /** The task's own attempt limit (the claim uses the configured one instead). */
    function MaxRetryTimes(): (r: int)
      ensures r == 6
    {
      6
    }

    /** Seconds; also the token lifetime and the wait-queue offer window. */
    function Timeout(): (r: int)
      ensures r == 300
    {
      300
    }
  }

  /** The task `&HttpTask{}` that the registry's constructor builds. */
  const ZeroTask: TaskData := TaskData("", "", 0, 0, 0, 0, 0, "", "", "", "", "")

  /** The durable fields after Init(sid) with the fresh id `id` at time `now`. */
  function Initialised(d: TaskData, sid: string, id: string, now: int): TaskData {
    d.(sid := sid, id := id, createTime := now, nextTime := 0, times := 0)
  }

  /** The durable fields after IncreaseTimes at time `now`: quadratic backoff. */
  function Increased(d: TaskData, now: int): TaskData {
    d.(times := d.times + 1, nextTime := now + (d.times + 1) * (d.times + 1))
  }

  /** The durable fields after one IncreaseTimes per failure time in `nows`, in order. */
  function Failures(d: TaskData, nows: seq<int>): TaskData
    decreases |nows|
  {
    if nows == [] then d else Increased(Failures(d, nows[..|nows| - 1]), nows[|nows| - 1])
  }

  /** After n failures the attempt count has grown by n, the next eligible time is
      the last failure time plus the square of the count, and no other field moved. */
  lemma {:induction false} BackoffAfterFailures(d: TaskData, nows: seq<int>)
    ensures Failures(d, nows).times == d.times + |nows|
    ensures |nows| > 0 ==>
      Failures(d, nows).nextTime == nows[|nows| - 1] + (d.times + |nows|) * (d.times + |nows|)
    ensures Failures(d, nows).(times := d.times, nextTime := d.nextTime) == d
    decreases |nows|
  {
    if nows != [] {
      BackoffAfterFailures(d, nows[..|nows| - 1]);
    }
  }

  /** From a freshly initialised task, n failures leave times == n and
      nextTime == (last failure time) + n * n; with no failure nextTime is still 0. */
  lemma BackoffFromInit(d: TaskData, sid: string, id: string, now: int, nows: seq<int>)
    ensures Failures(Initialised(d, sid, id, now), nows).times == |nows|
    ensures |nows| == 0 ==> Failures(Initialised(d, sid, id, now), nows).nextTime == 0
    ensures |nows| > 0 ==>
      Failures(Initialised(d, sid, id, now), nows).nextTime == nows[|nows| - 1] + |nows| * |nows|
  {
    BackoffAfterFailures(Initialised(d, sid, id, now), nows);
  }

  /** The decoded reply body of the task's HTTP call. */
  datatype HttpResp = HttpResp(code: int, message: string)

  /** What the network call of Run produced: a transport failure, or a reply body
      that did or did not decode into HttpResp; with the elapsed milliseconds. */
  datatype HttpOutcome =
    | TransportFailed(reason: string, elapsedMs: int)
    | Answered(raw: string, reply: Option<HttpResp>, elapsedMs: int)

  /** How Run classifies an outcome: it succeeds only on a decoded reply with code 0. */
  function RunError(o: HttpOutcome): (r: Option<Error>)
    ensures r.None? <==> o.Answered? && o.reply.Some? && o.reply.value.code == 0
    ensures o.TransportFailed? ==> r == Some(Transport(o.reason))
    ensures o.Answered? && o.reply.None? ==> r == Some(BadReply)
    ensures o.Answered? && o.reply.Some? && o.reply.value.code != 0 ==>
      r == Some(ReplyCode(o.reply.value.code, o.reply.value.message))
  {
    match o
    case TransportFailed(reason, _) => Some(Transport(reason))
    case Answered(_, reply, _) =>
      if reply.None? then Some(BadReply)
      else if reply.value.code != 0 then Some(ReplyCode(reply.value.code, reply.value.message))
      else None
  }

  /** A task's exported fields together with the transient results of its last
      attempt: what the process and log tables record after a run. */
  datatype TaskState = TaskState(data: TaskData, lastResult: string, lastError: Option<Error>, lastExecTime: int)

  /** A state with the given attempt count and next eligible time. */
  function WithCounters(s: TaskState, times: int, nextTime: int): TaskState {
    s.(data := s.data.(times := times, nextTime := nextTime))
  }

  /** The state Run leaves behind: the reply body when one came, the error when
      the attempt failed, the elapsed time always; the exported fields never move. */
  function AfterRun(s: TaskState, o: HttpOutcome): (r: TaskState)
    ensures r.data == s.data && r.lastExecTime == o.elapsedMs
    ensures r.lastResult == if o.Answered? then o.raw else s.lastResult
    ensures RunError(o).Some? ==> r.lastError == RunError(o)
    ensures RunError(o).None? ==> r.lastError == s.lastError
  {
    s.(lastResult := if o.Answered? then o.raw else s.lastResult,
       lastError := if RunError(o).Some? then RunError(o) else s.lastError,
       lastExecTime := o.elapsedMs)
  }

  /** A task that starts its attempt with no recorded error ends it with one
      exactly when the attempt failed, and then with that attempt's error. */
  lemma RunRecordsOutcome(s: TaskState, o: HttpOutcome)
    requires s.lastError == None
    ensures AfterRun(s, o).lastError == RunError(o)
  {
  }

  /** An HTTP task object; the consumer updates it in place. */
  class HttpTask {
    var sid: string
    var id: string
    var createTime: int
    var nextTime: int
    var times: int
    var processing: int
    var expectTime: int
    var appId: string
    var url: string
    var httpMethod: string
    var contentType: string
    var body: string
    // transient: not part of a snapshot
    var lastResult: string
    var lastError: Option<Error>
    var lastExecTime: int   // milliseconds

    /** The exported fields, as a snapshot would keep them. */
    function Data(): TaskData
      reads this
    {
      TaskData(sid, id, createTime, nextTime, times, processing,
               expectTime, appId, url, httpMethod, contentType, body)
    }

    function State(): (r: TaskState)
      reads this
      ensures r == WithCounters(Stable(), times, nextTime)
    {
      TaskState(Data(), lastResult, lastError, lastExecTime)
    }

    /** The state without its attempt bookkeeping (count and next time zero):
        everything IncreaseTimes leaves alone. */
    function Stable(): TaskState
      reads this`sid, this`id, this`createTime, this`processing, this`expectTime, this`appId,
            this`url, this`httpMethod, this`contentType, this`body,
            this`lastResult, this`lastError, this`lastExecTime
    {
      TaskState(TaskData(sid, id, createTime, 0, 0, processing,
                         expectTime, appId, url, httpMethod, contentType, body),
                lastResult, lastError, lastExecTime)
    }

    /** A task as decoding a snapshot yields it: the exported fields come from the
        snapshot and the transient ones start empty. */
    constructor FromData(d: TaskData)
      ensures Data() == d
      ensures lastResult == "" && lastError == None && lastExecTime == 0
    {
      sid, id, createTime, nextTime, times, processing := d.sid, d.id, d.createTime, d.nextTime, d.times, d.processing;
      expectTime, appId, url, httpMethod, contentType, body := d.expectTime, d.appId, d.url, d.httpMethod, d.contentType, d.body;
      lastResult, lastError, lastExecTime := "", None, 0;
    }

    /** Init(sid): a fresh id, the producer id, creation time now, and the
        attempt bookkeeping reset; the payload and the processing flag stay. */
    method Init(sid': string, id': string, now: int)
      modifies this`sid, this`id, this`createTime, this`nextTime, this`times
      ensures Data() == Initialised(old(Data()), sid', id', now)
    {
      id := id';
      sid := sid';
      createTime := now;
      nextTime := 0;
      times := 0;
    }

    method SetProcessing()
      modifies this`processing
      ensures Data() == old(Data()).(processing := 1)
      ensures Data().IsProcessing()
    {
      processing := 1;
    }

    /** One more failed attempt; the task is next eligible times-squared seconds after now. */
    method IncreaseTimes(now: int)
      modifies this`times, this`nextTime
      ensures Data() == Increased(old(Data()), now)
    {
      times := times + 1;
      nextTime := now + times * times;
    }

    /** Run, with the network call replaced by its outcome. A failure records its
        error in lastError; a success leaves lastError as it was. */
    method Run(outcome: HttpOutcome) returns (result: Option<HttpResp>, err: Option<Error>)
      modifies this`lastResult, this`lastError, this`lastExecTime
      ensures err == RunError(outcome)
      ensures result.Some? <==> err.None?
      ensures err.None? ==> result == outcome.reply
      ensures State() == AfterRun(old(State()), outcome)
    {
      lastExecTime := outcome.elapsedMs;
      match outcome {
        case TransportFailed(reason, _) =>
          lastError := Some(Transport(reason));
          return None, lastError;
        case Answered(raw, reply, _) =>
          lastResult := raw;
          if reply.None? {
            lastError := Some(BadReply);
            return None, lastError;
          }
          if reply.value.code != 0 {
            lastError := Some(ReplyCode(reply.value.code, reply.value.message));
            return None, lastError;
          }
          return reply, None;
      }
    }
  }
}
