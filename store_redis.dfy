/** The Redis store (store/store_redis.go): the primary queue, a FIFO list of
    encoded tasks under one key, and the secret store, a map from task id to
    execution token. Key lifetimes (TTL) are not modelled. */
module Redis {
  import opened Common
  import opened Tasks
  import opened Storer

  /** The answer of a token check and the token table after it. */
  datatype CheckResult = CheckResult(ok: bool, tokens: map<string, string>)

  /** Check(tid, token) as written: GETSET tid "" reads the stored value and
      overwrites it with ""; only when a value was there does DEL tid run. On a
      missing key GETSET still stores "" and reports redis.Nil, which Check turns
      into `false` and returns before DEL. Any GETSET failure is also `false`. */
  function CheckStep(tokens: map<string, string>, tid: string, token: string,
                     getSetFails: bool, delFails: bool): (r: CheckResult)
    ensures getSetFails ==> r == CheckResult(false, tokens)
    ensures !getSetFails && tid in tokens ==>
      r.ok == (tokens[tid] == token) && (tid in r.tokens <==> delFails)
    ensures !getSetFails && tid !in tokens ==> !r.ok && r.tokens == tokens[tid := ""]
    ensures tid in r.tokens ==> r.tokens[tid] == "" || r.tokens == tokens
    ensures forall u :: u != tid ==> (u in r.tokens <==> u in tokens)
    ensures forall u :: u != tid && u in tokens ==> r.tokens[u] == tokens[u]
  {
    if getSetFails then CheckResult(false, tokens)
    else if tid in tokens then
      CheckResult(tokens[tid] == token, if delFails then tokens[tid := ""] else tokens - {tid})
    else CheckResult(false, tokens[tid := ""])
  }

  /** A token is single-use: once a check has reached Redis, a second check with
      the same non-empty token fails, whatever the first one answered. */
  lemma CheckIsSingleUse(tokens: map<string, string>, tid: string, token: string,
                         delFails: bool, getSetFails2: bool, delFails2: bool)
    requires token != ""
    ensures !CheckStep(CheckStep(tokens, tid, token, false, delFails).tokens,
                       tid, token, getSetFails2, delFails2).ok
  {
    var first := CheckStep(tokens, tid, token, false, delFails);
    assert tid in first.tokens ==> first.tokens[tid] == "";
  }

  /** A series of checks as written for `tid`, all with the same token; each
      attempt says whether its GETSET and its DEL fail. The answer is whether any
      of them succeeds; the table is the one left at the end. */
  function CheckSeries(tokens: map<string, string>, tid: string, token: string,
                       attempts: seq<(bool, bool)>): CheckResult
    decreases |attempts|
  {
    if attempts == [] then CheckResult(false, tokens)
    else
      var first := CheckStep(tokens, tid, token, attempts[0].0, attempts[0].1);
      var rest := CheckSeries(first.tokens, tid, token, attempts[1..]);
      CheckResult(first.ok || rest.ok, rest.tokens)
  }

  /** Once the key of `tid` is gone or holds "", no series of checks with a
      non-empty token succeeds, and the key stays gone or "". */
  lemma {:induction false} SpentTokenRejected(tokens: map<string, string>, tid: string, token: string,
                                              attempts: seq<(bool, bool)>)
    requires token != ""
    requires tid in tokens ==> tokens[tid] == ""
    ensures !CheckSeries(tokens, tid, token, attempts).ok
    ensures tid in CheckSeries(tokens, tid, token, attempts).tokens ==>
      CheckSeries(tokens, tid, token, attempts).tokens[tid] == ""
    decreases |attempts|
  {
    if attempts != [] {
      var first := CheckStep(tokens, tid, token, attempts[0].0, attempts[0].1);
      SpentTokenRejected(first.tokens, tid, token, attempts[1..]);
    }
  }

  /** Generate then Check: the token just issued is accepted by the first check
      that reaches Redis, and a non-empty one by no later check, however many
      follow (until a new token is generated). */
  lemma IssuedTokenAcceptedOnce(tokens: map<string, string>, tid: string, token: string,
                                delFails: bool, later: seq<(bool, bool)>)
    ensures CheckStep(tokens[tid := token], tid, token, false, delFails).ok
    ensures token != "" ==>
      !CheckSeries(CheckStep(tokens[tid := token], tid, token, false, delFails).tokens,
                   tid, token, later).ok
  {
    if token != "" {
      SpentTokenRejected(CheckStep(tokens[tid := token], tid, token, false, delFails).tokens,
                         tid, token, later);
    }
  }

  /** The discrepancy: for a task id that holds no token, a first check (with any
      token) fails but leaves "" stored, so a second check with the empty token
      succeeds. */
  lemma UnissuedTaskAcceptsEmptyToken(tokens: map<string, string>, tid: string, token: string)
    requires tid !in tokens
    ensures !CheckStep(tokens, tid, token, false, false).ok
    ensures CheckStep(CheckStep(tokens, tid, token, false, false).tokens, tid, "", false, false).ok
  {
  }

  /** The check as intended: one atomic compare-and-delete that never writes a key. */
  function CheckOnce(tokens: map<string, string>, tid: string, token: string, fails: bool): (r: CheckResult)
    ensures r.ok ==> tid in tokens && tokens[tid] == token
    ensures !fails && tid in tokens ==> r.ok == (tokens[tid] == token) && r.tokens == tokens - {tid}
    ensures fails || tid !in tokens ==> !r.ok && r.tokens == tokens
  {
    if fails || tid !in tokens then CheckResult(false, tokens)
    else CheckResult(tokens[tid] == token, tokens - {tid})
  }

  /** Whether any of a series of intended checks for `tid`, each a token and
      whether the backend failed, succeeds; with the table at the end. */
  function CheckOnceSeries(tokens: map<string, string>, tid: string, attempts: seq<(string, bool)>): CheckResult
    decreases |attempts|
  {
    if attempts == [] then CheckResult(false, tokens)
    else
      var first := CheckOnce(tokens, tid, attempts[0].0, attempts[0].1);
      var rest := CheckOnceSeries(first.tokens, tid, attempts[1..]);
      CheckResult(first.ok || rest.ok, rest.tokens)
  }

  /** With the intended check, a task id for which no token was issued is never
      accepted, however many checks come, whatever token they carry. */
  lemma {:induction false} CheckOnceRejectsUnissued(tokens: map<string, string>, tid: string,
                                                    attempts: seq<(string, bool)>)
    requires tid !in tokens
    ensures !CheckOnceSeries(tokens, tid, attempts).ok
    ensures tid !in CheckOnceSeries(tokens, tid, attempts).tokens
    decreases |attempts|
  {
    if attempts != [] {
      CheckOnceRejectsUnissued(tokens, tid, attempts[1..]);
    }
  }

  class RedisStore {
    var list: seq<Blob>                 // the list under key "UTask", head first
    var tokens: map<string, string>     // task id -> token

    constructor ()
      ensures list == [] && tokens == map[]
    {
      list := [];
      tokens := map[];
    }

    /** LPop: the head task, decoded into a fresh object. An empty list is (nil,
        nil). A head that does not decode is pushed back at the tail (unless that
        push fails too) and reported as an error. */
    method LPop(popFault: Option<Error>, pushBackFault: Option<Error>) returns (t: HttpTask?, err: Option<Error>)
      modifies this`list
      ensures popFault.Some? ==> t == null && err == popFault && list == old(list)
      ensures popFault.None? && old(list) == [] ==> t == null && err == None && list == []
      ensures popFault.None? && old(list) != [] && old(list)[0].Garbled? ==>
        t == null && err == Some(Undecodable) &&
        list == old(list)[1..] + (if pushBackFault.None? then [old(list)[0]] else [])
      ensures popFault.None? && old(list) != [] && old(list)[0].Garbled? && pushBackFault.None? ==>
        multiset(list) == multiset(old(list))
      ensures popFault.None? && old(list) != [] && old(list)[0].Encoded? ==>
        t != null && fresh(t) && err == None && list == old(list)[1..] &&
        t.Data() == old(list)[0].task &&
        t.lastResult == "" && t.lastError == None && t.lastExecTime == 0
    {
      if popFault.Some? {
        return null, popFault;
      }
      if list == [] {
        return null, None;
      }
      var raw := list[0];
      list := list[1..];
      var decoded := Decode(raw);
      if decoded.Failed? {
        if pushBackFault.None? {
          assert old(list) == [raw] + list;
          list := list + [raw];
        }
        return null, Some(decoded.error);
      }
      t := new HttpTask.FromData(decoded.task);
      err := None;
    }

    /** RPush: appends the task's snapshot at the tail; a failed encode or push
        leaves the list as it was. */
    method RPush(task: HttpTask, fault: Option<Error>) returns (ok: bool, err: Option<Error>)
      modifies this`list
      ensures ok <==> fault.None?
      ensures ok ==> err == None && list == old(list) + [Encode(task.Data())]
      ensures !ok ==> err == fault && list == old(list)
    {
      if fault.Some? {
        return false, fault;
      }
      list := list + [Encode(task.Data())];
      return true, None;
    }

    /** Generate: stores the random token under the task id, replacing any
        earlier one. */
    method Generate(tid: string, random: string, fault: Option<Error>) returns (token: string, err: Option<Error>)
      modifies this`tokens
      ensures fault.None? ==> token == random && err == None && tokens == old(tokens)[tid := random]
      ensures fault.Some? ==> token == "" && err == fault && tokens == old(tokens)
    {
      if fault.Some? {
        return "", fault;
      }
      tokens := tokens[tid := random];
      return random, None;
    }

    /** Check: read-and-clear of the task's token; never reports an error. */
    method Check(tid: string, token: string, getSetFails: bool, delFails: bool) returns (ok: bool, err: Option<Error>)
      modifies this`tokens
      ensures err == None
      ensures CheckResult(ok, tokens) == CheckStep(old(tokens), tid, token, getSetFails, delFails)
    {
      var r := CheckStep(tokens, tid, token, getSetFails, delFails);
      ok, tokens := r.ok, r.tokens;
      err := None;
    }
  }

  /** FIFO round trip: a task pushed onto an empty queue is the task popped next. */
  method PushThenPop(s: RedisStore, task: HttpTask) returns (popped: HttpTask?)
    requires s.list == []
    modifies s`list
    ensures popped != null && popped.Data() == task.Data() && s.list == []
  {
    var ok, _ := s.RPush(task, None);
    var err;
    popped, err := s.LPop(None, None);
  }
}
