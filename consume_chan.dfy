/** The channel-based consumer (client/comsume_chan.go) with its goroutines and
    timers taken away: each operation is one sequential step. The wait queue is a
    bounded sequence, the four stores are objects the client holds (the task and
    secret stores may be one Redis object, the process and log stores one MySQL
    object), and every backend failure, the clock and the HTTP outcome come in as
    parameters. */
module Client {
  import opened Common
  import opened Tasks
  import opened Storer
  import opened Redis
  import opened Mysql

  /** The polling interval, one second, as whole seconds. */
  const Interval: int := 1

  /** How many rows one recovery claim asks for. */
  const FetchProcessStoreSize: nat := 10

  /** The task as Normal admits it: marked processing when its expected time is
      less than one interval away (or already past). */
  function Admitted(d: TaskData, now: int): (r: TaskData)
    ensures r.IsProcessing() <==> Interval > d.ExpectAt() - now || d.IsProcessing()
    ensures r.(processing := d.processing) == d
  {
    if Interval > d.ExpectAt() - now then d.(processing := 1) else d
  }

  /** A task submitted for immediate execution is run at once by whichever
      consumer admits it no earlier than its creation. */
  lemma ImmediateTaskIsAdmittedProcessing(d: TaskData, now: int)
    requires d.expectTime == 0 && d.createTime <= now
    ensures Admitted(d, now).IsProcessing()
  {
  }

  /** A task admitted for immediate execution is leased for twice its timeout:
      no recovery claim can take its row before that lease runs out. */
  lemma AdmittedRowLeased(id: nat, d: TaskData, cid: string, now: int, maxRetryTimes: int, later: int)
    requires Admitted(d, now).IsProcessing()
    requires later <= now + 2 * d.Timeout()
    ensures !Matches(Claimable(cid, maxRetryTimes, later), NewRow(id, Admitted(d, now), cid, now))
  {
    assert Admitted(d, now).Timeout() == d.Timeout();
  }

  /** `after` is what offering `items` one by one to the queue `before` of
      capacity `cap` leaves: the queue only grows, by a prefix of the items in
      their order, never past `cap`, and an item is dropped only when the queue
      is full. */
  ghost predicate Offered<T>(before: seq<T>, items: seq<T>, after: seq<T>, cap: nat) {
    && |before| <= |after| <= cap
    && |after| - |before| <= |items|
    && after[..|before|] == before
    && after[|before|..] == items[..|after| - |before|]
    && (|after| < cap ==> |after| == |before| + |items|)
  }

  /** Offering items to a queue that has room for n more appends exactly the
      first min(n, |items|) of them. */
  lemma OfferedTakesPrefix<T>(before: seq<T>, items: seq<T>, after: seq<T>, cap: nat)
    requires Offered(before, items, after, cap)
    ensures |before| < cap ==> |after| == |before| + Min(|items|, cap - |before|)
    ensures after == before + items[..|after| - |before|]
  {
    assert after == after[..|before|] + after[|before|..];
  }

  function Min(a: int, b: int): int {
    if a < b then a else b
  }

  /** A task's state once resets at `now` have brought its attempt count to n:
      quadratic backoff from `now`, every other field as it was. */
  function ResetTo(s: TaskState, n: int, now: int): TaskState {
    WithCounters(s, n, now + n * n)
  }

  /** How many times `x` occurs among the first `n` elements of `s`. */
  function Count<T(==)>(s: seq<T>, n: nat, x: T): (r: nat)
    requires n <= |s|
    ensures r <= n
  {
    if n == 0 then 0 else Count(s, n - 1, x) + (if s[n - 1] == x then 1 else 0)
  }

  /** An element that occurs among the first `n` is counted. */
  lemma {:induction false} CountPositive<T>(s: seq<T>, i: nat, n: nat, x: T)
    requires i < n <= |s| && s[i] == x
    ensures Count(s, n, x) > 0
    decreases n
  {
    if i + 1 < n {
      CountPositive(s, i, n - 1, x);
    }
  }

  /** Past the last occurrence of `x`, the count of `x` no longer grows. */
  lemma {:induction false} CountAfterLast<T>(s: seq<T>, j: nat, n: nat, x: T)
    requires j < n <= |s|
    requires forall i :: j < i < n ==> s[i] != x
    ensures Count(s, j + 1, x) == Count(s, n, x)
    decreases n
  {
    if j + 1 < n {
      CountAfterLast(s, j, n - 1, x);
    }
  }

  /** The outcome of the k-th update of a drain; updates past the given
      outcomes succeed. */
  function FaultAt(faults: seq<Option<Error>>, k: int): Option<Error> {
    if 0 <= k < |faults| then faults[k] else None
  }

  /** The process table after a drain's resets, in order: the k-th writes the
      task state `states[k]` through Update, unless that update failed. */
  function Drained(rows: seq<TaskItem>, states: seq<TaskState>, faults: seq<Option<Error>>,
                   cid: string, now: int): (r: seq<TaskItem>)
    ensures SameRows(rows, r)
    decreases |states|
  {
    if states == [] then rows
    else
      var before := Drained(rows, states[..|states| - 1], faults, cid, now);
      SameRowsTrans(rows, before, UpdateRows(before, states[|states| - 1], cid, now));
      if FaultAt(faults, |states| - 1).None? then UpdateRows(before, states[|states| - 1], cid, now)
      else before
  }

  /** The task states a drain of `p[..n]` writes, in order: the j-th reset leaves
      the stable part of `p[j]` and one more attempt for each time `p[j]` was
      queued up to and including position j. */
  ghost function DrainStates(p: seq<HttpTask>, n: nat, now: int): (r: seq<TaskState>)
    requires n <= |p|
    reads p
    ensures |r| == n
    ensures forall j {:trigger r[j]} :: 0 <= j < n ==> r[j].data.id == p[j].id
  {
    if n == 0 then []
    else DrainStates(p, n - 1, now) + [ResetTo(p[n - 1].Stable(), p[n - 1].times + Count(p, n, p[n - 1]), now)]
  }

  /** A row keyed by a task that the drain wrote, and that no later successful
      update of the same task id overwrote, holds that state's snapshot and its
      next time as lock time. */
  lemma {:induction false} DrainedLastWriter(rows: seq<TaskItem>, states: seq<TaskState>,
                                             faults: seq<Option<Error>>, cid: string, now: int,
                                             i: nat, k: nat)
    requires i < |rows| && k < |states|
    requires Keyed(rows[i], states[k].data.id, cid) && FaultAt(faults, k).None?
    requires forall j :: k < j < |states| && FaultAt(faults, j).None? ==>
      states[j].data.id != states[k].data.id
    ensures Drained(rows, states, faults, cid, now)[i].lockTime == states[k].data.nextTime
    ensures Decode(Drained(rows, states, faults, cid, now)[i].task) == Ok(states[k].data)
    decreases |states|
  {
    var n := |states| - 1;
    var before := Drained(rows, states[..n], faults, cid, now);
    if k < n {
      DrainedLastWriter(rows, states[..n], faults, cid, now, i, k);
      if FaultAt(faults, n).None? {
        assert !Keyed(before[i], states[n].data.id, cid);
      }
    }
  }

  /** A row that no successful update of the drain is keyed to stays as it was. */
  lemma {:induction false} DrainedUntouched(rows: seq<TaskItem>, states: seq<TaskState>,
                                            faults: seq<Option<Error>>, cid: string, now: int, i: nat)
    requires i < |rows|
    requires forall k :: 0 <= k < |states| && FaultAt(faults, k).None? ==>
      !Keyed(rows[i], states[k].data.id, cid)
    ensures Drained(rows, states, faults, cid, now)[i] == rows[i]
    decreases |states|
  {
    if states != [] {
      DrainedUntouched(rows, states[..|states| - 1], faults, cid, now, i);
    }
  }

  /** `s[k]` does not occur again after position k. */
  /** The j-th state a drain writes: `p[j]` with one more attempt for each time it
      was queued up to and including position j. */
  lemma {:induction false} DrainStatesAt(p: seq<HttpTask>, n: nat, j: nat, now: int)
    requires j < n <= |p|
    ensures DrainStates(p, n, now)[j] == ResetTo(p[j].Stable(), p[j].times + Count(p, j + 1, p[j]), now)
    decreases n
  {
    if j < n - 1 {
      DrainStatesAt(p, n - 1, j, now);
    }
  }

  ghost predicate LastOccurrence<T>(s: seq<T>, k: int)
    requires 0 <= k < |s|
  {
    forall j :: k < j < |s| ==> s[j] != s[k]
  }

  /** The k-th drained task is the last one with its task id whose update
      succeeds, and the object is not drained again later. */
  ghost predicate LastDrained(pending: seq<HttpTask>, faults: seq<Option<Error>>, k: int)
    requires 0 <= k < |pending|
    reads pending
  {
    FaultAt(faults, k).None? && LastOccurrence(pending, k) &&
    (forall j :: k < j < |pending| && FaultAt(faults, j).None? ==> pending[j].id != pending[k].id)
  }

  class ChanClient {
    const id: string                 // the consumer id, owner of its process rows
    const taskStore: RedisStore      // primary queue
    const secretStore: RedisStore    // execution tokens
    const processStore: MysqlStore   // lease table
    const logStore: MysqlStore       // attempt log
    const maxWaits: nat              // capacity of the wait queue
    var waits: seq<HttpTask>         // the wait queue, oldest first

    ghost predicate Valid()
      reads this, processStore
    {
      |waits| <= maxWaits && processStore.Valid()
    }

    /** NewChanClient: an empty wait queue over the given stores. */
    constructor (id: string, taskStore: RedisStore, secretStore: RedisStore,
                 processStore: MysqlStore, logStore: MysqlStore, maxWaits: nat)
      requires processStore.Valid()
      ensures Valid() && waits == []
      ensures this.id == id && this.maxWaits == maxWaits
      ensures this.taskStore == taskStore && this.secretStore == secretStore
      ensures this.processStore == processStore && this.logStore == logStore
    {
      this.id := id;
      this.taskStore := taskStore;
      this.secretStore := secretStore;
      this.processStore := processStore;
      this.logStore := logStore;
      this.maxWaits := maxWaits;
      waits := [];
    }

    /** Add: each item in turn enters the wait queue if there is room; otherwise
        its offer times out and the item is dropped (its row stays in the process
        table, where a later recovery claim finds it). */
    method Add(items: seq<HttpTask>)
      requires Valid()
      modifies this`waits
      ensures Valid()
      ensures Offered(old(waits), items, waits, maxWaits)
    {
      var i := 0;
      while i < |items|
        invariant 0 <= i <= |items|
        invariant Offered(old(waits), items[..i], waits, maxWaits)
      {
        if |waits| < maxWaits {
          waits := waits + [items[i]];
        }
        assert items[..i + 1] == items[..i] + [items[i]];
        i := i + 1;
      }
      assert items[..|items|] == items;
    }

    /** Normal: admission of one task from the primary queue. The task is popped,
        marked processing when due, and inserted into the process table under this
        consumer; a failed insert pushes it back onto the queue's tail. A task
        marked processing is also offered to the wait queue. Returns 1 when a task
        was admitted. */
    method Normal(now: int, popFault: Option<Error>, pushBackFault: Option<Error>,
                  insertFault: Option<Error>, pushFault: Option<Error>)
      returns (count: int, err: Option<Error>)
      requires Valid()
      modifies taskStore`list, processStore`items, processStore`nextId, this`waits
      ensures Valid()
      ensures count == 1 <==> (err.None? && popFault.None? && old(taskStore.list) != [] &&
                               old(taskStore.list)[0].Encoded? && insertFault.None?)
      ensures count == 0 || count == 1
      // nothing to pop, or the pop failed
      ensures popFault.Some? || old(taskStore.list) == [] ==>
        err == popFault && taskStore.list == old(taskStore.list) &&
        processStore.items == old(processStore.items) && waits == old(waits)
      // an undecodable head is rotated to the tail (unless that push fails)
      ensures popFault.None? && old(taskStore.list) != [] && old(taskStore.list)[0].Garbled? ==>
        err == Some(Undecodable) &&
        taskStore.list == old(taskStore.list)[1..] +
                          (if pushBackFault.None? then [old(taskStore.list)[0]] else []) &&
        processStore.items == old(processStore.items) && waits == old(waits)
      // the insert failed: the admitted task goes back to the tail (unless that push fails)
      ensures popFault.None? && old(taskStore.list) != [] && old(taskStore.list)[0].Encoded? &&
              insertFault.Some? ==>
        err == insertFault &&
        taskStore.list == old(taskStore.list)[1..] +
          (if pushFault.None? then [Encode(Admitted(old(taskStore.list)[0].task, now))] else []) &&
        processStore.items == old(processStore.items) && waits == old(waits)
      // admitted: one new row, and the task is offered to the wait queue iff processing
      ensures popFault.None? && old(taskStore.list) != [] && old(taskStore.list)[0].Encoded? &&
              insertFault.None? ==>
        var a := Admitted(old(taskStore.list)[0].task, now);
        taskStore.list == old(taskStore.list)[1..] &&
        processStore.items == old(processStore.items) + [NewRow(old(processStore.nextId), a, id, now)] &&
        (!a.IsProcessing() || |old(waits)| == maxWaits ==> waits == old(waits)) &&
        (a.IsProcessing() && |old(waits)| < maxWaits ==>
          |waits| == |old(waits)| + 1 && waits[..|old(waits)|] == old(waits) &&
          fresh(waits[|old(waits)|]) && waits[|old(waits)|].Data() == a)
    {
      var item, popErr := taskStore.LPop(popFault, pushBackFault);
      if popErr.Some? {
        return 0, popErr;
      }
      if item == null {
        return 0, None;
      }
      count, err := Admit(item, now, insertFault, pushFault);
    }

    /** The part of Normal after a task was popped: mark it processing when due,
        insert it, push it back when the insert fails, and offer it to the wait
        queue when it is processing. */
    method Admit(item: HttpTask, now: int, insertFault: Option<Error>, pushFault: Option<Error>)
      returns (count: int, err: Option<Error>)
      requires Valid()
      modifies item`processing, taskStore`list, processStore`items, processStore`nextId, this`waits
      ensures Valid()
      ensures item.Data() == Admitted(old(item.Data()), now)
      ensures insertFault.Some? ==>
        count == 0 && err == insertFault &&
        taskStore.list == old(taskStore.list) + (if pushFault.None? then [Encode(item.Data())] else []) &&
        processStore.items == old(processStore.items) && waits == old(waits)
      ensures insertFault.None? ==>
        count == 1 && err == None && taskStore.list == old(taskStore.list) &&
        processStore.items == old(processStore.items) + [NewRow(old(processStore.nextId), item.Data(), id, now)] &&
        waits == old(waits) + (if item.Data().IsProcessing() && |old(waits)| < maxWaits then [item] else [])
    {
      if Interval > item.Data().ExpectAt() - now {
        item.SetProcessing();
      }
      var insertErr := processStore.Insert(id, item, now, insertFault);
      if insertErr.Some? {
        var ok, pushErr := taskStore.RPush(item, pushFault);
        return 0, insertErr;
      }
      if item.processing == 1 {
        Add([item]);
        OfferedTakesPrefix(old(waits), [item], waits, maxWaits);
      }
      return 1, None;
    }

    /** Abnormal: the recovery claim. Up to ten of this consumer's rows whose lease
        ran out are claimed and offered to the wait queue in creation order; the
        count is the number of tasks the claim returned. */
    method Abnormal(now: int, execFault: Option<Error>, readFault: Option<Error>)
      returns (count: int, err: Option<Error>, ghost fetched: seq<HttpTask>,
               ghost claimed: seq<nat>, ghost back: seq<nat>)
      requires Valid()
      modifies processStore`items, this`waits
      ensures Valid()
      ensures err.Some? ==> count == 0 && waits == old(waits)
      ensures err.None? ==> count == |fetched| && Offered(old(waits), fetched, waits, maxWaits)
      ensures GetResult(old(processStore.items), processStore.items, id, processStore.maxRetryTimes,
                        processStore.maxLockTime, FetchProcessStoreSize, now, execFault, readFault,
                        fetched, err, claimed, back)
      ensures forall k :: 0 <= k < |fetched| ==> fresh(fetched[k])
    {
      var items, getErr;
      items, getErr, claimed, back := processStore.Get(id, FetchProcessStoreSize, now, execFault, readFault);
      fetched := items;
      if getErr.Some? {
        return 0, getErr, fetched, claimed, back;
      }
      Add(items);
      return |items|, None, fetched, claimed, back;
    }

    /** Reset: one more failed attempt; the task's row takes its new next time. */
    method Reset(item: HttpTask, now: int, fault: Option<Error>) returns (err: Option<Error>)
      requires Valid()
      modifies item`times, item`nextTime, processStore`items
      ensures Valid()
      ensures err == fault
      ensures item.Data() == Increased(old(item.Data()), now)
      ensures item.times == old(item.times) + 1
      ensures item.Stable() == old(item.Stable())
      ensures item.nextTime == now + item.times * item.times
      ensures fault.None? ==> processStore.items == UpdateRows(old(processStore.items), item.State(), id, now)
      ensures fault.Some? ==> processStore.items == old(processStore.items)
      ensures SameRows(old(processStore.items), processStore.items)
    {
      item.IncreaseTimes(now);
      var ok;
      ok, err := processStore.Update(id, item, now, fault);
    }

    /** Delete: removes this consumer's rows of the task. */
    method Delete(item: HttpTask, fault: Option<Error>) returns (ok: bool, err: Option<Error>)
      requires Valid()
      modifies processStore`items
      ensures Valid()
      ensures fault.Some? ==> !ok && err == fault && processStore.items == old(processStore.items)
      ensures fault.None? ==>
        err == None && processStore.items == Without(old(processStore.items), item.id, id) &&
        (ok <==> CountKeyed(old(processStore.items), item.id, id) == 1)
    {
      ok, err := processStore.Delete(id, item.id, fault);
    }

    /** Log: one log row for the task's last attempt. */
    method Log(item: HttpTask, now: int, fault: Option<Error>) returns (err: Option<Error>)
      modifies logStore`logs
      ensures err == fault
      ensures fault.Some? ==> logStore.logs == old(logStore.logs)
      ensures fault.None? ==>
        logStore.logs == old(logStore.logs) + [LogRow(|old(logStore.logs)| + 1, item.State(), id, now)]
    {
      err := logStore.Log(id, item, now, fault);
    }

    /** Dispose: one execution attempt. A token is issued first; if that fails
        nothing else happens. Otherwise the task runs, the attempt is logged, and
        then a failed run is reset (and its error returned) while a successful one
        is deleted from the process table (and nil returned, whatever Delete says). */
    method Dispose(item: HttpTask, now: int, random: string, genFault: Option<Error>,
                   outcome: HttpOutcome, logFault: Option<Error>,
                   updateFault: Option<Error>, deleteFault: Option<Error>)
      returns (err: Option<Error>)
      requires Valid()
      modifies secretStore`tokens, logStore`logs, processStore`items
      modifies item`lastResult, item`lastError, item`lastExecTime, item`times, item`nextTime
      ensures Valid()
      ensures genFault.Some? ==>
        err == genFault && secretStore.tokens == old(secretStore.tokens) &&
        logStore.logs == old(logStore.logs) && processStore.items == old(processStore.items) &&
        item.State() == old(item.State())
      ensures genFault.None? ==>
        var ran := AfterRun(old(item.State()), outcome);
        secretStore.tokens == old(secretStore.tokens)[old(item.id) := random] &&
        logStore.logs == old(logStore.logs) +
          (if logFault.None? then [LogRow(|old(logStore.logs)| + 1, ran, id, now)] else []) &&
        err == RunError(outcome) &&
        (err.Some? ==>
          item.State() == ran.(data := Increased(ran.data, now)) &&
          processStore.items == if updateFault.None?
                                then UpdateRows(old(processStore.items), item.State(), id, now)
                                else old(processStore.items)) &&
        (err.None? ==>
          item.State() == ran &&
          processStore.items == if deleteFault.None?
                                then Without(old(processStore.items), old(item.id), id)
                                else old(processStore.items))
    {
      var token, genErr := secretStore.Generate(item.id, random, genFault);
      if genErr.Some? {
        return genErr;
      }
      var result, runErr := item.Run(outcome);
      var logErr := Log(item, now, logFault);
      if runErr.Some? {
        var resetErr := Reset(item, now, updateFault);
        return runErr;
      }
      var ok, delErr := Delete(item, deleteFault);
      return None;
    }

    /** The drain loop of Stop: every task still waiting is taken off the queue
        in order and reset. `faults[k]` is the outcome of the k-th update and
        `written[k]` the state the k-th reset hands to Update. */
    /** One round of the drain: the head of the queue is taken off and reset. */
    method DrainNext(item: HttpTask, now: int, faults: seq<Option<Error>>, k: nat,
                     ghost rows0: seq<TaskItem>, ghost written: seq<TaskState>)
      returns (ghost w: TaskState)
      requires Valid() && waits != [] && waits[0] == item && |written| == k
      requires processStore.items == Drained(rows0, written, faults, id, now)
      modifies this`waits, item`times, item`nextTime, processStore`items
      ensures Valid()
      ensures waits == old(waits[1..])
      ensures item.times == old(item.times) + 1 && item.nextTime == now + item.times * item.times
      ensures w == ResetTo(old(item.Stable()), item.times, now)
      ensures processStore.items == Drained(rows0, written + [w], faults, id, now)
    {
      waits := waits[1..];
      var fault := if k < |faults| then faults[k] else None;
      var resetErr := Reset(item, now, fault);
      w := item.State();
      assert (written + [w])[..k] == written;
    }

    method Drain(now: int, faults: seq<Option<Error>>) returns (ghost written: seq<TaskState>)
      requires Valid()
      modifies this`waits, waits`times, waits`nextTime, processStore`items
      ensures Valid()
      ensures waits == []
      ensures forall o {:trigger o in old(waits)} :: o in old(waits) ==>
        o.times == old(o.times) + Count(old(waits), |old(waits)|, o) && o.nextTime == now + o.times * o.times
      ensures written == old(DrainStates(waits, |waits|, now))
      ensures processStore.items == Drained(old(processStore.items), written, faults, id, now)
    {
      ghost var pending := waits;
      ghost var rows0 := processStore.items;
      written := [];
      var k := 0;
      while waits != []
        invariant 0 <= k <= |pending| && waits == pending[k..]
        invariant Valid()
        invariant forall o {:trigger o in pending} :: o in pending ==>
          o.times == old(o.times) + Count(pending, k, o) &&
          (Count(pending, k, o) > 0 ==> o.nextTime == now + o.times * o.times)
        invariant |written| == k
        invariant written == old(DrainStates(pending, k, now))
        invariant processStore.items == Drained(rows0, written, faults, id, now)
        decreases |waits|
      {
        var item := waits[0];
        assert item in pending;
        assert item.Stable() == old(item.Stable());
        ghost var w := DrainNext(item, now, faults, k, rows0, written);
        assert item.times == old(item.times) + Count(pending, k + 1, item);
        written := written + [w];
        k := k + 1;
      }
      forall o | o in pending
        ensures Count(pending, |pending|, o) > 0
      {
        var i :| 0 <= i < |pending| && pending[i] == o;
        CountPositive(pending, i, |pending|, o);
      }
    }

    /** Stop, with its goroutines and ticker taken away: the drain. Every task
        still waiting is reset in order, so that its row comes back through a
        recovery claim; reset errors are ignored. Each drained task has one more
        attempt per time it was queued; its row, unless a later update of the
        same task overwrote it or its own update failed, holds its new snapshot
        with the new next time as lock time; rows no successful update is keyed
        to stay as they were. */
    method Stop(now: int, faults: seq<Option<Error>>) returns (ghost written: seq<TaskState>)
      requires Valid()
      modifies this`waits, waits`times, waits`nextTime, processStore`items
      ensures Valid()
      ensures waits == []
      ensures forall o {:trigger o in old(waits)} :: o in old(waits) ==>
        o.times == old(o.times) + Count(old(waits), |old(waits)|, o) && o.nextTime == now + o.times * o.times
      // the k-th reset writes its task's state with one more attempt than before it
      ensures written == old(DrainStates(waits, |waits|, now))
      // the process table takes those states in order, skipping failed updates
      ensures processStore.items == Drained(old(processStore.items), written, faults, id, now)
      ensures SameRows(old(processStore.items), processStore.items)
      ensures forall i, k :: 0 <= i < |processStore.items| && 0 <= k < |old(waits)| &&
                             LastDrained(old(waits), faults, k) &&
                             Keyed(old(processStore.items)[i], old(waits)[k].id, id) ==>
        processStore.items[i].lockTime == old(waits)[k].nextTime &&
        Decode(processStore.items[i].task) == Ok(old(waits)[k].Data())
      ensures forall i :: 0 <= i < |processStore.items| &&
                          (forall k :: 0 <= k < |written| && FaultAt(faults, k).None? ==>
                             !Keyed(old(processStore.items)[i], old(waits)[k].id, id)) ==>
        processStore.items[i] == old(processStore.items)[i]
    {
      ghost var pending := waits;
      ghost var rows0 := processStore.items;
      ghost var states := DrainStates(pending, |pending|, now);
      forall j {:trigger states[j]} | 0 <= j < |pending|
        ensures states[j] == ResetTo(pending[j].Stable(), pending[j].times + Count(pending, j + 1, pending[j]), now)
      {
        DrainStatesAt(pending, |pending|, j, now);
      }
      written := Drain(now, faults);
      forall i, j | 0 <= i < |processStore.items| && 0 <= j < |written| &&
                    LastDrained(pending, faults, j) && Keyed(rows0[i], pending[j].id, id)
        ensures processStore.items[i].lockTime == pending[j].nextTime &&
                Decode(processStore.items[i].task) == Ok(pending[j].Data())
      {
        // the task's last reset wrote the state the task object is left in
        CountAfterLast(pending, j, |pending|, pending[j]);
        assert pending[j] in pending;
        ghost var n := pending[j].times;
        assert n == old(pending[j].times) + Count(pending, j + 1, pending[j]);
        assert written[j] == ResetTo(old(pending[j].Stable()), n, now);
        assert pending[j].State() == ResetTo(pending[j].Stable(), n, now);
        assert pending[j].Stable() == old(pending[j].Stable());
        DrainedLastWriter(rows0, written, faults, id, now, i, j);
      }
      forall i | 0 <= i < |processStore.items| &&
                 (forall j :: 0 <= j < |written| && FaultAt(faults, j).None? ==> !Keyed(rows0[i], pending[j].id, id))
        ensures processStore.items[i] == rows0[i]
      {
        DrainedUntouched(rows0, written, faults, id, now, i);
      }
    }
  }
}
