# utask consumer engine, modelled in Dafny

utask is an at-least-once HTTP task queue. A producer initialises a task and
appends it to a Redis list, the primary queue. A consumer (`ChanClient`) pops
tasks from that list and admits each into a MySQL process table (`task_item`)
that it owns. A task whose expected time is less than one polling interval away
is leased at once and offered to an in-memory wait queue. Every other task waits
in the table. A recovery claim (`Abnormal`) periodically leases this consumer's
rows whose lease has run out. An attempt (`Dispose`) does four things:
- issues a single-use token in Redis;
- calls the task's URL;
- logs the attempt to `task_log`;
- deletes the row after a success, or, after a failure, bumps the task's
  attempt count in its stored snapshot and moves the row's lock time out
  quadratically.

The model has these modules:
- `Common`: `Option` and the error values.
- `Tasks`: the HTTP task.
  - `TaskData` is the snapshot of its exported fields.
  - The class `HttpTask` adds the transient results of the last attempt.
- `Tasker`: the type registry.
- `Storer`: the stored form of a snapshot. A blob either decodes to the snapshot or does not decode.
- `Redis`: the primary queue as a `seq` of blobs, and the token table as a `map`.
- `Mysql`: the process and log tables as sequences of rows with an auto-increment id.
  - The claim is one atomic method.
  - Its row selection (`WHERE … ORDER BY create_time LIMIT size`) is specified by `IsOldest` and computed by `Oldest`.
- `Client`: the consumer, with the wait queue as a bounded `seq`.
- `Producer`: `Push`.

All inputs from outside the program are parameters of the methods:
- the clock (`now`, in Unix seconds);
- the fresh UUID and the random token;
- the HTTP outcome of a run;
- every backend failure.

A failed backend call changes nothing.

Rows with equal `create_time` are taken in table order. MySQL itself leaves that
order unspecified.

Four behaviours of the code as written are stated as they are:
- `Get` claims only rows whose `cid` is the caller's (`Mysql.ClaimTouchesOnlyEligible`).
- A task inserted without the processing mark gets `lock_time = NextTime`. `Init` set `NextTime` to 0, so a delayed task can be claimed by the next recovery claim, whatever its expected time (`Mysql.DelayedTaskClaimableAtOnce`).
- `Get` reads its claim back by lock time, not by the ids it updated. The read-back equals the claim only when none of the caller's rows already held the same lock time (`Mysql.ReadBackIsClaim`). Otherwise it can return an earlier claim (`Mysql.ReadBackReturnsEarlierClaim`).
- The attempt limit `Get` enforces is the configured `db.max_retry_times` (the field `MysqlStore.maxRetryTimes`). It is not the task's `MaxRetryTimes()` of 6.

## Model

| member | source | states |
|---|---|---|
| Tasks.TaskData.GetType | task/task_http.go:73-75 | The type name is "http", the name the task is registered under. |
| Tasks.TaskData.IsProcessing | task/task_http.go:81-83 | A task is processing iff its flag is exactly 1. |
| Tasks.TaskData.MaxRetryTimes | task/task_http.go:158-160 | The task's own attempt limit is 6. |
| Tasks.TaskData.Timeout | task/task_http.go:162-164 | The timeout is 300 seconds. |
| Tasks.TaskData.ExpectAt | task/task_http.go:89-94 | An expect time of 0 means the creation time. A value under one year (31536000 s) is a delay after creation. A larger value is an absolute timestamp, returned as is. |
| Tasks.TaskData.Validate | task/task_http.go:63-71 | There is no error iff both the app id and the URL are non-empty. A missing app id is reported first, then a missing URL. |
| Tasks.BackoffAfterFailures | task/task_http.go:149-152 | After n failures, `times` has grown by n. `nextTime` is the last failure time plus the square of the new count. No other field moves. |
| Tasks.BackoffFromInit | task/task_http.go:55-61 | From a freshly initialised task, n failures give `times == n`. With no failure `nextTime` stays 0, otherwise it is the last failure time plus n². |
| Tasks.RunError | task/task_http.go:123-142 | A run succeeds iff a reply came, decoded, and carried code 0. Otherwise the error is the transport failure, the decode failure, or the reply's code and message, in that order. |
| Tasks.AfterRun | task/task_http.go:122-141 | After a run, `lastExecTime` is the elapsed time. `lastResult` is the raw body whenever a reply came. `lastError` is the run's error when it failed and unchanged when it succeeded. The exported fields do not change. |
| Tasks.RunRecordsOutcome | task/task_http.go:123-141 | A task that starts an attempt with no recorded error ends it with exactly that attempt's error, or none. |
| Tasks.HttpTask.FromData | store/storer.go:75-77 | A decoded task carries the snapshot's exported fields, and its transient fields are empty. |
| Tasks.HttpTask.Init | task/task_http.go:55-61 | Sets the producer id, the fresh id, the creation time, `nextTime = 0` and `times = 0`. The payload, the expect time and the processing flag stay. |
| Tasks.HttpTask.SetProcessing | task/task_http.go:77-83 | Afterwards the task is processing. No other field changes. |
| Tasks.HttpTask.IncreaseTimes | task/task_http.go:149-152 | Adds one attempt and sets `nextTime = now + times²`. |
| Tasks.HttpTask.Run | task/task_http.go:108-143 | Returns a reply exactly when it succeeds. Its error is `RunError(outcome)`, and the task's state becomes `AfterRun` of the old state. |
| Tasker.Registry.constructor | task/tasker.go:50-51 | The registry starts empty. |
| Tasker.Registry.Lookup | task/tasker.go:59-65 | Gives a task iff the name is registered with a non-nil constructor, and that task is the constructor's result. It reads the registry without changing it. |
| Tasker.Registry.GetRegister | task/tasker.go:67-70 | Returns the whole table, and every lookup is answered from exactly that table. |
| Tasker.Registry.Reg | task/tasker.go:54-56 | The name now maps to the constructor, replacing any earlier one. Every other name looks up as before. |
| Tasker.RegisterHttp | task/task_http.go:18-22 | "http" looks up to an empty HTTP task. Other names are unaffected. |
| Storer.Encode | store/storer.go:70-73 | Decoding an encoded snapshot gives that snapshot back. |
| Storer.Decode | store/storer.go:75-77 | Decoding succeeds exactly on encoded snapshots. Anything else is an undecodable error. |
| Redis.CheckStep | store/store_redis.go:73-80 | The as-written check, in four cases. A GETSET failure answers false and changes nothing. A present key answers whether it held the token, then is deleted, or holds "" if DEL failed. A missing key answers false and is left holding "". Other keys are untouched. |
| Redis.CheckIsSingleUse | store/store_redis.go:73-80 | Once a check has reached Redis, a second check with the same non-empty token fails. |
| Redis.IssuedTokenAcceptedOnce | store/store_redis.go:63-80 | A freshly generated token is accepted by the first check that reaches Redis. If non-empty, it is then accepted by no check of any later series of checks. |
| Redis.SpentTokenRejected | store/store_redis.go:73-80 | Once the task id's key is gone or holds "", no series of checks with a non-empty token succeeds, and the key stays gone or "". |
| Redis.UnissuedTaskAcceptsEmptyToken | store/store_redis.go:74-77 | For a task id with no token, a first check fails but leaves "" stored, and a second check with the empty token then succeeds. |
| Redis.CheckOnce | store/store_redis.go:73-80 | The corrected check. It accepts only a stored, equal token, deletes a present key, and never creates a key. |
| Redis.CheckOnceRejectsUnissued | store/store_redis.go:73-80 | With the corrected check, a task id that was never issued a token is never accepted and never appears in the table, over any series of checks. |
| Redis.RedisStore.constructor | store/store_redis.go:83-91 | An empty queue and an empty token table. |
| Redis.RedisStore.LPop | store/store_redis.go:28-47 | An empty list gives (nil, nil) and stays empty. A pop failure changes nothing. A decodable head is removed and returned as a fresh task. An undecodable head is moved to the tail (multiset preserved), unless that push fails, and an error is returned. |
| Redis.RedisStore.RPush | store/store_redis.go:49-60 | Succeeds iff the backend does. On success the snapshot is appended at the tail. On failure the list is unchanged. |
| Redis.RedisStore.Generate | store/store_redis.go:63-70 | On success the task id maps to the new token, overwriting any earlier one. On failure the token is "" and the table is unchanged. |
| Redis.RedisStore.Check | store/store_redis.go:73-80 | Never returns an error. The answer and the new table are those of `CheckStep`. |
| Redis.PushThenPop | store/store_redis.go:28-60 | FIFO: a task pushed onto an empty queue is the task popped next, and the queue is empty again. |
| Mysql.Oldest | store/store_mysql.go:55-59 | The row selection `WHERE f ORDER BY create_time LIMIT size`. It takes at most `size` matching rows, oldest first. A matching row is left out only when `size` older ones were taken. |
| Mysql.OldestUnique | store/store_mysql.go:58-59 | That selection is determined: two selections meeting the specification are equal. |
| Mysql.ClaimRows | store/store_mysql.go:55-56 | Claimed rows get lock status 1, the new lock time, one more attempt and the caller's cid. Every other row is unchanged. |
| Mysql.ClaimTouchesOnlyEligible | store/store_mysql.go:57 | A claim changes only rows with the caller's cid, fewer attempts than the limit, and a lock time strictly before now. |
| Mysql.ClaimTouchesAtMostSize | store/store_mysql.go:59 | A claim changes at most `size` rows. |
| Mysql.PoisonRowUntouched | store/store_mysql.go:57 | A row whose attempts reached the limit is never changed by a claim. |
| Mysql.ReadBackIsClaim | store/store_mysql.go:55-73 | If none of the caller's rows already held lock status 1 with the new lock time, the read-back returns exactly the claimed rows, in creation order. |
| Mysql.ReadBackReturnsEarlierClaim | store/store_mysql.go:70-73 | Without that proviso, a claim of one row can read back a different row, claimed earlier in the same second. |
| Mysql.NewRow | store/store_mysql.go:93-112 | An inserted row has 0 attempts, the caller's cid, the task's ids and an encoded snapshot. A processing task gets lock status 1 and lock time now + 2·Timeout. Any other task gets lock status 0 and lock time `NextTime`. |
| Mysql.DelayedTaskClaimableAtOnce | store/store_mysql.go:93-98 | A task inserted without the processing mark right after `Init` is claimable by its consumer's next claim, whatever its expected time. |
| Mysql.UpdateRows | store/store_mysql.go:126-138 | Only rows keyed by (task id, cid) change. They take the task's snapshot, and its next time as their lock time. Every row keeps its id, keys, attempt count, lock status and creation time. |
| Mysql.Without | store/store_mysql.go:144 | Removes exactly the rows keyed by (tid, cid). The table shrinks by their count. |
| Mysql.WithoutKeepsOthers | store/store_mysql.go:144 | Every row with another key survives a delete. |
| Mysql.WithoutKeepsOrder | store/store_mysql.go:144 | A delete keeps the primary keys increasing along the table. |
| Mysql.LogRow | store/store_mysql.go:154-174 | The log row carries the task's ids, snapshot, attempt count, next time, result and error. Its status is 1 iff the task has no last error. |
| Mysql.DecodeRows | store/store_mysql.go:77-84 | Every read-back row becomes a fresh task with that row's snapshot. If any row fails to decode, the call returns an error and no tasks. |
| Mysql.MysqlStore.constructor | store/store_mysql.go:27-40 | Empty tables, with the configured retry limit and lease length. |
| Mysql.MysqlStore.Get | store/store_mysql.go:47-85 | For a limit of at least 0, steps in order: an UPDATE failure changes nothing and errors; otherwise the claim is `ClaimRows` of the oldest eligible rows; an empty claim returns nothing and no error; a read failure returns that error; otherwise the read-back rows are decoded all-or-nothing. The primary-key invariant is kept. |
| Mysql.MysqlStore.Insert | store/store_mysql.go:87-114 | On success appends exactly `NewRow` with the next auto-increment id. On failure nothing changes. |
| Mysql.MysqlStore.Update | store/store_mysql.go:116-140 | On success the table becomes `UpdateRows`, and the answer is true iff exactly one row had the key. On failure it answers false and nothing changes. |
| Mysql.MysqlStore.Delete | store/store_mysql.go:142-146 | On success the table becomes `Without`, and the answer is true iff exactly one row was removed. On failure nothing changes. |
| Mysql.MysqlStore.Log | store/store_mysql.go:148-177 | On success appends exactly one log row, `LogRow` with the next log id. On failure nothing changes. |
| Client.Admitted | client/comsume_chan.go:190-192 | An admitted task is processing iff one interval exceeds its expected time minus now, or it already was. Nothing else changes. |
| Client.ImmediateTaskIsAdmittedProcessing | client/comsume_chan.go:190-192 | A task with expect time 0, admitted no earlier than its creation, is processed at once. |
| Client.AdmittedRowLeased | store/store_mysql.go:95-98 | The row of a task admitted for processing cannot be claimed while its lease of twice the timeout lasts. |
| Client.OfferedTakesPrefix | client/comsume_chan.go:164-178 | Offering items appends exactly the first min(room, count) of them, in order. |
| Client.ChanClient.constructor | client/comsume_chan.go:40-58 | An empty wait queue over the given stores and capacity. |
| Client.ChanClient.Add | client/comsume_chan.go:164-178 | The wait queue never exceeds its capacity. It grows by a prefix of the items, in order. An item is dropped only when the queue is full. |
| Client.ChanClient.Normal | client/comsume_chan.go:181-215 | See the cases below the table. |
| Client.ChanClient.Admit | client/comsume_chan.go:190-214 | The popped task becomes `Admitted`. If the insert fails, that error is returned, the table and the wait queue are unchanged, and the task is pushed back at the tail unless that push fails. Otherwise it returns 1, appends exactly `NewRow` of the task, and appends the task itself to the wait queue iff it is processing and there is room. |
| Client.ChanClient.Abnormal | client/comsume_chan.go:218-225 | Claims with limit 10. On a claim error it returns that error with count 0, and the wait queue is unchanged. Otherwise the count is the number of tasks returned, and they are offered to the wait queue in creation order. The table changes as `Get` states. |
| Client.ChanClient.Reset | client/comsume_chan.go:228-236 | The task's attempt count rises by exactly one and its next time becomes now + times². Then the update is issued with the new state, and its error is returned. |
| Client.ChanClient.Delete | client/comsume_chan.go:265-267 | Deletes this consumer's rows of the task, as `MysqlStore.Delete`. |
| Client.ChanClient.Log | client/comsume_chan.go:270-272 | Logs the task's last attempt under this consumer, as `MysqlStore.Log`. |
| Client.ChanClient.Dispose | client/comsume_chan.go:239-262 | See the cases below the table. |
| Client.Drained | client/comsume_chan.go:156-157 | The process table after a series of resets: each successful update is applied in turn, and a failed one is skipped. Rows keep their ids, keys, attempt counts, lock statuses and creation times. |
| Client.DrainedLastWriter | client/comsume_chan.go:156-157 | A row keyed to a state whose update succeeded, and which no later successful update of the same task id overwrites, ends with that state's snapshot and its next time as lock time. |
| Client.DrainedUntouched | client/comsume_chan.go:156-157 | A row that no successful update is keyed to is left exactly as it was. |
| Client.DrainStates | client/comsume_chan.go:228-236 | The states the drain hands to Update, one per queue position, each carrying that position's task id. |
| Client.DrainStatesAt | client/comsume_chan.go:228-236 | The j-th state is the j-th task with one more attempt for each time that task object was queued up to and including position j, and next time now plus the square of that count. |
| Client.ChanClient.Drain | client/comsume_chan.go:149-160 | Empties the wait queue, resetting each entry in order. Each task object ends with one more attempt per occurrence and `nextTime = now + times²`. The states written are `DrainStates` of the old queue, and the process table becomes `Drained` of them. |
| Client.ChanClient.Stop | client/comsume_chan.go:143-161 | Everything `Drain` states, and the resulting rows. A row keyed to a drained task whose last reset succeeded, with no later successful reset of the same task id, has that task's final next time as lock time and its final snapshot as stored task. A row that no successful reset is keyed to is unchanged. All rows keep their ids, keys, attempt counts and lock statuses. |
| Producer.Push | server/producer.go:17-20 | Always re-initialises the task: new id, producer id, 0 attempts, next time 0. It returns exactly what `RPush` returns. On success the queue gains exactly this task at its tail. |
| Producer.PushedTaskIsPopped | server/producer.go:17-20 | A task pushed onto an empty queue is popped back as exactly the initialised task. |

`Client.ChanClient.Normal` has four cases:
- The pop fails or the queue is empty: it returns (0, pop error) and nothing changes.
- The head is undecodable: it is rotated to the tail and the call errors.
- The insert fails: it returns (0, insert error), the table is unchanged, and the admitted task is pushed back at the tail.
- Otherwise it returns 1, appends one `NewRow` of the admitted task, and offers the task to the wait queue iff it is processing.

`Client.ChanClient.Dispose` has two cases:
- The token cannot be issued: it returns that error and changes nothing else. No run, log, reset or delete happens.
- Otherwise the token is stored and the task runs. Then exactly one log row is appended, unless logging fails. A failed run is reset and its error returned. A successful run is deleted and nil returned.

## Left out

- The `Start` select loop, the suspend signal, the timers and the `async` helper with its concurrency limit. Each modelled operation is one sequential step of that loop.
- `Stop`'s hand-over signal, the goroutine fan-out through `tempProcess`, its ticker and the context deadline. Only the sequential drain of the wait queue is modelled.
- Races between consumers. Each claim, insert, update and delete is one atomic step.
- The Redis and MySQL clients, SQL text, key lifetimes (TTL) and the task's `content` JSON column (`GetContent`).
- Client.ChanClient.Normal: the `Confirm` step is not modelled. The process store here is `MysqlStore`, which does not implement `ConfirmTaskStorer`, so the type assertion fails and the step is skipped; its error would be ignored anyway.
- Client.ChanClient.Add: an offer waits up to `Timeout()` seconds for room. With no concurrent reader of the queue, room never appears during the wait, so an item is appended iff the queue has room when it is offered.
- Tasks.HttpTask.Run: the network call and the JSON decoding of the reply are replaced by their outcome. The choice between POST and GET, and the token header, are not modelled.
- Mysql.MysqlStore.Get: a negative size panics in `make` (store/store_mysql.go:49); the model requires size >= 0.
- Mysql.MysqlStore.Get: the `RowsAffected` error path is not modelled (it is covered by the UPDATE's own failure).
- Mysql.MysqlStore.Update: xorm skips zero-valued fields when updating from a struct, so an empty result, an empty error or a zero lock time is not written. Here every listed column is assigned.
- Mysql.MysqlStore.Delete: the same zero-value rule applies to the condition struct.
- The clock is read once per modelled call: `now` is one value. The source reads it separately in `Normal` (client/comsume_chan.go:190), in `Insert` (store/store_mysql.go:97 and 110-111), in `IncreaseTimes` (task/task_http.go:151) and for the update time of `Update` (store/store_mysql.go:134), so those readings can differ by the time between them.
- Integers are unbounded. The 64-bit columns and the 32-bit `INT(11)` columns cannot overflow here.
- The gob coder (`store/coder`). A snapshot is the task's exported fields. Bytes that are not an encoded snapshot are `Garbled`.
- Logging, Prometheus metrics, configuration loading and option wiring.

## Findings

| source | as written | input that shows it | evidently intended | confidence | as-written member | corrected member |
|---|---|---|---|---|---|---|
| store/store_redis.go:74-77 | `Check` reads with GETSET tid "" and returns on redis.Nil before DEL. For a task id that has no token, the first check therefore stores "" under that id. | A task id with no token: `Check(tid, "x")` returns false and leaves "" stored. Then `Check(tid, "")` returns true. | A task id that was never issued a token is never accepted: an atomic compare-and-delete that creates no key. | medium, not executed | Redis.UnissuedTaskAcceptsEmptyToken (with Redis.CheckStep) | Redis.CheckOnce (with Redis.CheckOnceRejectsUnissued) |
