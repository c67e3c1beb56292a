/** The MySQL store (store/store_mysql.go): the process table `task_item`, where
    consumers lease tasks, and the append-only `task_log`. Tables are sequences of
    rows in insertion (primary key) order. The text column `content` (a JSON
    rendering of the payload) is not modelled, and an error is kept as the value
    whose message the source stores. */
module Mysql {
  import opened Common
  import opened Tasks
  import opened Storer

  /** A row of task_item. `tid` is indexed but not unique. */
  datatype TaskItem = TaskItem(
    id: nat,              // auto-increment primary key
    tid: string,
    appId: string,
    task: Blob,           // the task snapshot
    result: string,
    error: Option<Error>,
    execTime: int,
    times: int,           // claims so far
    lockTime: int,        // eligible again once strictly before now
    lockStatus: int,      // 0: new; 1: processing
    sid: string,
    cid: string,          // owning consumer
    createTime: int,
    updateTime: int)

  /** A row of task_log: the task as it stood after an attempt, and whether the
      attempt succeeded (1) or failed (0). */
  datatype TaskLog = TaskLog(entry: TaskItem, status: int)

  /** The WHERE clauses of Get's two statements. */
  datatype Filter =
    | Claimable(cid: string, maxRetryTimes: int, now: int)   // the UPDATE: cid = ? AND times < ? AND lock_time < ?
    | HeldBy(cid: string, lockTime: int)                      // the SELECT: lock_status = 1 AND lock_time = ? AND cid = ?

  predicate Matches(f: Filter, r: TaskItem) {
    match f
    case Claimable(cid, maxRetryTimes, now) => r.cid == cid && r.times < maxRetryTimes && r.lockTime < now
    case HeldBy(cid, lockTime) => r.lockStatus == 1 && r.lockTime == lockTime && r.cid == cid
  }

  /** ORDER BY create_time ASC. Rows with equal create_time are taken in table
      order, an order MySQL itself does not promise. */
  predicate Precedes(rows: seq<TaskItem>, i: nat, j: nat)
    requires i < |rows| && j < |rows|
  {
    rows[i].createTime < rows[j].createTime || (rows[i].createTime == rows[j].createTime && i < j)
  }

  /** `picked` lists, oldest first, the rows that `WHERE f ORDER BY create_time
      LIMIT size` selects: at most `size` matching rows, and a matching row is left
      out only when `size` rows older than it were taken. */
  ghost predicate IsOldest(rows: seq<TaskItem>, f: Filter, size: nat, picked: seq<nat>) {
    && |picked| <= size
    && (forall k :: 0 <= k < |picked| ==> picked[k] < |rows| && Matches(f, rows[picked[k]]))
    && (forall k, m :: 0 <= k < m < |picked| ==>
          picked[k] < |rows| && picked[m] < |rows| && Precedes(rows, picked[k], picked[m]))
    && (forall i :: 0 <= i < |rows| && Matches(f, rows[i]) && i !in picked ==>
          |picked| == size &&
          forall k :: 0 <= k < |picked| ==> picked[k] < |rows| && Precedes(rows, picked[k], i))
  }

  /** The oldest matching row not picked yet, or -1 when every matching row is picked. */
  method NextOldest(rows: seq<TaskItem>, f: Filter, picked: seq<nat>) returns (best: int)
    ensures -1 <= best < |rows|
    ensures best < 0 ==> forall j :: 0 <= j < |rows| && Matches(f, rows[j]) ==> j in picked
    ensures best >= 0 ==> Matches(f, rows[best]) && best !in picked
    ensures best >= 0 ==> forall j :: 0 <= j < |rows| && Matches(f, rows[j]) && j !in picked && j != best ==>
              Precedes(rows, best, j)
  {
    best := -1;
    var i := 0;
    while i < |rows|
      invariant 0 <= i <= |rows|
      invariant -1 <= best < i
      invariant best >= 0 ==> Matches(f, rows[best]) && best !in picked
      invariant best < 0 ==> forall j :: 0 <= j < i && Matches(f, rows[j]) ==> j in picked
      invariant best >= 0 ==> forall j :: 0 <= j < i && Matches(f, rows[j]) && j !in picked && j != best ==>
                  Precedes(rows, best, j)
    {
      if Matches(f, rows[i]) && i !in picked && (best < 0 || Precedes(rows, i, best)) {
        best := i;
      }
      i := i + 1;
    }
  }

  /** The row selection of a statement with ORDER BY create_time and LIMIT size. */
  method Oldest(rows: seq<TaskItem>, f: Filter, size: nat) returns (picked: seq<nat>)
    ensures IsOldest(rows, f, size, picked)
  {
    picked := [];
    while |picked| < size
      invariant |picked| <= size
      invariant forall k :: 0 <= k < |picked| ==> picked[k] < |rows| && Matches(f, rows[picked[k]])
      invariant forall k, m :: 0 <= k < m < |picked| ==> Precedes(rows, picked[k], picked[m])
      invariant forall i :: 0 <= i < |rows| && Matches(f, rows[i]) && i !in picked ==>
                  forall k :: 0 <= k < |picked| ==> Precedes(rows, picked[k], i)
      decreases size - |picked|
    {
      var best := NextOldest(rows, f, picked);
      if best < 0 {
        return;
      }
      picked := picked + [best];
    }
  }

  /** The selection is determined: two row lists that both satisfy IsOldest for
      the same table, filter and limit are equal. */
  lemma OldestUnique(rows: seq<TaskItem>, f: Filter, size: nat, p: seq<nat>, q: seq<nat>)
    requires IsOldest(rows, f, size, p) && IsOldest(rows, f, size, q)
    ensures p == q
  {
    var n := if |p| < |q| then |p| else |q|;
    AgreeUpTo(rows, f, size, p, q, n);
    NextNotTaken(rows, f, size, p, q);
    NextNotTaken(rows, f, size, q, p);
  }

  lemma {:induction false} AgreeUpTo(rows: seq<TaskItem>, f: Filter, size: nat, p: seq<nat>, q: seq<nat>, n: nat)
    requires IsOldest(rows, f, size, p) && IsOldest(rows, f, size, q)
    requires n <= |p| && n <= |q|
    ensures forall k :: 0 <= k < n ==> p[k] == q[k]
  {
    if n > 0 {
      AgreeUpTo(rows, f, size, p, q, n - 1);
      AgreeAt(rows, f, size, p, q, n - 1);
    }
  }

  /** Two selections that agree before position k agree at k. */
  lemma AgreeAt(rows: seq<TaskItem>, f: Filter, size: nat, p: seq<nat>, q: seq<nat>, k: nat)
    requires IsOldest(rows, f, size, p) && IsOldest(rows, f, size, q)
    requires k < |p| && k < |q|
    requires forall j :: 0 <= j < k ==> p[j] == q[j]
    ensures p[k] == q[k]
  {
    assert p[..k] == q[..k];
    MinAt(rows, f, size, p, k, q[k]);
    MinAt(rows, f, size, q, k, p[k]);
    Distinct(rows, f, size, p, k);
    Distinct(rows, f, size, q, k);
  }

  /** The k-th pick is the oldest matching row outside the first k picks. */
  lemma MinAt(rows: seq<TaskItem>, f: Filter, size: nat, p: seq<nat>, k: nat, x: nat)
    requires IsOldest(rows, f, size, p)
    requires k < |p| && x < |rows| && Matches(f, rows[x])
    ensures x in p[..k] || x == p[k] || Precedes(rows, p[k], x)
  {
    if x in p {
      var m :| 0 <= m < |p| && p[m] == x;
      if m < k {
        assert p[..k][m] == x;
      } else if m > k {
        assert Precedes(rows, p[k], p[m]);
      }
    }
  }

  /** A row is picked at most once. */
  lemma Distinct(rows: seq<TaskItem>, f: Filter, size: nat, p: seq<nat>, k: nat)
    requires IsOldest(rows, f, size, p)
    requires k < |p|
    ensures p[k] !in p[..k]
  {
    forall m | 0 <= m < k
      ensures p[..k][m] != p[k]
    {
      assert Precedes(rows, p[m], p[k]);
    }
  }

  /** Past the end of a selection p that q extends, q's next row is not in p. */
  lemma NextNotTaken(rows: seq<TaskItem>, f: Filter, size: nat, p: seq<nat>, q: seq<nat>)
    requires IsOldest(rows, f, size, q)
    requires forall k :: 0 <= k < |p| && k < |q| ==> p[k] == q[k]
    ensures |p| < |q| ==> q[|p|] !in p
  {
    if |p| < |q| {
      assert p == q[..|p|];
      Distinct(rows, f, size, q, |p|);
    }
  }

  /** The UPDATE of a claim: the picked rows get lock_status 1, the new lock time,
      one more attempt and the claimer's cid; every other row is left alone. */
  function ClaimRows(rows: seq<TaskItem>, picked: seq<nat>, cid: string, lockTime: int): (r: seq<TaskItem>)
    ensures |r| == |rows|
    ensures forall i :: 0 <= i < |rows| && i in picked ==>
      r[i] == rows[i].(lockStatus := 1, lockTime := lockTime, times := rows[i].times + 1, cid := cid)
    ensures forall i :: 0 <= i < |rows| && i !in picked ==> r[i] == rows[i]
  {
    seq(|rows|, i requires 0 <= i < |rows| =>
      if i in picked then rows[i].(lockStatus := 1, lockTime := lockTime, times := rows[i].times + 1, cid := cid)
      else rows[i])
  }

  /** A claim changes only rows of the caller that are under the retry limit
      and whose lock time has passed. */
  lemma ClaimTouchesOnlyEligible(rows: seq<TaskItem>, cid: string, maxRetryTimes: int, now: int,
                                 size: nat, picked: seq<nat>, lockTime: int, i: nat)
    requires IsOldest(rows, Claimable(cid, maxRetryTimes, now), size, picked)
    requires i < |rows| && ClaimRows(rows, picked, cid, lockTime)[i] != rows[i]
    ensures rows[i].cid == cid && rows[i].times < maxRetryTimes && rows[i].lockTime < now
  {
    var k :| 0 <= k < |picked| && picked[k] == i;
  }

  /** A claim changes at most `size` rows. */
  lemma ClaimTouchesAtMostSize(rows: seq<TaskItem>, f: Filter, size: nat, picked: seq<nat>,
                               cid: string, lockTime: int)
    requires IsOldest(rows, f, size, picked)
    ensures |set i | 0 <= i < |rows| && ClaimRows(rows, picked, cid, lockTime)[i] != rows[i]| <= size
  {
    var after := ClaimRows(rows, picked, cid, lockTime);
    var changed := set i | 0 <= i < |rows| && after[i] != rows[i];
    var taken := Elements(picked);
    assert changed <= taken;
    SubsetCard(changed, taken);
    ElementsCard(picked);
  }

  lemma SubsetCard(a: set<nat>, b: set<nat>)
    requires a <= b
    ensures |a| <= |b|
  {
    if a != {} {
      var x :| x in a;
      SubsetCard(a - {x}, b - {x});
    }
  }

  ghost function Elements(s: seq<nat>): set<nat> {
    set x | x in s
  }

  /** A sequence has at most as many distinct elements as entries. */
  lemma {:induction false} ElementsCard(s: seq<nat>)
    ensures |Elements(s)| <= |s|
  {
    if s != [] {
      ElementsCard(s[1..]);
      var rest := Elements(s[1..]);
      assert Elements(s) == rest + {s[0]} by {
        forall x | x in s
          ensures x in rest + {s[0]}
        {
          var j :| 0 <= j < |s| && s[j] == x;
          if j > 0 {
            assert s[1..][j - 1] == x;
          }
        }
      }
      if s[0] in rest {
        assert rest + {s[0]} == rest;
      }
    }
  }

  /** A claim cannot touch a row whose attempts reached the limit: such a poison
      row stays exactly as it is. */
  lemma PoisonRowUntouched(rows: seq<TaskItem>, cid: string, maxRetryTimes: int, now: int, size: nat,
                           picked: seq<nat>, lockTime: int, i: nat)
    requires IsOldest(rows, Claimable(cid, maxRetryTimes, now), size, picked)
    requires i < |rows| && rows[i].times >= maxRetryTimes
    ensures ClaimRows(rows, picked, cid, lockTime)[i] == rows[i]
  {
    forall k | 0 <= k < |picked|
      ensures picked[k] != i
    {
      assert Matches(Claimable(cid, maxRetryTimes, now), rows[picked[k]]);
    }
  }

  /** Get's read-back returns exactly the rows its UPDATE claimed, in creation
      order, provided no row of this consumer already carried lock_status 1 and
      the same lock time before the claim. */
  lemma ReadBackIsClaim(rows: seq<TaskItem>, cid: string, maxRetryTimes: int, now: int, lockTime: int,
                        size: nat, picked: seq<nat>, back: seq<nat>)
    requires IsOldest(rows, Claimable(cid, maxRetryTimes, now), size, picked)
    requires IsOldest(ClaimRows(rows, picked, cid, lockTime), HeldBy(cid, lockTime), size, back)
    requires forall i :: 0 <= i < |rows| ==> !Matches(HeldBy(cid, lockTime), rows[i])
    ensures back == picked
  {
    var after := ClaimRows(rows, picked, cid, lockTime);
    forall k, m | 0 <= k < m < |picked|
      ensures Precedes(after, picked[k], picked[m])
    {
      assert Precedes(rows, picked[k], picked[m]);
    }
    assert IsOldest(after, HeldBy(cid, lockTime), size, picked);
    OldestUnique(after, HeldBy(cid, lockTime), size, back, picked);
  }

  /** Without that proviso the read-back can differ from the claim: a consumer
      that claimed row 0 earlier in the same second claims row 1 now, yet the
      read-back (LIMIT 1) returns row 0 again. */
  lemma ReadBackReturnsEarlierClaim()
    ensures
      var a := TaskItem(1, "a", "app", Encoded(ZeroTask), "", None, 0, 1, 400, 1, "s", "c", 10, 10);
      var b := TaskItem(2, "b", "app", Encoded(ZeroTask), "", None, 0, 0, 0, 0, "s", "c", 20, 20);
      IsOldest([a, b], Claimable("c", 32, 100), 1, [1]) &&
      IsOldest(ClaimRows([a, b], [1], "c", 400), HeldBy("c", 400), 1, [0])
  {
    var a := TaskItem(1, "a", "app", Encoded(ZeroTask), "", None, 0, 1, 400, 1, "s", "c", 10, 10);
    var b := TaskItem(2, "b", "app", Encoded(ZeroTask), "", None, 0, 0, 0, 0, "s", "c", 20, 20);
    var after := ClaimRows([a, b], [1], "c", 400);
    assert !Matches(Claimable("c", 32, 100), [a, b][0]);
    assert after[0] == a && after[1].createTime == 20;
    assert Precedes(after, 0, 1);
  }

  /** The row Insert adds. A task marked processing is locked for twice its
      timeout; any other task gets lock_time = NextTime. */
  function NewRow(id: nat, t: TaskData, cid: string, now: int): (r: TaskItem)
    ensures r.id == id && r.tid == t.id && r.appId == t.appId && r.sid == t.sid && r.cid == cid
    ensures Decode(r.task) == Ok(t)
    ensures r.times == 0 && r.result == "" && r.error == None && r.execTime == 0
    ensures t.IsProcessing() ==> r.lockStatus == 1 && r.lockTime == now + 2 * t.Timeout()
    ensures !t.IsProcessing() ==> r.lockStatus == 0 && r.lockTime == t.nextTime
    ensures r.createTime == now && r.updateTime == now
  {
    var locked := t.IsProcessing();
    TaskItem(id, t.id, t.appId, Encode(t), "", None, 0, 0,
             if locked then now + t.Timeout() * 2 else t.nextTime,
             if locked then 1 else 0,
             t.sid, cid, now, now)
  }

  /** A task inserted without the processing mark right after Init carries
      lock_time 0, so any later claim by its consumer may take it, whatever its
      expected time. */
  lemma DelayedTaskClaimableAtOnce(id: nat, t: TaskData, cid: string, inserted: int,
                                   maxRetryTimes: int, now: int)
    requires !t.IsProcessing() && t.nextTime == 0
    requires maxRetryTimes > 0 && now > 0
    ensures Matches(Claimable(cid, maxRetryTimes, now), NewRow(id, t, cid, inserted))
  {
  }

  predicate Keyed(r: TaskItem, tid: string, cid: string) {
    r.tid == tid && r.cid == cid
  }

  /** The number of rows with this (tid, cid). */
  function CountKeyed(rows: seq<TaskItem>, tid: string, cid: string): nat
    decreases |rows|
  {
    if rows == [] then 0
    else (if Keyed(rows[0], tid, cid) then 1 else 0) + CountKeyed(rows[1..], tid, cid)
  }

  /** The columns Update writes, from the task as it stands after an attempt. */
  function Patched(row: TaskItem, s: TaskState, cid: string, now: int): TaskItem {
    row.(task := Encode(s.data), result := s.lastResult, error := s.lastError,
         execTime := s.lastExecTime, lockTime := s.data.nextTime, sid := s.data.sid,
         cid := cid, updateTime := now)
  }

  /** `after` has the rows of `before`, each with the same primary key, keys,
      attempt count and lock status. */
  predicate SameRows(before: seq<TaskItem>, after: seq<TaskItem>) {
    |after| == |before| &&
    forall i {:trigger after[i]} :: 0 <= i < |before| ==>
      after[i].id == before[i].id && after[i].tid == before[i].tid && after[i].cid == before[i].cid &&
      after[i].times == before[i].times && after[i].lockStatus == before[i].lockStatus
  }

  lemma SameRowsTrans(a: seq<TaskItem>, b: seq<TaskItem>, c: seq<TaskItem>)
    requires SameRows(a, b) && SameRows(b, c)
    ensures SameRows(a, c)
  {
  }

  /** Update's effect on the table: the rows keyed by (task id, cid) take the
      task's snapshot, results and next time as their lock time; attempts, lock
      status, keys and creation time of every row stay, other rows are untouched. */
  function UpdateRows(rows: seq<TaskItem>, s: TaskState, cid: string, now: int): (r: seq<TaskItem>)
    ensures SameRows(rows, r)
    ensures forall i {:trigger r[i]} :: 0 <= i < |rows| ==> r[i].createTime == rows[i].createTime
    ensures forall i {:trigger r[i]} :: 0 <= i < |rows| && Keyed(rows[i], s.data.id, cid) ==>
      r[i].lockTime == s.data.nextTime && Decode(r[i].task) == Ok(s.data)
    ensures forall i {:trigger r[i]} :: 0 <= i < |rows| && !Keyed(rows[i], s.data.id, cid) ==> r[i] == rows[i]
  {
    seq(|rows|, i requires 0 <= i < |rows| =>
      if Keyed(rows[i], s.data.id, cid) then Patched(rows[i], s, cid, now) else rows[i])
  }

  predicate IncreasingIds(rows: seq<TaskItem>) {
    forall i, j :: 0 <= i < j < |rows| ==> rows[i].id < rows[j].id
  }

  /** Delete's effect on the table: the rows keyed by (tid, cid) go, every other
      row stays, in order. */
  function Without(rows: seq<TaskItem>, tid: string, cid: string): (r: seq<TaskItem>)
    ensures |r| == |rows| - CountKeyed(rows, tid, cid)
    ensures forall x :: x in r ==> x in rows && !Keyed(x, tid, cid)
    decreases |rows|
  {
    if rows == [] then []
    else if Keyed(rows[0], tid, cid) then Without(rows[1..], tid, cid)
    else [rows[0]] + Without(rows[1..], tid, cid)
  }

  /** Delete removes only the rows it is asked to: every row with another key
      is still there. */
  lemma {:induction false} WithoutKeepsOthers(rows: seq<TaskItem>, tid: string, cid: string, x: TaskItem)
    requires x in rows && !Keyed(x, tid, cid)
    ensures x in Without(rows, tid, cid)
    decreases |rows|
  {
    if rows[0] != x {
      assert x in rows[1..];
      WithoutKeepsOthers(rows[1..], tid, cid, x);
    }
  }

  /** Delete keeps the table ordered by primary key. */
  lemma {:induction false} WithoutKeepsOrder(rows: seq<TaskItem>, tid: string, cid: string)
    requires IncreasingIds(rows)
    ensures IncreasingIds(Without(rows, tid, cid))
    decreases |rows|
  {
    if rows != [] {
      WithoutKeepsOrder(rows[1..], tid, cid);
      var rest := Without(rows[1..], tid, cid);
      forall x | x in rest
        ensures rows[0].id < x.id
      {
        var j :| 0 <= j < |rows[1..]| && rows[1..][j] == x;
        assert rows[j + 1] == x;
      }
    }
  }

  /** The log row for an attempt; status is 1 exactly when the task reports no error. */
  function LogRow(id: nat, s: TaskState, cid: string, now: int): (r: TaskLog)
    ensures r.status == 1 <==> s.lastError.None?
    ensures r.status == 0 <==> s.lastError.Some?
    ensures r.entry.id == id && r.entry.tid == s.data.id && r.entry.cid == cid
    ensures Decode(r.entry.task) == Ok(s.data)
    ensures r.entry.times == s.data.times && r.entry.lockTime == s.data.nextTime
    ensures r.entry.result == s.lastResult && r.entry.error == s.lastError
  {
    TaskLog(TaskItem(id, s.data.id, s.data.appId, Encode(s.data), s.lastResult, s.lastError,
                     s.lastExecTime, s.data.times, s.data.nextTime, 0, s.data.sid, cid, now, now),
            if s.lastError.None? then 1 else 0)
  }

  /** Every row of a decodable read-back. */
  predicate AllEncoded(rows: seq<TaskItem>, back: seq<nat>) {
    forall k :: 0 <= k < |back| ==> back[k] < |rows| && rows[back[k]].task.Encoded?
  }

  /** The claim of Get: `claimed` are the rows its UPDATE selects, and `after`
      is the table it leaves. */
  ghost predicate Claimed(before: seq<TaskItem>, after: seq<TaskItem>, cid: string, maxRetryTimes: int,
                          now: int, lockTime: int, size: nat, claimed: seq<nat>) {
    IsOldest(before, Claimable(cid, maxRetryTimes, now), size, claimed) &&
    after == ClaimRows(before, claimed, cid, lockTime)
  }

  /** Each task of `data` carries the snapshot of the matching read-back row and
      no result of an earlier attempt. */
  ghost predicate DecodedFrom(data: seq<HttpTask>, rows: seq<TaskItem>, back: seq<nat>)
    reads data
  {
    |data| == |back| &&
    forall k :: 0 <= k < |data| ==>
      back[k] < |rows| && rows[back[k]].task.Encoded? &&
      data[k].State() == TaskState(rows[back[k]].task.task, "", None, 0)
  }

  /** What Get(cid, size) at time `now` does to the table `before` and returns,
      given the outcomes of its two statements. An UPDATE failure changes nothing
      and is an error. Otherwise the claim happens; an empty
      claim returns nothing and no error; a failed read returns its error; and the
      rows read back are decoded all-or-nothing. */
  ghost predicate GetResult(before: seq<TaskItem>, after: seq<TaskItem>, cid: string, maxRetryTimes: int,
                            maxLockTime: int, size: nat, now: int,
                            execFault: Option<Error>, readFault: Option<Error>,
                            data: seq<HttpTask>, err: Option<Error>, claimed: seq<nat>, back: seq<nat>)
    reads data
  {
    && (execFault.Some? ==> data == [] && err == execFault && after == before)
    && (execFault.None? ==>
          Claimed(before, after, cid, maxRetryTimes, now, now + maxLockTime, size, claimed))
    && (execFault.None? && claimed == [] ==> data == [] && err == None)
    && (execFault.None? && claimed != [] && readFault.Some? ==> data == [] && err == readFault)
    && (execFault.None? && claimed != [] && readFault.None? ==>
          IsOldest(after, HeldBy(cid, now + maxLockTime), size, back) &&
          (AllEncoded(after, back) ==> err == None && DecodedFrom(data, after, back)) &&
          (!AllEncoded(after, back) ==> err == Some(Undecodable) && data == []))
  }

  /** The decode loop of Get: each read-back row's snapshot becomes a fresh
      task, and one row that does not decode fails the whole call. */
  method DecodeRows(rows: seq<TaskItem>, found: seq<nat>) returns (data: seq<HttpTask>, err: Option<Error>)
    requires forall k :: 0 <= k < |found| ==> found[k] < |rows|
    ensures AllEncoded(rows, found) ==>
      err == None && DecodedFrom(data, rows, found) && forall k :: 0 <= k < |data| ==> fresh(data[k])
    ensures !AllEncoded(rows, found) ==> err == Some(Undecodable) && data == []
  {
    data := [];
    var k := 0;
    while k < |found|
      invariant 0 <= k <= |found|
      invariant |data| == k
      invariant forall j :: 0 <= j < k ==> rows[found[j]].task.Encoded?
      invariant forall j :: 0 <= j < k ==>
        fresh(data[j]) && data[j].State() == TaskState(rows[found[j]].task.task, "", None, 0)
    {
      var decoded := Decode(rows[found[k]].task);
      if decoded.Failed? {
        return [], Some(decoded.error);
      }
      var t := new HttpTask.FromData(decoded.task);
      data := data + [t];
      k := k + 1;
    }
    err := None;
  }

  class MysqlStore {
    const maxRetryTimes: int   // db.max_retry_times of the configuration
    const maxLockTime: int     // db.max_lock_time of the configuration, in seconds
    var items: seq<TaskItem>   // task_item
    var nextId: nat            // the next auto-increment id of task_item
    var logs: seq<TaskLog>     // task_log

    /** Primary keys grow along the table and stay below the next one handed out. */
    ghost predicate Valid()
      reads this
    {
      IncreasingIds(items) && forall i :: 0 <= i < |items| ==> items[i].id < nextId
    }

    constructor (maxRetryTimes: int, maxLockTime: int)
      ensures Valid()
      ensures this.maxRetryTimes == maxRetryTimes && this.maxLockTime == maxLockTime
      ensures items == [] && logs == [] && nextId == 1
    {
      this.maxRetryTimes := maxRetryTimes;
      this.maxLockTime := maxLockTime;
      items, logs, nextId := [], [], 1;
    }

    /** Get(cid, size): the claim. One UPDATE takes up to `size` of this consumer's
        rows that are under the retry limit and whose lock time has passed, oldest
        first; then a SELECT reads back this consumer's rows locked until the new
        lock time, and each is decoded. `execFault` is a failure of the UPDATE,
        `readFault` one of the SELECT. */
    method Get(cid: string, size: int, now: int, execFault: Option<Error>, readFault: Option<Error>)
      returns (data: seq<HttpTask>, err: Option<Error>, ghost claimed: seq<nat>, ghost back: seq<nat>)
      requires size >= 0   // a negative size panics when the result slice is allocated
      requires Valid()
      modifies this`items
      ensures Valid()
      ensures GetResult(old(items), items, cid, maxRetryTimes, maxLockTime, size, now,
                        execFault, readFault, data, err, claimed, back)
      ensures forall k :: 0 <= k < |data| ==> fresh(data[k])
    {
      claimed, back := [], [];
      if execFault.Some? {
        return [], execFault, claimed, back;
      }
      var picked := Oldest(items, Claimable(cid, maxRetryTimes, now), size);
      claimed := picked;
      items := ClaimRows(items, picked, cid, now + maxLockTime);
      if picked == [] {
        return [], None, claimed, back;
      }
      if readFault.Some? {
        return [], readFault, claimed, back;
      }
      var found := Oldest(items, HeldBy(cid, now + maxLockTime), size);
      back := found;
      data, err := DecodeRows(items, found);
    }

    /** Insert: appends a fresh row for the task, owned by `cid`, with no attempts. */
    method Insert(cid: string, task: HttpTask, now: int, fault: Option<Error>) returns (err: Option<Error>)
      requires Valid()
      modifies this`items, this`nextId
      ensures Valid()
      ensures err == fault
      ensures fault.Some? ==> items == old(items) && nextId == old(nextId)
      ensures fault.None? ==>
        items == old(items) + [NewRow(old(nextId), task.Data(), cid, now)] && nextId == old(nextId) + 1
    {
      if fault.Some? {
        return fault;
      }
      items := items + [NewRow(nextId, task.Data(), cid, now)];
      nextId := nextId + 1;
      err := None;
    }

    /** Update: rewrites the rows of (task id, cid) from the task; true exactly
        when one row matched. */
    method Update(cid: string, task: HttpTask, now: int, fault: Option<Error>) returns (ok: bool, err: Option<Error>)
      requires Valid()
      modifies this`items
      ensures Valid()
      ensures fault.Some? ==> !ok && err == fault && items == old(items)
      ensures fault.None? ==>
        err == None && items == UpdateRows(old(items), task.State(), cid, now) &&
        (ok <==> CountKeyed(old(items), task.id, cid) == 1)
    {
      if fault.Some? {
        return false, fault;
      }
      ok := CountKeyed(items, task.id, cid) == 1;
      items := UpdateRows(items, task.State(), cid, now);
      err := None;
    }

    /** Delete: removes the rows of (id, cid); true exactly when one row went. */
    method Delete(cid: string, id: string, fault: Option<Error>) returns (ok: bool, err: Option<Error>)
      requires Valid()
      modifies this`items
      ensures Valid()
      ensures fault.Some? ==> !ok && err == fault && items == old(items)
      ensures fault.None? ==>
        err == None && items == Without(old(items), id, cid) &&
        (ok <==> |old(items)| - |items| == 1)
    {
      if fault.Some? {
        return false, fault;
      }
      ok := CountKeyed(items, id, cid) == 1;
      WithoutKeepsOrder(items, id, cid);
      var kept := Without(items, id, cid);
      forall i | 0 <= i < |kept|
        ensures kept[i].id < nextId
      {
        assert kept[i] in items;
      }
      items := kept;
      err := None;
    }

    /** Log: appends one log row for the task's last attempt. */
    method Log(cid: string, task: HttpTask, now: int, fault: Option<Error>) returns (err: Option<Error>)
      modifies this`logs
      ensures err == fault
      ensures fault.Some? ==> logs == old(logs)
      ensures fault.None? ==> logs == old(logs) + [LogRow(|old(logs)| + 1, task.State(), cid, now)]
    {
      if fault.Some? {
        return fault;
      }
      logs := logs + [LogRow(|logs| + 1, task.State(), cid, now)];
      err := None;
    }
  }
}
