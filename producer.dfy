/** Submission (server/producer.go): a task is initialised for this producer and
    appended to the primary queue. */
module Producer {
  import opened Common
  import opened Tasks
  import opened Storer
  import opened Redis

  /** Push(sid, store, task): Init with the producer id, a fresh task id and the
      current time, then RPush; the answer is RPush's. The task is initialised even
      when it had been pushed before, so it gets a new id and its attempt count
      starts again from zero. */
  method Push(sid: string, store: RedisStore, task: HttpTask, id: string, now: int, fault: Option<Error>)
    returns (ok: bool, err: Option<Error>)
    modifies store`list, task`sid, task`id, task`createTime, task`nextTime, task`times
    ensures task.Data() == Initialised(old(task.Data()), sid, id, now)
    ensures task.sid == sid && task.id == id && task.times == 0 && task.nextTime == 0
    ensures ok <==> fault.None?
    ensures ok ==> err == None && store.list == old(store.list) + [Encode(task.Data())]
    ensures !ok ==> err == fault && store.list == old(store.list)
  {
    task.Init(sid, id, now);
    ok, err := store.RPush(task, fault);
  }

  /** A pushed task, once popped by a consumer, is exactly the initialised task:
      pushed onto an empty queue, it is the next task popped. */
  method PushedTaskIsPopped(sid: string, store: RedisStore, task: HttpTask, id: string, now: int)
    returns (popped: HttpTask?)
    requires store.list == []
    modifies store`list, task`sid, task`id, task`createTime, task`nextTime, task`times
    ensures popped != null && fresh(popped) && store.list == []
    ensures popped.Data() == Initialised(old(task.Data()), sid, id, now)
    ensures popped.times == 0 && popped.nextTime == 0 && popped.sid == sid
  {
    var ok, err := Push(sid, store, task, id, now, None);
    var popErr;
    popped, popErr := store.LPop(None, None);
  }
}
