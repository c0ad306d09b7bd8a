// CWorkerThread and CThreadPool: each worker owns a queue that other threads
// push to. A critical section is one step.
module Workers {

  type Task = nat

  // A worker either runs, or waits for a signal, or has been woken by one and
  // will look again.
  datatype Wait = Awake | Asleep | Woken

  class Worker {
    var taskList: seq<Task>
    var running: seq<Task>
    var wait: Wait
    // All tasks ever pushed, and all tasks whose run has ended.
    ghost var pushed: seq<Task>
    ghost var executed: seq<Task>

    /** Nothing pushed is lost, repeated or reordered, and a worker never sleeps
        on a queue that has work in it. */
    ghost predicate Valid()
      reads this
    {
      && pushed == executed + running + taskList
      && |running| <= 1
      && (wait.Asleep? ==> taskList == [])
      && (!wait.Awake? ==> running == [])
    }

    constructor ()
      ensures Valid() && pushed == [] && executed == []
    {
      taskList, running, wait, pushed, executed := [], [], Awake, [], [];
    }

    method PushTask(task: Task)
      requires Valid()
      modifies this
      ensures Valid()
      ensures pushed == old(pushed) + [task] && executed == old(executed) && running == old(running)
    {
      taskList := taskList + [task];
      if wait == Asleep {
        wait := Woken;
      }
      pushed := pushed + [task];
    }

    /** The wait loop of Execute up to its next wait or its task; a wake-up may be
        spurious. */
    method Fetch()
      requires Valid() && running == []
      modifies this
      ensures Valid() && pushed == old(pushed) && executed == old(executed)
      ensures running == if old(taskList) == [] then [] else [old(taskList)[0]]
      ensures wait == if old(taskList) == [] then Asleep else Awake
    {
      if taskList == [] {
        wait := Asleep;
        return;
      }
      wait := Awake;
      running := [taskList[0]];
      assert taskList == [taskList[0]] + taskList[1..];
      taskList := taskList[1..];
    }

    /** The running task ends. */
    method Finish()
      requires Valid() && running != []
      modifies this
      ensures Valid() && pushed == old(pushed) && running == []
      ensures executed == old(executed) + old(running)
    {
      executed := executed + running;
      running := [];
      assert executed + running + taskList == executed + taskList;
    }
  }

  // What can happen in the pool: a task is added, with the random number that
  // picks its worker, or one worker goes one step further.
  datatype Event = Add(task: Task, random: nat) | Go(worker: nat)

  /** The tasks that fall to worker `i` of `n`, in the order they were added. */
  function TasksFor(events: seq<Event>, n: nat, i: nat): seq<Task>
    requires n > 0
  {
    if events == [] then [] else
      var before := TasksFor(events[..|events| - 1], n, i);
      match events[|events| - 1]
      case Add(task, random) => if random % n == i then before + [task] else before
      case Go(_) => before
  }

  class ThreadPool {
    const workers: seq<Worker>

    ghost predicate Valid()
      reads this, workers
    {
      && (forall i :: 0 <= i < |workers| ==> workers[i].Valid())
      && (forall i, j :: 0 <= i < j < |workers| ==> workers[i] != workers[j])
    }

    constructor (workerSize: nat)
      ensures Valid() && |workers| == workerSize
      ensures forall i :: 0 <= i < workerSize ==> fresh(workers[i]) && workers[i].pushed == [] && workers[i].executed == []
    {
      var list: seq<Worker> := [];
      for i := 0 to workerSize
        invariant |list| == i
        invariant forall k :: 0 <= k < i ==> fresh(list[k]) && list[k].Valid() && list[k].pushed == [] && list[k].executed == []
        invariant forall j, k :: 0 <= j < k < i ==> list[j] != list[k]
      {
        var w := new Worker();
        list := list + [w];
      }
      workers := list;
    }

    method AddTask(task: Task, random: nat)
      requires Valid() && |workers| > 0
      modifies workers
      ensures Valid()
      ensures forall i :: 0 <= i < |workers| ==>
                workers[i].pushed == old(workers[i].pushed) + (if i == random % |workers| then [task] else [])
    {
      var threadIdx := random % |workers|;
      workers[threadIdx].PushTask(task);
    }

    method Step(i: nat)
      requires Valid() && i < |workers|
      modifies workers
      ensures Valid()
      ensures forall k :: 0 <= k < |workers| ==> workers[k].pushed == old(workers[k].pushed)
      ensures forall k :: 0 <= k < |workers| ==> old(workers[k].executed) <= workers[k].executed
    {
      var w := workers[i];
      if w.running != [] {
        w.Finish();
      } else {
        w.Fetch();
      }
    }
  }

  /** In any run of any pool each worker has executed a prefix of exactly the
      tasks that fell to it, in order, and has the rest before it. */
  method AnyRun(n: nat, events: seq<Event>) returns (pool: ThreadPool)
    requires n > 0 && forall k :: 0 <= k < |events| && events[k].Go? ==> events[k].worker < n
    ensures pool.Valid() && |pool.workers| == n
    ensures forall i :: 0 <= i < n ==>
              TasksFor(events, n, i)
              == pool.workers[i].executed + pool.workers[i].running + pool.workers[i].taskList
    ensures forall i :: 0 <= i < n && pool.workers[i].wait.Asleep? ==> TasksFor(events, n, i) == pool.workers[i].executed
  {
    pool := new ThreadPool(n);
    for k := 0 to |events|
      invariant pool.Valid() && |pool.workers| == n
      invariant forall i :: 0 <= i < n ==> fresh(pool.workers[i])
      invariant forall i :: 0 <= i < n ==> pool.workers[i].pushed == TasksFor(events[..k], n, i)
    {
      assert events[..k + 1][..k] == events[..k];
      match events[k] {
        case Add(task, random) => pool.AddTask(task, random);
        case Go(worker) => pool.Step(worker);
      }
    }
    assert events[..|events|] == events;
  }
}
