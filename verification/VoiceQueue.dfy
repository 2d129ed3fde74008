/** The in-place task queue of cpt_app/server/src/server_voice.c: an array and a count. */
module VoiceQueue {

  const CAPACITY := 1024

  /** A task is a pointer; `ptr` tells two tasks of the same user apart. */
  datatype Task = Task(ptr: nat, uid: int)

  function Enqueued(q: seq<Task>, t: Task): seq<Task> {
    q + [t]
  }

  function Dequeued(q: seq<Task>): seq<Task>
    requires q != []
  {
    q[1..]
  }

  class TaskQueue {
    const slots: array<Task>
    var taskCount: int

    ghost predicate Valid()
      reads this
    {
      slots.Length == CAPACITY && 0 <= taskCount <= CAPACITY
    }

    ghost function Contents(): seq<Task>
      requires Valid()
      reads this, slots
    {
      slots[..taskCount]
    }

    constructor ()
      ensures Valid() && fresh(slots) && Contents() == []
    {
      slots := new Task[CAPACITY](_ => Task(0, 0));
      taskCount := 0;
    }

    /** The critical section of submit_task. It has no bound check: the caller must leave room. */
    method Submit(task: Task)
      requires Valid() && |Contents()| < CAPACITY
      modifies this`taskCount, slots
      ensures Valid() && Contents() == Enqueued(old(Contents()), task)
    {
      slots[taskCount] := task;
      taskCount := taskCount + 1;
    }

    /** The critical section of start_thread once the queue is not empty, with its shift loop. */
    method Take() returns (task: Task)
      requires Valid() && Contents() != []
      modifies this`taskCount, slots
      ensures Valid() && task == old(Contents())[0] && Contents() == Dequeued(old(Contents()))
    {
      task := slots[0];
      var ind := 0;
      while ind < taskCount - 1
        invariant taskCount == old(taskCount) && 0 <= ind <= taskCount - 1
        invariant forall k :: 0 <= k < ind ==> slots[k] == old(slots[k + 1])
        invariant forall k :: ind <= k < CAPACITY ==> slots[k] == old(slots[k])
      {
        slots[ind] := slots[ind + 1];
        ind := ind + 1;
      }
      assert slots[..taskCount - 1] == old(slots[1..taskCount]);
      taskCount := taskCount - 1;
    }
  }
}
