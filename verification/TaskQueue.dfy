/** The ring buffer of `TaskQueue`: the critical sections of `submit`,
    `remove` and `stop`, as they run once their wait has ended. */
module TaskQueue {

  /** A `std::function<void()>`, which may be empty. */
  datatype Task = Empty | Job(id: nat)

  const QUEUE_CAPACITY: nat := 1024

  /** The place of the `i`-th task after the head. */
  function Slot(head: nat, i: nat): (k: nat)
    ensures k < QUEUE_CAPACITY
  {
    (head + i) % QUEUE_CAPACITY
  }

  lemma SlotNext(head: nat, i: nat)
    ensures Slot(Slot(head, 1), i) == Slot(head, i + 1)
  {
  }

  lemma SlotsDiffer(head: nat, i: nat, j: nat)
    requires i < j < QUEUE_CAPACITY
    ensures Slot(head, i) != Slot(head, j)
  {
  }

  /** The tasks in a ring, from the head on. */
  function RingContents(tasks: seq<Task>, head: nat, len: nat): (c: seq<Task>)
    requires |tasks| == QUEUE_CAPACITY
    ensures |c| == len
    ensures forall i :: 0 <= i < len ==> c[i] == tasks[Slot(head, i)]
  {
    seq(len, i requires 0 <= i < len => tasks[Slot(head, i)])
  }

  /** Writing behind the last task appends, also across the end of the array. */
  lemma RingPut(tasks: seq<Task>, head: nat, len: nat, task: Task)
    requires |tasks| == QUEUE_CAPACITY && len < QUEUE_CAPACITY
    ensures RingContents(tasks[Slot(head, len) := task], head, len + 1) == RingContents(tasks, head, len) + [task]
  {
    hide Slot;
    forall i | 0 <= i < len
      ensures Slot(head, i) != Slot(head, len)
    {
      SlotsDiffer(head, i, len);
    }
  }

  /** Moving the head drops the first task. */
  lemma RingTake(tasks: seq<Task>, head: nat, len: nat)
    requires |tasks| == QUEUE_CAPACITY && 0 < len <= QUEUE_CAPACITY && head < QUEUE_CAPACITY
    ensures RingContents(tasks, head, len)[0] == tasks[head]
    ensures RingContents(tasks, Slot(head, 1), len - 1) == RingContents(tasks, head, len)[1..]
  {
    assert Slot(head, 0) == head;
    hide Slot;
    forall i | 0 <= i < len - 1
      ensures Slot(Slot(head, 1), i) == Slot(head, i + 1)
    {
      SlotNext(head, i);
    }
  }

  /** What `submit` does to the queue, and whether it accepts the task. */
  function Submitted(queue: seq<Task>, shutdown: bool, task: Task): (seq<Task>, bool) {
    if shutdown then (queue, false) else (queue + [task], true)
  }

  /** What `remove` returns and leaves: the first task, or the empty one from a
      queue that has stopped and is empty. */
  function Removed(queue: seq<Task>): (Task, seq<Task>) {
    if queue == [] then (Empty, []) else (queue[0], queue[1..])
  }

  class TaskQueue {
    const tasks: array<Task>
    var head: nat
    var tail: nat
    var buffer_len: nat
    var shutdown: bool

    constructor ()
      ensures Valid() && fresh(tasks) && Contents() == [] && !shutdown
    {
      tasks := new Task[QUEUE_CAPACITY](_ => Empty);
      head, tail, buffer_len, shutdown := 0, 0, 0, false;
    }

    ghost predicate Valid()
      reads this, tasks
    {
      && tasks.Length == QUEUE_CAPACITY
      && head < QUEUE_CAPACITY && buffer_len <= QUEUE_CAPACITY
      && tail == Slot(head, buffer_len)
    }

    ghost function Contents(): (c: seq<Task>)
      requires Valid()
      reads this, tasks
      ensures |c| == buffer_len
    {
      RingContents(tasks[..], head, buffer_len)
    }

    /** `submit`, after its wait: there is space, or the queue has stopped. */
    method Submit(task: Task) returns (ok: bool)
      requires Valid() && (buffer_len < QUEUE_CAPACITY || shutdown)
      modifies this, tasks
      ensures Valid() && shutdown == old(shutdown)
      ensures (Contents(), ok) == Submitted(old(Contents()), shutdown, task)
      ensures ok == !shutdown && Contents() == if ok then old(Contents()) + [task] else old(Contents())
    {
      if shutdown { return false; }
      RingPut(tasks[..], head, buffer_len, task);
      ghost var ring := tasks[..];
      tasks[tail] := task;
      assert tasks[..] == ring[Slot(head, buffer_len) := task];
      tail := (tail + 1) % QUEUE_CAPACITY;
      buffer_len := buffer_len + 1;
      return true;
    }

    /** `remove`, after its wait: there is a task, or the queue has stopped. */
    method Remove() returns (task: Task)
      requires Valid() && (buffer_len > 0 || shutdown)
      modifies this
      ensures Valid() && shutdown == old(shutdown)
      ensures (task, Contents()) == Removed(old(Contents()))
      ensures if old(Contents()) == [] then task == Empty && Contents() == []
              else old(Contents()) == [task] + Contents()
    {
      if buffer_len == 0 && shutdown { return Empty; }
      RingTake(tasks[..], head, buffer_len);
      task := tasks[head];
      head := (head + 1) % QUEUE_CAPACITY;
      buffer_len := buffer_len - 1;
    }

    method Stop()
      requires Valid()
      modifies `shutdown
      ensures Valid() && shutdown && Contents() == old(Contents())
    {
      shutdown := true;
    }
  }
}
