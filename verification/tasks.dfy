/** Task statuses as the reconciler sees them: an identifier and an opaque state tag. */
module Tasks {

  /** The resource manager's task states. The reconciler only compares them for equality. */
  datatype TaskState =
    | Staging | Starting | Running | Killing | Finished | Failed | Killed
    | Error | Lost | Dropped | Unreachable | Gone | GoneByOperator | Unknown

  /** A task status: the id of the task it reports on and the state it reports. */
  datatype TaskStatus = TaskStatus(taskId: string, state: TaskState)

  /** The task ids that occur in a collection of statuses. */
  function IdsOf(statuses: seq<TaskStatus>): set<string>
  {
    set s | s in statuses :: s.taskId
  }

  /** No two statuses of the collection report on the same task. */
  predicate DistinctIds(statuses: seq<TaskStatus>)
  {
    forall i, j :: 0 <= i < j < |statuses| ==> statuses[i].taskId != statuses[j].taskId
  }

  lemma IdsOfCons(statuses: seq<TaskStatus>)
    requires statuses != []
    ensures IdsOf(statuses) == IdsOf(statuses[1..]) + {statuses[0].taskId}
  {
  }

  lemma DistinctTail(statuses: seq<TaskStatus>)
    requires statuses != [] && DistinctIds(statuses)
    ensures DistinctIds(statuses[1..])
    ensures statuses[0].taskId !in IdsOf(statuses[1..])
  {
  }

  /** A collection of statuses with distinct ids names as many tasks as it has statuses. */
  lemma {:induction false} DistinctIdsCount(statuses: seq<TaskStatus>)
    requires DistinctIds(statuses)
    ensures |IdsOf(statuses)| == |statuses|
  {
    if statuses != [] {
      DistinctTail(statuses);
      DistinctIdsCount(statuses[1..]);
      IdsOfCons(statuses);
    }
  }
}
