/** The values that the task queue's callers and the server exchange. */
module TaskTypes {

  datatype Option<+T> = None | Some(value: T)

  datatype TaskState = Waiting | Ready | Running | Finished | Failed | Canceled | Undefined

  /** A task that has not ended: it can still move. */
  predicate Live(st: TaskState) {
    st.Waiting? || st.Ready? || st.Running?
  }

  /** A task that ended without finishing, so nothing waiting on it can ever run. */
  predicate Bad(st: TaskState) {
    st.Failed? || st.Canceled?
  }

  predicate Final(st: TaskState) {
    st.Finished? || Bad(st)
  }

  datatype ErrorCode = NotFound | AlreadyExists | FailedPrecondition

  datatype Request =
    | Add(id: string, parentIds: seq<string>, queues: seq<string>, priority: real, fn: string, input: string)
    | Get(worker: string, queues: seq<string>)
    | Done(id: string, worker: string, output: string, failed: bool)
    | Cancel(id: string)
    | SetPriority(id: string, priority: real)
    | GetPriority(id: string)
    | GetStatus(ids: seq<string>)
    | GetOutput(id: string)
    | GetWorkerId(id: string)
    | GetCountByState

  datatype Counts = Counts(waiting: nat, ready: nat, running: nat, finished: nat, failed: nat, canceled: nat)

  datatype Reply =
    | Accepted
    | Claimed(id: string, fn: string, input: string)
    | CancelResult(success: bool)
    | PriorityIs(priority: real)
    | StatesAre(states: seq<TaskState>)
    | OutputIs(output: string)
    | WorkerIs(worker: string)
    | CountsAre(counts: Counts)
    | Refused(code: ErrorCode)

  const CANCELED_OUTPUT := "Task canceled"

  /** What a row reports that was canceled, or that failed because `originId` failed. */
  function TerminalOutput(st: TaskState, originId: string): string {
    if st.Failed? then "Dependency failed (task_id=" + originId + ")" else CANCELED_OUTPUT
  }
}
