/**
 * `wait_task` (blueprints/admin.py): poll a hypervisor task until it reports
 * "stopped", then classify its `exitstatus`.
 *
 * Time is abstracted: the deadline is computed once at entry, and `replies`
 * is the sequence of answers the status query gives to the polls that start
 * before it. Running out of replies is the timeout.
 */
module TaskWaiter {
  import opened Wrappers

  /** One answer of `nodes(node).tasks(upid).status.get()`; `StatusError` when the call raises. */
  datatype TaskReply =
    | TaskStatus(status: Option<string>, exitstatus: Option<string>)
    | StatusError

  /** How `wait_task` ends: it returns, or raises one of three ways. */
  datatype TaskOutcome =
    | Completed                                  // returns normally
    | TaskFailed(exitstatus: Option<string>)     // "Task Proxmox fallito: ..."
    | TaskTimeout                                // "Timeout: task Proxmox non terminato in tempo"
    | QueryFailed                                // the status call's own exception propagates

  datatype TaskRun = TaskRun(outcome: TaskOutcome, polls: nat)

  /** A reply after which `wait_task` keeps polling. */
  predicate StillRunning(r: TaskReply) {
    r.TaskStatus? && r.status != Some("stopped")
  }

  /** What `wait_task` does with `replies`: its outcome and how many polls it made. */
  function Wait(replies: seq<TaskReply>): (run: TaskRun)
    ensures run.polls <= |replies|
  {
    if replies == [] then TaskRun(TaskTimeout, 0)
    else
      match replies[0]
      case StatusError => TaskRun(QueryFailed, 1)
      case TaskStatus(status, exitstatus) =>
        if status == Some("stopped") then
          TaskRun(if exitstatus == Some("OK") then Completed else TaskFailed(exitstatus), 1)
        else
          var rest := Wait(replies[1..]);
          TaskRun(rest.outcome, rest.polls + 1)
  }

  /** The loop of `wait_task`. */
  method WaitTask(replies: seq<TaskReply>) returns (outcome: TaskOutcome, polls: nat)
    ensures TaskRun(outcome, polls) == Wait(replies)
  {
    var i := 0;
    while i < |replies|
      invariant 0 <= i <= |replies|
      invariant Wait(replies) == TaskRun(Wait(replies[i..]).outcome, Wait(replies[i..]).polls + i)
    {
      assert replies[i..][1..] == replies[i + 1..];
      var st := replies[i];
      if st.StatusError? {
        return QueryFailed, i + 1;
      }
      if st.status == Some("stopped") {
        if st.exitstatus == Some("OK") {
          return Completed, i + 1;
        }
        return TaskFailed(st.exitstatus), i + 1;
      }
      i := i + 1;
    }
    assert replies[i..] == [];
    return TaskTimeout, i;
  }

  // ------------------------------------------------------------- lemmas

  /**
   * Every outcome but the timeout is decided by the last poll made, and
   * every poll before it reported a running task: nothing is polled after a
   * stopped reply.
   */
  lemma {:induction false} WaitStopsAtFirstAnswer(replies: seq<TaskReply>)
    ensures var run := Wait(replies);
      forall j :: 0 <= j < run.polls - 1 ==> StillRunning(replies[j])
    ensures var run := Wait(replies);
      run.outcome != TaskTimeout ==> run.polls >= 1 && !StillRunning(replies[run.polls - 1])
  {
    if replies != [] && StillRunning(replies[0]) {
      WaitStopsAtFirstAnswer(replies[1..]);
      assert forall j :: 1 <= j < |replies| ==> replies[1..][j - 1] == replies[j];
    }
  }

  /** Success exactly when the first non-running reply is "stopped" with exitstatus "OK". */
  lemma {:induction false} CompletedIff(replies: seq<TaskReply>)
    ensures Wait(replies).outcome == Completed <==>
      exists i :: 0 <= i < |replies| && replies[i] == TaskStatus(Some("stopped"), Some("OK"))
        && forall j :: 0 <= j < i ==> StillRunning(replies[j])
  {
    if replies != [] {
      CompletedIff(replies[1..]);
      var ok := TaskStatus(Some("stopped"), Some("OK"));
      if StillRunning(replies[0]) {
        if Wait(replies).outcome == Completed {
          var i :| 0 <= i < |replies[1..]| && replies[1..][i] == ok
            && forall j :: 0 <= j < i ==> StillRunning(replies[1..][j]);
          assert replies[i + 1] == ok;
          assert forall j :: 0 <= j < i + 1 ==> StillRunning(replies[j]) by {
            forall j | 0 <= j < i + 1 ensures StillRunning(replies[j]) {
              if j > 0 { assert replies[j] == replies[1..][j - 1]; }
            }
          }
        }
        if exists i :: 0 <= i < |replies| && replies[i] == ok && forall j :: 0 <= j < i ==> StillRunning(replies[j]) {
          var i :| 0 <= i < |replies| && replies[i] == ok && forall j :: 0 <= j < i ==> StillRunning(replies[j]);
          assert i > 0;
          assert replies[1..][i - 1] == ok;
          assert forall j :: 0 <= j < i - 1 ==> StillRunning(replies[1..][j]) by {
            forall j | 0 <= j < i - 1 ensures StillRunning(replies[1..][j]) {
              assert replies[1..][j] == replies[j + 1];
            }
          }
        }
      } else {
        if Wait(replies).outcome == Completed {
          assert replies[0] == ok;
        }
      }
    }
  }

  /** The verdict `wait_task` gives on a reply that ends the polling. */
  function Verdict(r: TaskReply): TaskOutcome
    requires !StillRunning(r)
  {
    match r
    case StatusError => QueryFailed
    case TaskStatus(_, exitstatus) => if exitstatus == Some("OK") then Completed else TaskFailed(exitstatus)
  }

  /**
   * The first reply that does not show a running task decides the outcome,
   * after exactly that many polls: a task stopped with any exitstatus other
   * than "OK" fails with it at once.
   */
  lemma {:induction false} DecidedByFirstAnswer(replies: seq<TaskReply>, i: nat)
    requires i < |replies| && !StillRunning(replies[i])
    requires forall j :: 0 <= j < i ==> StillRunning(replies[j])
    ensures Wait(replies) == TaskRun(Verdict(replies[i]), i + 1)
  {
    if i > 0 {
      assert forall j :: 0 <= j < i - 1 ==> replies[1..][j] == replies[j + 1];
      DecidedByFirstAnswer(replies[1..], i - 1);
    }
  }

  /** Timeout exactly when every reply before the deadline shows a running task; never success then. */
  lemma {:induction false} TimeoutIff(replies: seq<TaskReply>)
    ensures Wait(replies).outcome == TaskTimeout <==> forall i :: 0 <= i < |replies| ==> StillRunning(replies[i])
    ensures Wait(replies).outcome == TaskTimeout ==> Wait(replies).polls == |replies|
  {
    if replies != [] {
      TimeoutIff(replies[1..]);
      if StillRunning(replies[0]) {
        assert forall i :: 1 <= i < |replies| ==> replies[i] == replies[1..][i - 1];
      }
    }
  }
}
