/** The task table and its abort controllers. A controller is identified by the
    operation that created it; a signal is its controller's. */
module RunningTasks {
  import opened Prelude

  datatype TaskType = Schedule | Restore | Backup | Forget

  datatype TaskStatus = Incomplete | Complete | Failed

  datatype ScheduleItem = ScheduleItem(repositoryId: string, status: TaskStatus)

  datatype RunningTask = RunningTask(
    parentId: string,
    taskType: TaskType,
    logId: Option<string>,
    scheduleStatus: Option<seq<ScheduleItem>>)

  /** `linked` maps a controller to the signal it listens to; a link made after
      that signal fired would never fire and is not recorded. */
  datatype Table = Table(
    activeTasks: map<string, RunningTask>,
    controllers: map<string, nat>,
    aborted: set<nat>,
    linked: map<nat, nat>)

  const EMPTY_TABLE := Table(map[], map[], {}, map[])

  function Start(t: Table, parentId: string, taskType: TaskType, logId: Option<string>, controller: nat, signal: Option<nat>): Table {
    Table(t.activeTasks[parentId := RunningTask(parentId, taskType, logId, None)],
          t.controllers[parentId := controller],
          t.aborted,
          if signal.Some? && signal.value !in t.aborted then t.linked[controller := signal.value] else t.linked)
  }

  function UpdateStatus(t: Table, parentId: string, status: seq<ScheduleItem>): Result<Table, string> {
    if parentId in t.activeTasks
    then Ok(t.(activeTasks := t.activeTasks[parentId := t.activeTasks[parentId].(scheduleStatus := Some(status))]))
    else Err("Task for parent does not exist")
  }

  function End(t: Table, parentId: string): Table {
    t.(activeTasks := t.activeTasks - {parentId}, controllers := t.controllers - {parentId})
  }

  /** Does controller `d` listen, directly or through others, to `c`? */
  predicate Hears(linked: map<nat, nat>, d: nat, c: nat)
    decreases d
  {
    d == c || (d in linked && linked[d] < d && Hears(linked, linked[d], c))
  }

  /** Aborting an already aborted controller does nothing. */
  function Abort(t: Table, c: nat): Table {
    if c in t.aborted then t
    else t.(aborted := t.aborted + {c} + set d | d in t.linked && Hears(t.linked, d, c))
  }

  function Cancel(t: Table, parentId: string): Result<Table, string> {
    if parentId in t.controllers then Ok(Abort(t, t.controllers[parentId])) else Err("No running task for parent")
  }

  class RunningTasksRepository {
    var activeTasks: map<string, RunningTask>
    var controllers: map<string, nat>
    var aborted: set<nat>
    var linked: map<nat, nat>

    ghost function View(): Table
      reads this
    {
      Table(activeTasks, controllers, aborted, linked)
    }

    /** Every method keeps this. */
    ghost predicate Valid()
      reads this
    {
      activeTasks.Keys == controllers.Keys
    }

    constructor ()
      ensures Valid() && View() == EMPTY_TABLE
    {
      activeTasks, controllers, aborted, linked := map[], map[], {}, map[];
    }

    predicate CanStart(parentId: string)
      reads this
    {
      parentId !in activeTasks
    }

    method StartTask(parentId: string, taskType: TaskType, logId: Option<string>, controller: nat, signal: Option<nat>)
      modifies this
      ensures old(Valid()) ==> Valid()
      ensures View() == Start(old(View()), parentId, taskType, logId, controller, signal)
      ensures activeTasks == old(activeTasks)[parentId := RunningTask(parentId, taskType, logId, None)]
      ensures controllers == old(controllers)[parentId := controller] && aborted == old(aborted)
      ensures linked == if signal.Some? && signal.value !in aborted then old(linked)[controller := signal.value] else old(linked)
      ensures !CanStart(parentId)
    {
      if signal.Some? && signal.value !in aborted {
        linked := linked[controller := signal.value];
      }
      activeTasks := activeTasks[parentId := RunningTask(parentId, taskType, logId, None)];
      controllers := controllers[parentId := controller];
    }

    method UpdateTask(parentId: string, status: seq<ScheduleItem>) returns (r: Result<(), string>)
      modifies this
      ensures old(Valid()) ==> Valid()
      ensures r.Ok? <==> parentId in old(activeTasks)
      ensures r.Ok? ==> Ok(View()) == UpdateStatus(old(View()), parentId, status)
      ensures r.Ok? ==> var task := old(activeTasks)[parentId];
        activeTasks == old(activeTasks)[parentId := RunningTask(task.parentId, task.taskType, task.logId, Some(status))]
      ensures controllers == old(controllers) && aborted == old(aborted) && linked == old(linked)
      ensures r.Err? ==> activeTasks == old(activeTasks)
    {
      if parentId !in activeTasks {
        return Err("Task for parent does not exist");
      }
      activeTasks := activeTasks[parentId := activeTasks[parentId].(scheduleStatus := Some(status))];
      return Ok(());
    }

    method EndTask(parentId: string)
      modifies this
      ensures old(Valid()) ==> Valid()
      ensures View() == End(old(View()), parentId)
      ensures activeTasks == old(activeTasks) - {parentId} && controllers == old(controllers) - {parentId}
      ensures aborted == old(aborted) && linked == old(linked)
      ensures CanStart(parentId)
    {
      activeTasks := activeTasks - {parentId};
      controllers := controllers - {parentId};
    }

    method CancelTask(parentId: string) returns (r: Result<(), string>)
      modifies this
      ensures old(Valid()) ==> Valid()
      ensures r.Ok? <==> parentId in old(controllers)
      ensures r.Ok? ==> Ok(View()) == Cancel(old(View()), parentId)
      ensures activeTasks == old(activeTasks) && controllers == old(controllers) && linked == old(linked)
      ensures r.Ok? && controllers[parentId] !in old(aborted) ==>
        forall d :: d in aborted <==> d in old(aborted) || d == controllers[parentId] || (d in linked && Hears(linked, d, controllers[parentId]))
      ensures r.Err? || controllers[parentId] in old(aborted) ==> aborted == old(aborted)
    {
      if parentId !in controllers {
        return Err("No running task for parent");
      }
      var c := controllers[parentId];
      if c !in aborted {
        aborted := aborted + {c} + set d | d in linked && Hears(linked, d, c);
      }
      return Ok(());
    }
  }
}
