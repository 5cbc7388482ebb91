/**
 * The application constants and the task catalog (db_config.php), with the two loops that
 * walk the catalog: building a fresh all-false status map, and listing the tasks with
 * their completion flags.
 */
module Config {
  import opened Wrappers

  const MAX_FREE_SPINS_PER_DAY := 20
  /** Ads a user may watch per day to earn spins. */
  const MAX_SPIN_ADS_PER_DAY := 10
  const SPINS_GAINED_PER_AD := 2
  /** Ads a user may watch per day to earn points. */
  const MAX_ADS_PER_DAY := 38
  const POINTS_PER_AD := 20
  const POINTS_PER_REFERRAL_FOR_REFERRER := 20
  const POINTS_PER_REFERRAL_FOR_REFERRED := 5

  datatype Task = Task(id: int, name: string, link: string, points: int)

  /** `$TASKS_CONFIG`, in its declaration order. */
  const Catalog: seq<Task> := [
    Task(1, "Telegram Channel Join 1", "https://t.me/WatchSpinEarn", 48),
    Task(2, "Telegram Group Join", "https://t.me/WatchSpinEarnchat", 48),
    Task(3, "Telegram Channel Join 2", "https://t.me/ShopEarnHub4102h", 48),
    Task(4, "Telegram Channel Join 3", "https://t.me/earningsceret", 48),
    Task(5, "Twitter Follow", "https://x.com/watchspin4102h", 48)
  ]

  /** The keys of `$TASKS_CONFIG`, which `TaskIdsAreCatalogKeys` ties to the catalog. */
  const TaskIds: set<int> := {1, 2, 3, 4, 5}

  /** The entry of `tasks` with key `id`, if there is one. */
  function TaskWithId(tasks: seq<Task>, id: int): (r: Option<Task>)
    ensures r.Some? ==> r.value in tasks && r.value.id == id
    ensures r.None? ==> forall t :: t in tasks ==> t.id != id
  {
    if tasks == [] then None
    else if tasks[0].id == id then Some(tasks[0])
    else TaskWithId(tasks[1..], id)
  }

  /** `isset($TASKS_CONFIG[$id])` and `$TASKS_CONFIG[$id]`. */
  function FindTask(id: int): (r: Option<Task>)
    ensures r.Some? <==> id in TaskIds
    ensures r.Some? ==> r.value in Catalog && r.value.id == id
  {
    TaskWithId(Catalog, id)
  }

  /** `TaskIds` are exactly the ids the catalog's entries carry. */
  lemma TaskIdsAreCatalogKeys()
    ensures TaskIds == set t | t in Catalog :: t.id
  {
    var keys := set t | t in Catalog :: t.id;
    forall id | id in keys ensures id in TaskIds {
      var t :| t in Catalog && t.id == id;
    }
    forall id | id in TaskIds ensures id in keys {
      assert Catalog[id - 1] in Catalog && Catalog[id - 1].id == id;
    }
  }

  /** Five tasks, ids 1 to 5, each worth 48 points; an id is a task id iff it is 1 to 5. */
  lemma CatalogShape(id: int)
    ensures |Catalog| == 5
    ensures FindTask(id).Some? <==> 1 <= id <= 5
    ensures FindTask(id).Some? ==> FindTask(id).value.points == 48
  {
    TaskIdsAreCatalogKeys();
  }

  /** The status map a new day (or a new user) starts from: every catalog id, not done. */
  ghost const FreshTaskStatus: map<int, bool> := map id | id in TaskIds :: false

  /** A task counts as done only if its key is present and true; a missing key reads false. */
  predicate Completed(status: map<int, bool>, id: int): (r: bool)
    ensures id !in status ==> !r
    ensures id in status ==> (r <==> status[id])
  {
    id in status && status[id]
  }

  /** The `foreach ($TASKS_CONFIG ...) $status[(string)$id] = false;` loop. */
  method InitialTaskStatus() returns (status: map<int, bool>)
    ensures status == FreshTaskStatus
    ensures status.Keys == TaskIds
    ensures forall id :: !Completed(status, id)
  {
    status := map[];
    var i := 0;
    while i < |Catalog|
      invariant 0 <= i <= |Catalog|
      invariant status.Keys == set j | 0 <= j < i :: Catalog[j].id
      invariant forall id :: id in status ==> !status[id]
    {
      status := status[Catalog[i].id := false];
      i := i + 1;
    }
    assert status.Keys == TaskIds by {
      forall id | id in TaskIds ensures id in status.Keys {
        assert Catalog[id - 1].id == id;
      }
    }
  }

  /** One line of the task list: the catalog entry merged with its `completed` flag. */
  datatype TaskView = TaskView(task: Task, completed: bool)

  /** The loop that builds `$tasksWithStatus` (get_tasks and completeTask). */
  method TasksWithStatus(status: map<int, bool>) returns (views: seq<TaskView>)
    ensures |views| == |Catalog|
    ensures forall i :: 0 <= i < |Catalog| ==>
      views[i].task == Catalog[i] && (views[i].completed <==> Completed(status, Catalog[i].id))
  {
    views := [];
    var i := 0;
    while i < |Catalog|
      invariant 0 <= i <= |Catalog| && |views| == i
      invariant forall j :: 0 <= j < i ==>
        views[j].task == Catalog[j] && (views[j].completed <==> Completed(status, Catalog[j].id))
    {
      var id := Catalog[i].id;
      views := views + [TaskView(Catalog[i], id in status && status[id])];
      i := i + 1;
    }
  }
}
