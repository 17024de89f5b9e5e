/** Schedules with their repository links, and the cron jobs that mirror them. */
module Schedules {
  import opened Prelude
  import opened ScheduleOrdering

  datatype Row = Row(name: string, paused: bool, cron: string, ordering: string)

  /** A registered cron job: its expression and whether it is running. */
  datatype Job = Job(cron: string, running: bool)

  datatype Schedule = Schedule(id: string, name: string, paused: bool, cron: string, repositories: seq<string>)

  datatype Update = Update(name: Option<string>, paused: Option<bool>, cron: Option<string>, repositories: Option<seq<string>>)

  datatype Failure = NotFound | AlreadyExists | Managed | NoJob

  function OrElse<T>(o: Option<T>, default: T): T {
    match o case Some(v) => v case None => default
  }

  /** Fields left undefined stay as they are; a list is stored as JSON. */
  function Updated(row: Row, u: Update): Row {
    Row(OrElse(u.name, row.name), OrElse(u.paused, row.paused), OrElse(u.cron, row.cron),
        if u.repositories.Some? then Stringify(u.repositories.value) else row.ordering)
  }

  /** The rows after the row of `id`, if any, took the update. */
  function Saved(rows: map<string, Row>, id: string, u: Update): map<string, Row> {
    if id in rows then rows[id := Updated(rows[id], u)] else rows
  }

  /** A column given by the update has that value, one left out has its old value. */
  predicate Given<T(==)>(given: Option<T>, before: T, after: T) {
    if given.Some? then after == given.value else after == before
  }

  /** What an update of `id` stores, column by column; other rows stay. */
  ghost predicate Stored(before: map<string, Row>, after: map<string, Row>, id: string, u: Update) {
    && after.Keys == before.Keys
    && (forall k | k in before && k != id :: after[k] == before[k])
    && (id in before ==>
          && Given(u.name, before[id].name, after[id].name)
          && Given(u.paused, before[id].paused, after[id].paused)
          && Given(u.cron, before[id].cron, after[id].cron)
          && (if u.repositories.Some? then after[id].ordering == Stringify(u.repositories.value) else after[id].ordering == before[id].ordering))
  }

  /** What a completed update of the row answers. */
  predicate Answers(before: Row, u: Update, s: Schedule, id: string) {
    && s.id == id && Given(u.name, before.name, s.name)
    && Given(u.paused, before.paused, s.paused) && Given(u.cron, before.cron, s.cron)
  }

  /** The update reached its row. */
  predicate Written(r: Result<Schedule, Failure>) {
    r.Ok? || r.error == NoJob
  }

  /** The schedule's repositories are the list, without repetitions. */
  ghost predicate ListedAs(s: Schedule, list: seq<string>) {
    s.repositories == Dedup(list) && (Distinct(list) ==> s.repositories == list)
  }

  /** The links of `id` are the set of the list; all others are as before. */
  ghost predicate Relinked(before: set<(string, string)>, after: set<(string, string)>, id: string, list: seq<string>) {
    forall l :: l in after <==> if l.0 == id then l.1 in list else l in before
  }

  /** Nothing removed, and at most links of `id` to the list added. */
  ghost predicate PartlyLinked(before: set<(string, string)>, after: set<(string, string)>, id: string, list: seq<string>) {
    before <= after && forall l | l in after - before :: l.0 == id && l.1 in list
  }

  function JobOf(row: Row): Job {
    Job(row.cron, !row.paused)
  }

  /** `rs` lists, in some order, the repositories linked to schedule `id`. */
  ghost predicate Enumerates(links: set<(string, string)>, id: string, rs: seq<string>) {
    Distinct(rs) && forall x :: x in rs <==> (id, x) in links
  }

  /** `order` is some enumeration of the links of `id` sorted by position in `ordering`. */
  ghost predicate ReadFrom(links: set<(string, string)>, id: string, ordering: string, order: seq<string>) {
    exists rs :: Enumerates(links, id, rs) && order == SortBy(rs, Key(ordering))
  }

  /** Read back from the JSON of a list of UUIDs whose set is the links: the list. */
  lemma {:induction false} ReadFromList(links: set<(string, string)>, id: string, r: seq<string>, order: seq<string>)
    requires AllUuid(r) && (forall x :: (id, x) in links <==> x in r)
    requires ReadFrom(links, id, Stringify(r), order)
    ensures order == Dedup(r) && (Distinct(r) ==> order == r)
  {
    var rs :| Enumerates(links, id, rs) && order == SortBy(rs, Key(Stringify(r)));
    ReadBackIsTheList(r, rs);
  }

  /** The two tables. A link's pair is its primary key and both ends are foreign
      keys; `repositories` are the ids of existing repositories. */
  class ScheduleRepository {
    var rows: map<string, Row>
    var links: set<(string, string)>
    var repositories: set<string>

    constructor (repositories: set<string>)
      ensures rows == map[] && links == {} && this.repositories == repositories
    {
      rows, links := map[], {};
      this.repositories := repositories;
    }

    ghost predicate Valid()
      reads this
    {
      && (forall x | x in repositories :: IsUuid(x))
      && (forall l | l in links :: l.0 in rows && l.1 in repositories)
    }

    /** The database returns the links of a schedule in no particular order. */
    method GetRepositoryIds(id: string) returns (rs: seq<string>)
      ensures Enumerates(links, id, rs)
    {
      rs := [];
      var left := links;
      while left != {}
        invariant left <= links && Distinct(rs)
        invariant forall x :: x in rs <==> (id, x) in links - left
        decreases |left|
      {
        var l :| l in left;
        left := left - {l};
        if l.0 == id { rs := rs + [l.1]; }
      }
    }

    method Get(id: string) returns (r: Result<Schedule, Failure>)
      ensures r.Ok? <==> id in rows
      ensures r.Ok? ==>
        && r.value == Schedule(id, rows[id].name, rows[id].paused, rows[id].cron, r.value.repositories)
        && ReadFrom(links, id, rows[id].ordering, r.value.repositories)
    {
      if id !in rows { return Err(NotFound); }
      var row := rows[id];
      var rs := GetRepositoryIds(id);
      r := Ok(Schedule(id, row.name, row.paused, row.cron, SortBy(rs, x => IndexOf(row.ordering, x))));
      SortByExtensional(rs, x => IndexOf(row.ordering, x), Key(row.ordering));
    }

    method UpdateSchedule(id: string, u: Update) returns (r: Result<(), Failure>)
      modifies this`rows
      ensures r == if id in old(rows) then Ok(()) else Err(NotFound)
      ensures rows == Saved(old(rows), id, u) && Stored(old(rows), rows, id, u)
    {
      if id !in rows { return Err(NotFound); }
      rows := rows[id := Updated(rows[id], u)];
      return Ok(());
    }

    /** The links hold exactly the list for `id`: the schedule reads back the list. */
    lemma {:induction false} ListReadBack(id: string, list: seq<string>, order: seq<string>)
      requires Valid() && forall x :: (id, x) in links <==> x in list
      requires ReadFrom(links, id, Stringify(list), order)
      ensures order == Dedup(list) && (Distinct(list) ==> order == list)
    {
      forall x | x in list ensures IsUuid(x) { assert (id, x) in links; }
      ReadFromList(links, id, list, order);
    }

    /** The update followed by the read that answers it. */
    method UpdateAndGet(id: string, u: Update) returns (r: Result<Schedule, Failure>)
      requires Valid() && (u.repositories.Some? ==> forall x :: (id, x) in links <==> x in u.repositories.value)
      modifies this`rows
      ensures Valid() && rows == Saved(old(rows), id, u) && Stored(old(rows), rows, id, u)
      ensures r.Ok? <==> id in rows
      ensures r.Ok? ==> Answers(old(rows)[id], u, r.value, id)
      ensures r.Ok? ==> JobOf(rows[id]) == Job(r.value.cron, !r.value.paused)
      ensures r.Ok? && u.repositories.Some? ==> ListedAs(r.value, u.repositories.value)
      ensures r.Err? ==> r.error == NotFound
    {
      var saved := UpdateSchedule(id, u);
      if saved.Err? { return Err(saved.error); }
      r := Get(id);
      if u.repositories.Some? { ListReadBack(id, u.repositories.value, r.value.repositories); }
    }

    method AddRepository(id: string, x: string) returns (r: Result<(), Failure>)
      modifies this`links
      ensures r.Ok? <==> id in rows && x in repositories && (id, x) !in old(links)
      ensures r.Err? ==> r.error in {NotFound, AlreadyExists}
      ensures links == if r.Ok? then old(links) + {(id, x)} else old(links)
    {
      if id !in rows || x !in repositories { return Err(NotFound); }
      if (id, x) in links { return Err(AlreadyExists); }
      links := links + {(id, x)};
      return Ok(());
    }

    method RemoveRepository(id: string, x: string)
      modifies this`links
      ensures links == old(links) - {(id, x)}
    {
      links := links - {(id, x)};
    }
  }

  lemma {:induction false} SortByExtensional(xs: seq<string>, f: string -> int, g: string -> int)
    requires forall x | x in xs :: f(x) == g(x)
    ensures SortBy(xs, f) == SortBy(xs, g)
  {
    if xs != [] {
      SortByExtensional(xs[1..], f, g);
      SortMembers(xs[1..], g);
      InsertExtensional(xs[0], SortBy(xs[1..], g), f, g);
    }
  }

  lemma {:induction false} SortMembers(xs: seq<string>, g: string -> int)
    ensures forall x :: x in SortBy(xs, g) <==> x in xs
  {
    if xs != [] {
      SortMembers(xs[1..], g);
      InsertElements(xs[0], SortBy(xs[1..], g), g);
    }
  }

  lemma {:induction false} InsertExtensional(x: string, ys: seq<string>, f: string -> int, g: string -> int)
    requires f(x) == g(x) && forall y | y in ys :: f(y) == g(y)
    ensures Insert(x, ys, f) == Insert(x, ys, g)
  {
    if ys != [] { InsertExtensional(x, ys[1..], f, g); }
  }

  class ScheduleService {
    const schedule: ScheduleRepository
    var registry: map<string, Job>
    var cronJobs: set<string>

    /** History: rows of refused creates since the last bootstrap. */
    ghost var refused: set<string>

    constructor (schedule: ScheduleRepository)
      ensures this.schedule == schedule && registry == map[] && cronJobs == {} && refused == {}
    {
      this.schedule := schedule;
      registry, cronJobs, refused := map[], {}, {};
    }

    /** The service knows every job it registered. */
    ghost predicate Registered()
      reads this
    {
      cronJobs == registry.Keys
    }

    /** What every operation keeps: the jobs are those of the rows, with the row's
        expression and running unless the row is paused, except that the row of a
        refused create has none until the next bootstrap. */
    ghost predicate Tracked()
      reads this, schedule
    {
      && Registered() && refused <= schedule.rows.Keys
      && registry == map id | id in schedule.rows && id !in refused :: JobOf(schedule.rows[id])
    }

    /** The registry mirrors the table: one job per schedule. */
    ghost predicate Mirror()
      reads this, schedule
    {
      && Registered()
      && registry == map id | id in schedule.rows :: JobOf(schedule.rows[id])
    }

    /** Exactly when: no row of a refused create is left. */
    lemma {:induction false} MirrorIff()
      requires Tracked()
      ensures Mirror() <==> refused == {}
    {
      if refused != {} {
        var id :| id in refused;
        assert id in schedule.rows && id !in registry;
      }
    }

    /** Registering a name twice throws; under `Registered` that cannot happen here. */
    method CreateCronJob(id: string, cron: string, paused: bool)
      requires Registered() && id !in registry
      modifies this`registry, this`cronJobs
      ensures Registered() && registry == old(registry)[id := Job(cron, !paused)]
    {
      cronJobs := cronJobs + {id};
      registry := registry[id := Job(cron, !paused)];
    }

    /** From any registered state, whatever the table now holds, the mirror. */
    method Bootstrap()
      requires Registered()
      modifies this
      ensures Mirror() && Tracked() && refused == {}
      ensures registry.Keys == cronJobs == schedule.rows.Keys
      ensures forall id | id in registry :: registry[id] == Job(schedule.rows[id].cron, !schedule.rows[id].paused)
    {
      var left := cronJobs;
      while left != {}
        invariant left <= cronJobs && registry.Keys == left
        decreases |left|
      {
        var id :| id in left;
        registry := registry - {id};
        left := left - {id};
      }
      cronJobs := {};
      refused := {};
      var todo := schedule.rows.Keys;
      while todo != {}
        invariant todo <= schedule.rows.Keys && Registered() && refused == {}
        invariant registry == map id | id in schedule.rows && id !in todo :: JobOf(schedule.rows[id])
        decreases |todo|
      {
        var id :| id in todo;
        CreateCronJob(id, schedule.rows[id].cron, schedule.rows[id].paused);
        todo := todo - {id};
      }
    }

    /** A repeated or unknown repository makes a link insertion throw after the row
        was inserted; the row then waits for the next bootstrap to get its job. */
    method CreateSchedule(id: string, name: string, cron: string, repositories: seq<string>) returns (r: Result<(), Failure>)
      requires schedule.Valid() && Tracked() && id !in schedule.rows
      modifies this, schedule`rows, schedule`links
      ensures schedule.Valid() && Tracked()
      ensures r.Ok? <==> Distinct(repositories) && forall x | x in repositories :: x in schedule.repositories
      ensures schedule.rows == old(schedule.rows)[id := Row(name, false, cron, Stringify([]))]
      ensures r.Ok? ==> schedule.links == old(schedule.links) + set x | x in repositories :: (id, x)
      ensures r.Err? ==> PartlyLinked(old(schedule.links), schedule.links, id, repositories)
      ensures refused == if r.Ok? then old(refused) else old(refused) + {id}
      ensures registry == if r.Ok? then old(registry)[id := Job(cron, true)] else old(registry)
    {
      schedule.rows := schedule.rows[id := Row(name, false, cron, Stringify([]))];
      r := AddLinks(id, repositories);
      if r.Err? {
        refused := refused + {id};
      } else {
        CreateCronJob(id, cron, false);
      }
    }

    /** Links are inserted one by one; the first that throws ends the loop. */
    method AddLinks(id: string, toAdd: seq<string>) returns (r: Result<(), Failure>)
      requires schedule.Valid()
      modifies schedule`links
      ensures schedule.Valid()
      ensures PartlyLinked(old(schedule.links), schedule.links, id, toAdd)
      ensures r.Ok? ==> schedule.links == old(schedule.links) + set x | x in toAdd :: (id, x)
      ensures id in schedule.rows ==>
        (r.Ok? <==> Linkable(id, toAdd) && forall x | x in toAdd :: (id, x) !in old(schedule.links))
      ensures r.Err? ==> r.error in {NotFound, AlreadyExists}
    {
      for i := 0 to |toAdd|
        invariant schedule.Valid()
        invariant schedule.links == old(schedule.links) + set x | x in toAdd[..i] :: (id, x)
        invariant forall j | 0 <= j < i :: toAdd[j] in schedule.repositories && (id, toAdd[j]) !in old(schedule.links)
        invariant Distinct(toAdd[..i])
      {
        r := schedule.AddRepository(id, toAdd[i]);
        if r.Err? {
          assert toAdd[i] in toAdd;
          assert (id, toAdd[i]) in schedule.links ==> toAdd[i] in toAdd[..i] || (id, toAdd[i]) in old(schedule.links);
          return;
        }
        assert toAdd[..i + 1] == toAdd[..i] + [toAdd[i]];
      }
      assert toAdd[..|toAdd|] == toAdd;
      r := Ok(());
    }

    method RemoveLinks(id: string, toRemove: seq<string>)
      requires schedule.Valid()
      modifies schedule`links
      ensures schedule.Valid()
      ensures schedule.links == old(schedule.links) - set x | x in toRemove :: (id, x)
    {
      for i := 0 to |toRemove|
        invariant schedule.links == old(schedule.links) - set x | x in toRemove[..i] :: (id, x)
      {
        schedule.RemoveRepository(id, toRemove[i]);
        assert toRemove[..i + 1] == toRemove[..i] + [toRemove[i]];
      }
      assert toRemove[..|toRemove|] == toRemove;
    }

    /** The differences between the linked and the requested repositories, applied
        one row at a time. */
    method Relink(id: string, repositories: seq<string>) returns (r: Result<(), Failure>)
      requires schedule.Valid()
      modifies schedule`links
      ensures schedule.Valid()
      ensures r.Ok? ==> Relinked(old(schedule.links), schedule.links, id, repositories)
      ensures r.Err? ==> PartlyLinked(old(schedule.links), schedule.links, id, repositories)
      ensures Linkable(id, repositories) ==> r.Ok?
      ensures r.Err? ==> r.error in {NotFound, AlreadyExists}
    {
      var linked := schedule.GetRepositoryIds(id);
      var toAdd := Filter(repositories, x => x !in linked);
      if Distinct(repositories) { FilterDistinct(repositories, x => x !in linked); }
      r := AddLinks(id, toAdd);
      if r.Ok? {
        var toRemove := Filter(linked, x => x !in repositories);
        RemoveLinks(id, toRemove);
      }
    }

    ghost predicate Linkable(id: string, repositories: seq<string>)
      reads schedule
    {
      id in schedule.rows && Distinct(repositories) && forall x | x in repositories :: x in schedule.repositories
    }

    /** The second half of an update: the row, the read-back and the cron job. On a
        row without a job the last step throws, with everything written. */
    method Save(id: string, u: Update) returns (r: Result<Schedule, Failure>)
      requires schedule.Valid() && Tracked()
      requires u.repositories.Some? ==> forall x :: (id, x) in schedule.links <==> x in u.repositories.value
      modifies this`registry, schedule`rows
      ensures schedule.Valid() && Tracked()
      ensures r.Ok? <==> id in old(schedule.rows) && id !in refused
      ensures r.Err? ==> r.error == if id in refused then NoJob else NotFound
      ensures schedule.rows == Saved(old(schedule.rows), id, u) && Stored(old(schedule.rows), schedule.rows, id, u)
      ensures r.Ok? ==> Answers(old(schedule.rows)[id], u, r.value, id)
      ensures r.Ok? ==> id in registry && registry[id] == Job(r.value.cron, !r.value.paused)
      ensures r.Ok? && u.repositories.Some? ==> ListedAs(r.value, u.repositories.value)
    {
      r := schedule.UpdateAndGet(id, u);
      if r.Err? { return; }
      var job := UpdateCronJob(id, r.value.cron, r.value.paused);
      if job.Err? { return Err(job.error); }
    }

    /** An update completes exactly when its links can be changed and the row has a
        job. Completed, it makes the links the set of the list and reads back the
        list itself. On a row without a job it throws with all of that written;
        failing earlier it keeps the rows and has at most added links. */
    method ApplyScheduleUpdate(id: string, u: Update) returns (r: Result<Schedule, Failure>)
      requires schedule.Valid() && Tracked()
      modifies this`registry, schedule`rows, schedule`links
      ensures schedule.Valid() && Tracked()
      ensures r.Ok? ==> id in old(schedule.rows) && id !in refused
      ensures r == Err(NoJob) ==> id in refused
      ensures Written(r) ==> Stored(old(schedule.rows), schedule.rows, id, u)
      ensures r.Ok? ==> Answers(old(schedule.rows)[id], u, r.value, id)
      ensures r.Ok? ==> id in registry && registry[id] == Job(r.value.cron, !r.value.paused)
      ensures !Written(r) ==> schedule.rows == old(schedule.rows)
      ensures r.Ok? && u.repositories.Some? ==> ListedAs(r.value, u.repositories.value)
      ensures Written(r) && u.repositories.Some? ==> Relinked(old(schedule.links), schedule.links, id, u.repositories.value)
      ensures !Written(r) && u.repositories.Some? ==> PartlyLinked(old(schedule.links), schedule.links, id, u.repositories.value)
      ensures u.repositories.None? ==> schedule.links == old(schedule.links) && (Written(r) <==> id in old(schedule.rows))
      ensures u.repositories.Some? && old(Linkable(id, u.repositories.value)) ==> Written(r)
    {
      if u.repositories.Some? {
        var linked := Relink(id, u.repositories.value);
        if linked.Err? { return Err(linked.error); }
      }
      r := Save(id, u);
    }

    /** The job of an unknown name cannot be fetched. */
    method UpdateCronJob(id: string, cron: string, paused: bool) returns (r: Result<(), Failure>)
      modifies this`registry
      ensures r == if id in old(registry) then Ok(()) else Err(NoJob)
      ensures registry == if r.Ok? then old(registry)[id := Job(cron, !paused)] else old(registry)
    {
      if id !in registry { return Err(NoJob); }
      var job := registry[id].(cron := cron);
      if paused { job := job.(running := false); } else { job := job.(running := true); }
      registry := registry[id := job];
      r := Ok(());
    }

    /** A schedule without a job, refused or unknown, is deleted as far as it exists
        and then throws; afterwards nothing of it is left. */
    method RemoveSchedule(id: string, managed: bool) returns (r: Result<(), Failure>)
      requires schedule.Valid() && Tracked()
      modifies this, schedule`rows, schedule`links
      ensures schedule.Valid() && Tracked()
      ensures r == if managed then Err(Managed) else if id in old(registry) then Ok(()) else Err(NoJob)
      ensures managed ==> schedule.rows == old(schedule.rows) && schedule.links == old(schedule.links) && refused == old(refused)
      ensures !managed ==> schedule.rows == old(schedule.rows) - {id} && refused == old(refused) - {id}
      ensures registry == if managed then old(registry) else old(registry) - {id}
      ensures !managed ==> forall l :: l in schedule.links <==> l in old(schedule.links) && l.0 != id
    {
      if managed { return Err(Managed); }
      schedule.rows := schedule.rows - {id};
      schedule.links := set l | l in schedule.links && l.0 != id;
      refused := refused - {id};
      if id !in registry { return Err(NoJob); }
      registry := registry - {id};
      cronJobs := cronJobs - {id};
      return Ok(());
    }
  }

  lemma {:induction false} FilterDistinct(xs: seq<string>, p: string -> bool)
    requires Distinct(xs)
    ensures Distinct(Filter(xs, p))
  {
    if xs != [] {
      assert Distinct(xs[1..]);
      assert xs[0] !in xs[1..];
      FilterDistinct(xs[1..], p);
    }
  }
}
