/** The task repository (infrastructure/database/repo/tasks.py): cache-through
    CRUD over `tasks`, the `task:<id>` hash and the `tasks:all` list, and the
    locale projection applied to cached tasks. */
module TaskRepository {
  import opened Common
  import opened Schema
  import opened Storage

  const NoTitle: string := "No title available"
  const English: string := "en"

  /** A task as a cache hit hands it back: one title and at most one
      description, projected for the requested locale. */
  datatype TaskView = TaskView(
    taskId: int,
    title: string,
    source: string,
    link: string,
    cover: string,
    description: Option<string>,
    balance: int)

  /** What get_task_by_id and list_tasks return: a projected view on a cache
      hit, the stored row (every locale) when read from the table. */
  datatype TaskResult = Projected(view: TaskView) | Stored(task: Task)
  {
    function TaskId(): int {
      if Projected? then view.taskId else task.taskId
    }
    function Source(): string {
      if Projected? then view.source else task.source
    }
    function Link(): string {
      if Projected? then view.link else task.link
    }
    function Balance(): int {
      if Projected? then view.balance else task.balance
    }
  }

  /** The changes update_task applies; an absent field is left as it is. */
  datatype TaskPatch = TaskPatch(
    titles: Option<map<string, string>>,
    descriptions: Option<Option<map<string, string>>>,
    source: Option<string>,
    link: Option<string>,
    cover: Option<Option<string>>,
    balance: Option<int>)
  {
    predicate IsEmpty() {
      titles.None? && descriptions.None? && source.None? && link.None? && cover.None? && balance.None?
    }
  }

  /** The title for a locale: its own when present and non-empty, else the
      English one when present (even if empty), else the placeholder. */
  function ProjectTitle(titles: map<string, string>, language: string): (r: string)
    ensures language in titles && titles[language] != "" ==> r == titles[language]
    ensures r == NoTitle || r in titles.Values
    ensures r != NoTitle && (language !in titles || titles[language] == "") ==> English in titles && r == titles[English]
    ensures r == NoTitle && NoTitle !in titles.Values ==> English !in titles
  {
    if language in titles && titles[language] != "" then titles[language]
    else if English in titles then titles[English]
    else NoTitle
  }

  /** The description for a locale, with no English fallback; an absent or
      empty mapping gives none. */
  function ProjectDescription(descriptions: Option<map<string, string>>, language: string): (r: Option<string>)
    ensures r.Some? <==> descriptions.Some? && language in descriptions.value
    ensures r.Some? ==> r.value == descriptions.value[language]
  {
    if descriptions.Some? && descriptions.value != map[] && language in descriptions.value
    then Some(descriptions.value[language])
    else None
  }

  /** _serialize_task: a missing cover becomes the empty string; a missing or
      empty descriptions mapping is not stored. */
  function Serialize(t: Task): TaskHash {
    TaskHash(
      t.taskId,
      t.titles,
      t.source,
      t.link,
      if t.cover.Some? then t.cover.value else "",
      if t.descriptions.Some? && t.descriptions.value != map[] then t.descriptions else None,
      t.balance)
  }

  /** _deserialize_task */
  function Deserialize(h: TaskHash, language: string): TaskView {
    TaskView(
      h.taskId,
      ProjectTitle(h.titles, language),
      h.source,
      h.link,
      h.cover,
      ProjectDescription(h.descriptions, language),
      h.balance)
  }

  /** The projection of a stored task for a locale, read straight from its columns. */
  function View(t: Task, language: string): TaskView {
    TaskView(
      t.taskId,
      ProjectTitle(t.titles, language),
      t.source,
      t.link,
      if t.cover.Some? then t.cover.value else "",
      ProjectDescription(t.descriptions, language),
      t.balance)
  }

  /** Reading back what was cached for a task yields its own id, source, link,
      balance and the projection of its own titles and descriptions; a missing
      cover comes back as the empty string. */
  lemma DeserializeSerialize(t: Task, language: string)
    ensures Deserialize(Serialize(t), language) == View(t, language)
    ensures var v := Deserialize(Serialize(t), language);
            && v.taskId == t.taskId && v.source == t.source && v.link == t.link && v.balance == t.balance
            && (t.cover.None? ==> v.cover == "")
  {
  }

  /** A locale without its own title falls back to English, then to the placeholder. */
  lemma TitleFallback(t: Task, language: string)
    requires language !in t.titles
    ensures English in t.titles ==> Deserialize(Serialize(t), language).title == t.titles[English]
    ensures English !in t.titles ==> Deserialize(Serialize(t), language).title == NoTitle
  {
  }

  function TaskOf(id: int, f: TaskFields): Task {
    Task(id, f.titles, f.descriptions, f.source, f.link, f.cover, f.balance)
  }

  function Apply(t: Task, p: TaskPatch): Task {
    Task(
      t.taskId,
      if p.titles.Some? then p.titles.value else t.titles,
      if p.descriptions.Some? then p.descriptions.value else t.descriptions,
      if p.source.Some? then p.source.value else t.source,
      if p.link.Some? then p.link.value else t.link,
      if p.cover.Some? then p.cover.value else t.cover,
      if p.balance.Some? then p.balance.value else t.balance)
  }

  /** The UPDATE raises when the store fails, when there is nothing to SET, or
      when the new balance does not fit its column. */
  predicate PatchAccepted(reachable: bool, p: TaskPatch) {
    reachable && !p.IsEmpty() && (p.balance.Some? ==> InInt32(p.balance.value))
  }

  /** ON DELETE CASCADE of `user_tasks.task_id`. */
  function WithoutTask(completions: map<CompletionKey, bool>, id: int): (r: map<CompletionKey, bool>)
    ensures forall k :: k in r ==> k in completions && k.1 != id
    ensures forall k :: k in completions && k.1 != id ==> k in r && r[k] == completions[k]
  {
    map k | k in completions && k.1 != id :: completions[k]
  }

  function HashIds(hs: seq<TaskHash>): set<int> {
    set i | 0 <= i < |hs| :: hs[i].taskId
  }

  /** A cached list is exactly the table: one serialized entry per row. */
  ghost predicate ListsTable(hs: seq<TaskHash>, tasks: map<int, Task>) {
    && (forall i :: 0 <= i < |hs| ==> hs[i].taskId in tasks && hs[i] == Serialize(tasks[hs[i].taskId]))
    && (forall i, j :: 0 <= i < j < |hs| ==> hs[i].taskId != hs[j].taskId)
    && tasks.Keys <= HashIds(hs)
  }

  /** Every cached task hash and the cached list mirror the table. */
  ghost predicate TasksCoherent(db: Db, cache: Cache)
    reads db, cache
  {
    && (forall id :: id in cache.tasks ==> id in db.tasks && cache.tasks[id] == Serialize(db.tasks[id]))
    && (cache.tasksAll.Some? ==> ListsTable(cache.tasksAll.value, db.tasks))
  }

  function ResultIds(r: seq<TaskResult>): set<int> {
    set i | 0 <= i < |r| :: r[i].TaskId()
  }

  /** A task listing covers the table: each row once, with its own source, link and balance. */
  ghost predicate ListsTasks(r: seq<TaskResult>, tasks: map<int, Task>) {
    && (forall i :: 0 <= i < |r| ==>
          r[i].TaskId() in tasks && r[i].Source() == tasks[r[i].TaskId()].source
          && r[i].Link() == tasks[r[i].TaskId()].link && r[i].Balance() == tasks[r[i].TaskId()].balance)
    && (forall i, j :: 0 <= i < j < |r| ==> r[i].TaskId() != r[j].TaskId())
    && ResultIds(r) == tasks.Keys
  }

  /** The "en" projections of a cached list, in its order. */
  function Views(hs: seq<TaskHash>): (r: seq<TaskResult>)
    ensures |r| == |hs|
    ensures forall i :: 0 <= i < |hs| ==>
              && r[i].Projected?
              && r[i].TaskId() == hs[i].taskId && r[i].Source() == hs[i].source
              && r[i].Link() == hs[i].link && r[i].Balance() == hs[i].balance
              && r[i].view.title == ProjectTitle(hs[i].titles, English)
  {
    seq(|hs|, i requires 0 <= i < |hs| => Projected(Deserialize(hs[i], English)))
  }

  /** Under coherence, a warm listing lists the same tasks as the table. */
  lemma WarmListingListsTable(hs: seq<TaskHash>, tasks: map<int, Task>)
    requires ListsTable(hs, tasks)
    ensures ListsTasks(Views(hs), tasks)
  {
    var r := Views(hs);
    forall i | 0 <= i < |r| ensures r[i].TaskId() == hs[i].taskId {
    }
    assert ResultIds(r) == HashIds(hs);
  }

  function RowIds(rows: seq<Task>): set<int> {
    set i | 0 <= i < |rows| :: rows[i].taskId
  }

  /** What a full scan of `tasks` returns: each row once, in some order. */
  ghost predicate IsTableScan(rows: seq<Task>, tasks: map<int, Task>) {
    && (forall i :: 0 <= i < |rows| ==> rows[i].taskId in tasks && tasks[rows[i].taskId] == rows[i])
    && (forall i, j :: 0 <= i < j < |rows| ==> rows[i].taskId != rows[j].taskId)
    && tasks.Keys <= RowIds(rows)
  }

  function StoredAll(rows: seq<Task>): (r: seq<TaskResult>)
    ensures |r| == |rows| && forall i :: 0 <= i < |rows| ==> r[i] == Stored(rows[i])
  {
    seq(|rows|, i requires 0 <= i < |rows| => Stored(rows[i]))
  }

  function SerializeAll(rows: seq<Task>): (r: seq<TaskHash>)
    ensures |r| == |rows| && forall i :: 0 <= i < |rows| ==> r[i] == Serialize(rows[i])
  {
    seq(|rows|, i requires 0 <= i < |rows| => Serialize(rows[i]))
  }

  /** A full scan, returned as rows, lists the table. */
  lemma ScanListsTable(rows: seq<Task>, tasks: map<int, Task>)
    requires IsTableScan(rows, tasks)
    ensures ListsTasks(StoredAll(rows), tasks)
  {
    var r := StoredAll(rows);
    assert ResultIds(r) == RowIds(rows) by {
      forall id | id in RowIds(rows) ensures id in ResultIds(r) {
        var k :| 0 <= k < |rows| && rows[k].taskId == id;
        assert r[k].TaskId() == id;
      }
    }
  }

  /** A full scan, cached as serializations, is a list cache that mirrors the table. */
  lemma ScanCachesTable(rows: seq<Task>, tasks: map<int, Task>)
    requires IsTableScan(rows, tasks)
    ensures ListsTable(SerializeAll(rows), tasks)
  {
    var hs := SerializeAll(rows);
    assert HashIds(hs) == RowIds(rows) by {
      forall id | id in RowIds(rows) ensures id in HashIds(hs) {
        var k :| 0 <= k < |rows| && rows[k].taskId == id;
        assert hs[k].taskId == id;
      }
    }
  }

  class TasksRepo {
    const db: Db
    const cache: Cache

    constructor (db: Db, cache: Cache)
      ensures this.db == db && this.cache == cache
    {
      this.db := db;
      this.cache := cache;
    }

    /** _cache_task */
    method CacheTask(t: Task)
      modifies cache`tasks
      ensures cache.tasks == old(cache.tasks)[t.taskId := Serialize(t)]
    {
      cache.tasks := cache.tasks[t.taskId := Serialize(t)];
    }

    /** create_task: insert and commit, cache the new task, drop `tasks:all`. */
    method CreateTask(fields: TaskFields) returns (r: Option<Task>)
      requires db.Valid()
      modifies db`tasks, db`nextTaskId, cache`tasks, cache`tasksAll
      ensures db.Valid()
      ensures r.Some? <==> old(db.reachable) && InInt32(fields.balance)
      ensures r.Some? ==>
                && r.value == TaskOf(old(db.nextTaskId), fields)
                && r.value.taskId !in old(db.tasks)
                && db.tasks == old(db.tasks)[r.value.taskId := r.value]
                && cache.tasks == old(cache.tasks)[r.value.taskId := Serialize(r.value)]
                && cache.tasksAll.None?
      ensures r.None? ==>
                && db.tasks == old(db.tasks) && db.nextTaskId == old(db.nextTaskId)
                && cache.tasks == old(cache.tasks) && cache.tasksAll == old(cache.tasksAll)
      ensures old(TasksCoherent(db, cache)) ==> TasksCoherent(db, cache)
    {
      if !db.reachable || !InInt32(fields.balance) {
        return None;  // the INSERT raises; rolled back
      }
      var task := TaskOf(db.nextTaskId, fields);
      db.tasks := db.tasks[task.taskId := task];
      db.nextTaskId := db.nextTaskId + 1;
      CacheTask(task);
      cache.tasksAll := None;
      r := Some(task);
    }

    /** get_task_by_id: the projected cached hash on a hit (the table is not
        read); on a miss the stored row, cached, or nothing. */
    method GetTaskById(id: int, language: string) returns (r: Option<TaskResult>)
      requires db.Valid()
      modifies cache`tasks
      ensures id in old(cache.tasks) ==>
                r == Some(Projected(Deserialize(old(cache.tasks[id]), language))) && cache.tasks == old(cache.tasks)
      ensures id !in old(cache.tasks) ==>
                && r == (if db.reachable && id in db.tasks then Some(Stored(db.tasks[id])) else None)
                && cache.tasks == (if r.Some? then old(cache.tasks)[id := Serialize(db.tasks[id])] else old(cache.tasks))
      ensures old(TasksCoherent(db, cache)) ==> TasksCoherent(db, cache)
      ensures old(TasksCoherent(db, cache)) && r.Some? ==>
                && id in db.tasks && r.value.TaskId() == id
                && r.value.Source() == db.tasks[id].source && r.value.Link() == db.tasks[id].link
                && r.value.Balance() == db.tasks[id].balance
      ensures old(TasksCoherent(db, cache)) && r.Some? && r.value.Projected? ==> r.value.view == View(db.tasks[id], language)
    {
      if id in cache.tasks {
        if TasksCoherent(db, cache) {
          DeserializeSerialize(db.tasks[id], language);
        }
        return Some(Projected(Deserialize(cache.tasks[id], language)));
      }
      if !db.reachable {
        return None;  // the query raises
      }
      if id in db.tasks {
        var task := db.tasks[id];
        CacheTask(task);
        r := Some(Stored(task));
      } else {
        r := None;
      }
    }

    /** update_task: UPDATE ... RETURNING; only when a row matched: commit,
        re-cache it and drop `tasks:all`. */
    method UpdateTask(id: int, patch: TaskPatch) returns (r: Option<Task>)
      requires db.Valid()
      modifies db`tasks, cache`tasks, cache`tasksAll
      ensures db.Valid()
      ensures r.Some? <==> old(PatchAccepted(db.reachable, patch)) && id in old(db.tasks)
      ensures r.Some? ==>
                && r.value == Apply(old(db.tasks[id]), patch)
                && db.tasks == old(db.tasks)[id := r.value]
                && cache.tasks == old(cache.tasks)[id := Serialize(r.value)]
                && cache.tasksAll.None?
      ensures r.None? ==>
                db.tasks == old(db.tasks) && cache.tasks == old(cache.tasks) && cache.tasksAll == old(cache.tasksAll)
      ensures old(TasksCoherent(db, cache)) ==> TasksCoherent(db, cache)
    {
      if !PatchAccepted(db.reachable, patch) {
        return None;  // the UPDATE raises; rolled back
      }
      if id !in db.tasks {
        return None;  // no row matched
      }
      var task := Apply(db.tasks[id], patch);
      db.tasks := db.tasks[id := task];
      CacheTask(task);
      cache.tasksAll := None;
      r := Some(task);
    }

    /** delete_task: reports success whenever the DELETE runs, whether or not a
        row matched; completions of the task go with it (ON DELETE CASCADE). */
    method DeleteTask(id: int) returns (ok: bool)
      requires db.Valid()
      modifies db`tasks, db`userTasks, cache`tasks, cache`tasksAll
      ensures db.Valid()
      ensures ok == old(db.reachable)
      ensures ok ==>
                && db.tasks == old(db.tasks) - {id}
                && db.userTasks == WithoutTask(old(db.userTasks), id)
                && cache.tasks == old(cache.tasks) - {id}
                && cache.tasksAll.None?
      ensures !ok ==>
                && db.tasks == old(db.tasks) && db.userTasks == old(db.userTasks)
                && cache.tasks == old(cache.tasks) && cache.tasksAll == old(cache.tasksAll)
      ensures old(TasksCoherent(db, cache)) ==> TasksCoherent(db, cache)
    {
      if !db.reachable {
        return false;  // the DELETE raises; rolled back
      }
      db.tasks := db.tasks - {id};
      db.userTasks := WithoutTask(db.userTasks, id);
      cache.tasks := cache.tasks - {id};
      cache.tasksAll := None;
      ok := true;
    }

    /** `select(Task)`: every row once, in the order the store returns them. */
    method QueryAllTasks() returns (rows: seq<Task>)
      requires db.Valid()
      ensures IsTableScan(rows, db.tasks)
    {
      var tasks := db.tasks;
      var order := Enumerate(tasks.Keys);
      forall i | 0 <= i < |order| ensures order[i] in tasks {
        assert order[i] in Elements(order);
      }
      rows := seq(|order|, i requires 0 <= i < |order| => tasks[order[i]]);
      assert forall i :: 0 <= i < |rows| ==> rows[i].taskId == order[i];
      forall id | id in tasks ensures id in RowIds(rows) {
        assert id in Elements(order);
        var k :| 0 <= k < |order| && order[k] == id;
        assert rows[k].taskId == id;
      }
    }

    /** list_tasks: a cached list, even an empty one, is returned projected for
        "en"; otherwise every row, whose serializations become `tasks:all`. */
    method ListTasks() returns (r: seq<TaskResult>)
      requires db.Valid()
      modifies cache`tasksAll
      ensures old(cache.tasksAll).Some? ==> r == Views(old(cache.tasksAll).value) && cache.tasksAll == old(cache.tasksAll)
      ensures old(cache.tasksAll).None? && !db.reachable ==> r == [] && cache.tasksAll.None?
      ensures old(cache.tasksAll).None? && db.reachable ==>
                && (forall i :: 0 <= i < |r| ==> r[i].Stored?)
                && ListsTasks(r, db.tasks)
                && cache.tasksAll.Some? && ListsTable(cache.tasksAll.value, db.tasks)
      ensures old(TasksCoherent(db, cache)) ==> TasksCoherent(db, cache)
      ensures old(TasksCoherent(db, cache)) && (db.reachable || old(cache.tasksAll).Some?) ==> ListsTasks(r, db.tasks)
    {
      if cache.tasksAll.Some? {
        if TasksCoherent(db, cache) {
          WarmListingListsTable(cache.tasksAll.value, db.tasks);
        }
        return Views(cache.tasksAll.value);
      }
      if !db.reachable {
        return [];  // the query raises
      }
      var rows := QueryAllTasks();
      ScanListsTable(rows, db.tasks);
      ScanCachesTable(rows, db.tasks);
      cache.tasksAll := Some(SerializeAll(rows));
      r := StoredAll(rows);
    }
  }

  /** After an update, the list cache is gone and a read by id serves the new
      row: from the refreshed hash, projected for the locale. */
  method UpdateThenRead(repo: TasksRepo, id: int, patch: TaskPatch, language: string)
    returns (updated: Option<Task>, read: Option<TaskResult>)
    requires repo.db.Valid()
    modifies repo.db`tasks, repo.cache`tasks, repo.cache`tasksAll
    ensures updated.Some? ==> repo.cache.tasksAll.None?
    ensures updated.Some? ==> read == Some(Projected(View(updated.value, language)))
    ensures updated.Some? ==> read.value.view.title == ProjectTitle(updated.value.titles, language)
  {
    updated := repo.UpdateTask(id, patch);
    read := repo.GetTaskById(id, language);
    if updated.Some? {
      DeserializeSerialize(updated.value, language);
    }
  }
}
