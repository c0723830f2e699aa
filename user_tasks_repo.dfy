/** The completion repository (infrastructure/database/repo/user_tasks.py):
    the tasks a user has not completed yet, recording a completion once, and
    the completion test. It reads and writes the table only, never the cache. */
module UserTaskRepository {
  import opened Common
  import opened Schema
  import opened Storage
  import TaskRepository

  /** Ids of the tasks the user has no completion row for. */
  function IncompleteIds(tasks: map<int, Task>, completions: map<CompletionKey, bool>, userId: int): set<int> {
    set id | id in tasks && (userId, id) !in completions
  }

  /** `select(UserTask.task_id).where(user_id == userId)` */
  function CompletedIds(completions: map<CompletionKey, bool>, userId: int): set<int> {
    set k | k in completions && k.0 == userId :: k.1
  }

  function PairIds(s: seq<(int, string)>): set<int> {
    set i | 0 <= i < |s| :: s[i].0
  }

  /** What `select(Task.task_id, Task.titles)` returns: each task's id and
      titles once, in an order the store chooses. */
  ghost predicate IsTitleScan(rows: seq<(int, map<string, string>)>, tasks: map<int, Task>) {
    && (forall j :: 0 <= j < |rows| ==> rows[j].0 in tasks && rows[j].1 == tasks[rows[j].0].titles)
    && (forall j, k :: 0 <= j < k < |rows| ==> rows[j].0 != rows[k].0)
    && tasks.Keys <= set j | 0 <= j < |rows| :: rows[j].0
  }

  /** The loop of get_incomplete_tasks as a function of the rows read so far:
      the rows without a completion, each paired with its projected title. */
  function Incomplete(rows: seq<(int, map<string, string>)>, completed: set<int>, language: string): seq<(int, string)> {
    if rows == [] then []
    else
      var n := |rows| - 1;
      Incomplete(rows[..n], completed, language)
      + (if rows[n].0 !in completed then [(rows[n].0, TaskRepository.ProjectTitle(rows[n].1, language))] else [])
  }

  lemma PairIdsAppend(s: seq<(int, string)>, t: seq<(int, string)>)
    ensures PairIds(s + t) == PairIds(s) + PairIds(t)
  {
    var st := s + t;
    forall x | x in PairIds(st) ensures x in PairIds(s) + PairIds(t) {
      var k :| 0 <= k < |st| && st[k].0 == x;
      if k < |s| {
        assert s[k].0 == x;
      } else {
        assert t[k - |s|].0 == x;
      }
    }
    forall x | x in PairIds(s) + PairIds(t) ensures x in PairIds(st) {
      if x in PairIds(s) {
        var k :| 0 <= k < |s| && s[k].0 == x;
        assert st[k].0 == x;
      } else {
        var k :| 0 <= k < |t| && t[k].0 == x;
        assert st[|s| + k].0 == x;
      }
    }
  }

  /** The ids listed are those of the rows without a completion. */
  lemma {:induction false} IncompleteIdsOf(rows: seq<(int, map<string, string>)>, completed: set<int>, language: string)
    ensures PairIds(Incomplete(rows, completed, language)) == set j | 0 <= j < |rows| && rows[j].0 !in completed :: rows[j].0
  {
    if rows != [] {
      var n := |rows| - 1;
      IncompleteIdsOf(rows[..n], completed, language);
      var tail := if rows[n].0 !in completed then [(rows[n].0, TaskRepository.ProjectTitle(rows[n].1, language))] else [];
      PairIdsAppend(Incomplete(rows[..n], completed, language), tail);
      assert forall j :: 0 <= j < n ==> rows[..n][j] == rows[j];
      if rows[n].0 !in completed {
        assert PairIds(tail) == {rows[n].0} by {
          assert tail[0].0 == rows[n].0;
        }
      }
    }
  }

  /** Each listed entry is a task without a completion, with its projected title. */
  lemma {:induction false} IncompleteEntries(rows: seq<(int, map<string, string>)>, completed: set<int>, language: string,
                                             tasks: map<int, Task>)
    requires forall j :: 0 <= j < |rows| ==> rows[j].0 in tasks && rows[j].1 == tasks[rows[j].0].titles
    ensures forall k :: 0 <= k < |Incomplete(rows, completed, language)| ==>
              var e := Incomplete(rows, completed, language)[k];
              e.0 in tasks && e.0 !in completed && e.1 == TaskRepository.ProjectTitle(tasks[e.0].titles, language)
  {
    if rows != [] {
      var n := |rows| - 1;
      assert forall j :: 0 <= j < n ==> rows[..n][j] == rows[j];
      IncompleteEntries(rows[..n], completed, language, tasks);
    }
  }

  /** Rows with distinct ids give entries with distinct ids. */
  lemma {:induction false} IncompleteDistinct(rows: seq<(int, map<string, string>)>, completed: set<int>, language: string)
    requires forall j, k :: 0 <= j < k < |rows| ==> rows[j].0 != rows[k].0
    ensures forall k, l :: 0 <= k < l < |Incomplete(rows, completed, language)| ==>
              Incomplete(rows, completed, language)[k].0 != Incomplete(rows, completed, language)[l].0
  {
    if rows != [] {
      var n := |rows| - 1;
      IncompleteDistinct(rows[..n], completed, language);
      IncompleteIdsOf(rows[..n], completed, language);
      var init := Incomplete(rows[..n], completed, language);
      forall k | 0 <= k < |init| ensures init[k].0 != rows[n].0 {
        assert init[k].0 in PairIds(init);
        var j :| 0 <= j < n && rows[..n][j].0 !in completed && rows[..n][j].0 == init[k].0;
        assert rows[..n][j] == rows[j];
      }
    }
  }

  class UserTaskRepo {
    const db: Db

    constructor (db: Db)
      ensures this.db == db
    {
      this.db := db;
    }

    method QueryTaskTitles() returns (rows: seq<(int, map<string, string>)>)
      requires db.Valid() && db.reachable
      ensures IsTitleScan(rows, db.tasks)
    {
      var tasks := db.tasks;
      var order := Enumerate(tasks.Keys);
      forall j | 0 <= j < |order| ensures order[j] in tasks {
        assert order[j] in Elements(order);
      }
      rows := seq(|order|, j requires 0 <= j < |order| => (order[j], tasks[order[j]].titles));
      forall id | id in tasks ensures id in set j | 0 <= j < |rows| :: rows[j].0 {
        assert id in Elements(order);
        var k :| 0 <= k < |order| && order[k] == id;
        assert rows[k].0 == id;
      }
    }

    /** get_incomplete_tasks: every task without a completion row for the
        user, once each, with its title for the locale; [] when the store fails. */
    method GetIncompleteTasks(userId: int, language: string) returns (r: seq<(int, string)>)
      requires db.Valid()
      ensures !db.reachable ==> r == []
      ensures db.reachable ==> PairIds(r) == IncompleteIds(db.tasks, db.userTasks, userId)
      ensures forall k, l :: 0 <= k < l < |r| ==> r[k].0 != r[l].0
      ensures forall k :: 0 <= k < |r| ==>
                r[k].0 in db.tasks && r[k].1 == TaskRepository.ProjectTitle(db.tasks[r[k].0].titles, language)
    {
      if !db.reachable {
        return [];  // the first query raises
      }
      var rows := QueryTaskTitles();
      var completed := CompletedIds(db.userTasks, userId);
      r := [];
      var i := 0;
      while i < |rows|
        invariant 0 <= i <= |rows|
        invariant r == Incomplete(rows[..i], completed, language)
      {
        assert rows[..i + 1][..i] == rows[..i];
        if rows[i].0 !in completed {
          r := r + [(rows[i].0, TaskRepository.ProjectTitle(rows[i].1, language))];
        }
        i := i + 1;
      }
      assert rows[..|rows|] == rows;
      IncompleteIdsOf(rows, completed, language);
      IncompleteEntries(rows, completed, language, db.tasks);
      IncompleteDistinct(rows, completed, language);
      assert PairIds(r) == IncompleteIds(db.tasks, db.userTasks, userId) by {
        forall id | id in IncompleteIds(db.tasks, db.userTasks, userId) ensures id in PairIds(r) {
          var j :| 0 <= j < |rows| && rows[j].0 == id;
          assert id !in completed;
        }
      }
    }

    /** complete_task: False when the row exists already; otherwise insert it
        with the default status; the insert fails (False, rolled back) when the
        store fails or the user or task does not exist. */
    method CompleteTask(userId: int, taskId: int) returns (ok: bool)
      requires db.Valid()
      modifies db`userTasks
      ensures db.Valid()
      ensures ok <==> old(db.reachable) && (userId, taskId) !in old(db.userTasks)
                      && userId in db.users && taskId in db.tasks
      ensures ok ==> db.userTasks == old(db.userTasks)[(userId, taskId) := DefaultStatus]
      ensures !ok ==> db.userTasks == old(db.userTasks)
    {
      if !db.reachable {
        return false;  // the check raises
      }
      if (userId, taskId) in db.userTasks {
        return false;  // already completed
      }
      if userId !in db.users || taskId !in db.tasks {
        return false;  // the foreign keys reject the insert; rolled back
      }
      db.userTasks := db.userTasks[(userId, taskId) := DefaultStatus];
      ok := true;
    }

    /** is_task_completed */
    method IsTaskCompleted(userId: int, taskId: int) returns (done: bool)
      ensures done <==> db.reachable && (userId, taskId) in db.userTasks
    {
      done := db.reachable && (userId, taskId) in db.userTasks;
    }
  }

  /** Completing the same task twice: the second call is refused and the
      single row stays as the first call wrote it. */
  method CompleteTwice(repo: UserTaskRepo, userId: int, taskId: int) returns (first: bool, second: bool)
    requires repo.db.Valid()
    modifies repo.db`userTasks
    ensures !second
    ensures first ==> repo.db.userTasks == old(repo.db.userTasks)[(userId, taskId) := DefaultStatus]
    ensures first || repo.db.userTasks == old(repo.db.userTasks)
  {
    first := repo.CompleteTask(userId, taskId);
    second := repo.CompleteTask(userId, taskId);
  }
}
