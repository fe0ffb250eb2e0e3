/** The quest log: quests keyed by id, each a list of tasks; gathering
    counts down matching gather tasks and completes a quest once every task
    is done. */
module Quests {
  import opened Base

  datatype TaskKind =
    | Gather(kind: string, count: nat)
    | Visit(marker: string)
    | Defeat(enemy: string, count: nat)

  datatype Task = Task(id: string, kind: TaskKind, done: bool)

  datatype Quest = Quest(id: string, title: string, tasks: seq<Task>, rewardText: string, completed: bool)

  /** One task after gathering `n` of `kind`: an open gather task of that
      kind counts down by `n`, and is done with count 0 once `n` reaches its
      count; every other task is left as it is. */
  function GatherTask(t: Task, kind: string, n: nat): Task {
    if t.kind.Gather? && t.kind.kind == kind && !t.done then
      if t.kind.count > n then t.(kind := Gather(kind, t.kind.count - n))
      else t.(kind := Gather(kind, 0), done := true)
    else t
  }

  /** The task list after gathering, task by task. */
  function GatherTasks(tasks: seq<Task>, kind: string, n: nat): (r: seq<Task>)
    ensures |r| == |tasks|
    ensures forall i :: 0 <= i < |tasks| ==> r[i] == GatherTask(tasks[i], kind, n)
  {
    seq(|tasks|, i requires 0 <= i < |tasks| => GatherTask(tasks[i], kind, n))
  }

  predicate AllDone(tasks: seq<Task>) {
    forall i :: 0 <= i < |tasks| ==> tasks[i].done
  }

  /** A quest after gathering: its tasks counted down, and completed once
      all are done (a completed quest stays completed). */
  function GatherQuest(q: Quest, kind: string, n: nat): Quest {
    var tasks := GatherTasks(q.tasks, kind, n);
    q.(tasks := tasks, completed := q.completed || AllDone(tasks))
  }

  class QuestLog {
    var quests: map<string, Quest>

    /** `QuestLog::default`: no quests. */
    constructor ()
      ensures quests == map[]
    {
      quests := map[];
    }

    /** `add`: stores the quest under its id, replacing any quest there. */
    method Add(q: Quest)
      modifies this
      ensures quests == old(quests)[q.id := q]
    {
      quests := quests[q.id := q];
    }

    /** `is_done`: an unknown id reads as not done. */
    function IsDone(id: string): (done: bool)
      reads this
      ensures done <==> id in quests && quests[id].completed
    {
      id in quests && quests[id].completed
    }

    /** `progress_gather`: an unknown quest id changes nothing. */
    method ProgressGather(id: string, kind: string, n: nat)
      modifies this
      ensures id in old(quests) ==> quests == old(quests)[id := GatherQuest(old(quests)[id], kind, n)]
      ensures id !in old(quests) ==> quests == old(quests)
    {
      if id in quests {
        var q := quests[id];
        var tasks := q.tasks;
        var i := 0;
        while i < |tasks|
          invariant i <= |tasks| == |q.tasks|
          invariant forall j :: 0 <= j < i ==> tasks[j] == GatherTask(q.tasks[j], kind, n)
          invariant forall j :: i <= j < |tasks| ==> tasks[j] == q.tasks[j]
        {
          var t := tasks[i];
          if t.kind.Gather? && t.kind.kind == kind && !t.done {
            if t.kind.count > n {
              t := t.(kind := Gather(kind, t.kind.count - n));
            } else {
              t := t.(kind := Gather(kind, 0), done := true);
            }
          }
          tasks := tasks[i := t];
          i := i + 1;
        }
        var allDone := true;
        i := 0;
        while i < |tasks|
          invariant i <= |tasks|
          invariant allDone <==> forall j :: 0 <= j < i ==> tasks[j].done
        {
          allDone := allDone && tasks[i].done;
          i := i + 1;
        }
        assert tasks == GatherTasks(q.tasks, kind, n);
        q := q.(tasks := tasks);
        if allDone {
          q := q.(completed := true);
        }
        quests := quests[id := q];
      }
    }
  }

  /** Gathering never reopens a task or un-completes a quest, never touches
      the quest's id, title or reward, and leaves visit and defeat tasks and
      gather tasks of other kinds as they were. */
  lemma GatherMonotone(q: Quest, kind: string, n: nat)
    ensures var r := GatherQuest(q, kind, n);
      r.id == q.id && r.title == q.title && r.rewardText == q.rewardText
      && (q.completed ==> r.completed)
      && |r.tasks| == |q.tasks|
      && (forall i :: 0 <= i < |q.tasks| && q.tasks[i].done ==> r.tasks[i] == q.tasks[i])
      && (forall i :: 0 <= i < |q.tasks| && !(q.tasks[i].kind.Gather? && q.tasks[i].kind.kind == kind) ==>
            r.tasks[i] == q.tasks[i])
  {
  }

  /** A quest with no tasks completes on any gathering. */
  lemma EmptyQuestCompletes(q: Quest, kind: string, n: nat)
    requires q.tasks == []
    ensures GatherQuest(q, kind, n).completed
  {
  }

  /** Two gatherings of the same kind count down as one of their sum: the
      task is done exactly when the sum reaches its count. */
  lemma GatherAdditive(t: Task, kind: string, n1: nat, n2: nat)
    requires t.kind.Gather? && t.kind.kind == kind && !t.done
    ensures var r := GatherTask(GatherTask(t, kind, n1), kind, n2);
      r.done == (t.kind.count <= n1 + n2)
      && r.kind == Gather(kind, if t.kind.count <= n1 + n2 then 0 else t.kind.count - n1 - n2)
      && r == GatherTask(t, kind, n1 + n2)
  {
  }

  /** Once every task is done, the quest completes on the next gathering of
      any kind. */
  lemma DoneTasksComplete(q: Quest, kind: string, n: nat)
    requires AllDone(q.tasks)
    ensures GatherQuest(q, kind, n).completed && GatherQuest(q, kind, n).tasks == q.tasks
  {
    assert GatherTasks(q.tasks, kind, n) == q.tasks;
  }
}
