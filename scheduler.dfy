/**
 * The indexed max-priority task queue of homework/goroutines_and_scheduler.
 *
 * `Tasks` is the heap container: a slice of tasks laid out as an implicit
 * binary tree (the parent of slot i is (i-1)/2) and a map from identifier
 * to slot.  Its own methods (Swap, Push, Pop, ChangePriority) only keep the
 * slice and the map in step.  Heap order is restored by the sift-up and
 * sift-down passes of Go's container/heap package, written out here as
 * `Up`, `Down`, `HeapPush`, `HeapPop` and `HeapFix`.  `Scheduler` is the
 * upsert / extract-max policy on top.
 */
module TaskScheduler {

  datatype Task = Task(identifier: int, priority: int)

  /** The slot of the parent of slot i in the implicit binary tree. */
  function Parent(i: nat): (p: nat)
    requires 0 < i
    ensures p < i && (i == 2 * p + 1 || i == 2 * p + 2)
  {
    (i - 1) / 2
  }

  /** The first n slots of s form a max-heap: no slot outranks its parent. */
  ghost predicate HeapOrdered(s: seq<Task>, n: nat)
    requires n <= |s|
  {
    forall i {:trigger Parent(i)} :: 0 < i < n ==> s[i].priority <= s[Parent(i)].priority
  }

  /**
   * The first n slots of s form a max-heap except for the links at slot k:
   * k may outrank its parent or be outranked by a child, but k's children
   * never outrank k's parent.  Sift-up and sift-down keep this while the
   * out-of-place task travels.
   */
  ghost predicate HeapExcept(s: seq<Task>, n: nat, k: nat)
    requires n <= |s|
  {
    && (forall i {:trigger Parent(i)} :: 0 < i < n && i != k && Parent(i) != k ==> s[i].priority <= s[Parent(i)].priority)
    && (0 < k ==> forall i {:trigger Parent(i)} :: 0 < i < n && Parent(i) == k ==> s[i].priority <= s[Parent(k)].priority)
  }

  /** Slot k does not outrank its parent. */
  ghost predicate UpOk(s: seq<Task>, k: nat)
    requires k < |s|
  {
    k == 0 || s[k].priority <= s[Parent(k)].priority
  }

  /** No child of slot k inside the first n slots outranks k. */
  ghost predicate DownOk(s: seq<Task>, n: nat, k: nat)
    requires n <= |s| && k < |s|
  {
    forall i {:trigger Parent(i)} :: 0 < i < n && Parent(i) == k ==> s[i].priority <= s[k].priority
  }

  /** Index consistency: every slot is recorded under its identifier, and the map records nothing else. */
  ghost predicate Indexed(data: seq<Task>, indexes: map<int, int>)
  {
    && (forall i :: 0 <= i < |data| ==> data[i].identifier in indexes && indexes[data[i].identifier] == i)
    && (forall id :: id in indexes ==> 0 <= indexes[id] < |data| && data[indexes[id]].identifier == id)
  }

  /** The three repaired links give back the whole heap. */
  lemma HeapFromParts(s: seq<Task>, n: nat, k: nat)
    requires n <= |s| && k < |s|
    requires HeapExcept(s, n, k) && UpOk(s, k) && DownOk(s, n, k)
    ensures HeapOrdered(s, n)
  {
  }

  /** In a max-heap no slot outranks the root. */
  lemma {:induction false} RootIsMax(s: seq<Task>, n: nat, i: nat)
    requires i < n <= |s|
    requires HeapOrdered(s, n)
    ensures s[i].priority <= s[0].priority
  {
    if i > 0 {
      RootIsMax(s, n, Parent(i));
    }
  }

  /** One sift-up swap moves the exception at slot k up to its parent. */
  lemma SiftUpStep(s: seq<Task>, k: nat)
    requires 0 < k < |s|
    requires HeapExcept(s, |s|, k) && DownOk(s, |s|, k)
    requires s[Parent(k)].priority < s[k].priority
    ensures var p := Parent(k); var s' := s[p := s[k]][k := s[p]];
            HeapExcept(s', |s|, p) && DownOk(s', |s|, p)
  {
  }

  /** One sift-down swap with the greater child j moves the exception at slot k down to j. */
  lemma SiftDownStep(s: seq<Task>, n: nat, k: nat, j: nat)
    requires n <= |s| && k < j < n && Parent(j) == k
    requires HeapExcept(s, n, k)
    requires forall c :: 0 < c < n && Parent(c) == k ==> s[c].priority <= s[j].priority
    requires s[k].priority < s[j].priority
    ensures var s' := s[k := s[j]][j := s[k]];
            HeapExcept(s', n, j) && UpOk(s', j) && s'[n..] == s[n..]
  {
  }

  /** Slot j, chosen as sift-down chooses it, is a child of k that no sibling outranks. */
  lemma GreaterChild(s: seq<Task>, n: nat, k: nat, j: nat)
    requires n <= |s| && 2 * k + 1 < n
    requires j == if 2 * k + 2 < n && s[2 * k + 1].priority < s[2 * k + 2].priority then 2 * k + 2 else 2 * k + 1
    ensures j < n && Parent(j) == k
    ensures forall c :: 0 < c < n && Parent(c) == k ==> s[c].priority <= s[j].priority
  {
    forall c | 0 < c < n && Parent(c) == k
      ensures s[c].priority <= s[j].priority
    {
      assert c == 2 * k + 1 || c == 2 * k + 2;
    }
  }

  /** An index-consistent slice never holds two tasks with the same identifier. */
  lemma IdentifiersUnique(data: seq<Task>, indexes: map<int, int>, i: nat, j: nat)
    requires Indexed(data, indexes)
    requires i < |data| && j < |data| && data[i].identifier == data[j].identifier
    ensures i == j
  {
  }

  /** An index-consistent map records exactly one identifier per slot. */
  lemma {:induction false} IndexedCount(data: seq<Task>, indexes: map<int, int>)
    requires Indexed(data, indexes)
    ensures |indexes| == |data|
    decreases |data|
  {
    if data != [] {
      var last := data[|data| - 1];
      var rest := indexes - {last.identifier};
      assert forall i :: 0 <= i < |data| - 1 ==> data[i].identifier in rest && rest[data[i].identifier] == i;
      forall id | id in rest
        ensures 0 <= rest[id] < |data| - 1 && data[rest[id]].identifier == id
      {
        assert indexes[id] != |data| - 1;
      }
      IndexedCount(data[..|data| - 1], rest);
      assert last.identifier in indexes;
      assert |rest.Keys| == |indexes.Keys| - 1;
    } else {
      assert forall id :: id !in indexes;
      assert indexes.Keys == {};
    }
  }

  /** Rewriting one slot of a heap leaves a heap except at that slot. */
  lemma ChangeLeavesHeapExcept(s: seq<Task>, k: nat, t: Task)
    requires k < |s| && HeapOrdered(s, |s|)
    ensures HeapExcept(s[k := t], |s|, k)
  {
  }

  class Tasks {
    var data: seq<Task>
    var indexes: map<int, int>

    /** The abstract value: the priority currently recorded for each identifier. */
    ghost var contents: map<int, int>

    ghost predicate Consistent()
      reads this
    {
      && Indexed(data, indexes)
      && contents.Keys == indexes.Keys
      && forall id :: id in indexes ==> contents[id] == data[indexes[id]].priority
    }

    /** NewTasks: an empty slice and an empty map. */
    constructor ()
      ensures Consistent() && data == [] && indexes == map[] && contents == map[]
    {
      data := [];
      indexes := map[];
      contents := map[];
    }

    /** Len: the number of slots, which is the number of tasks held. */
    function Len(): (n: nat)
      reads this
      requires Consistent()
      ensures n == |contents|
    {
      IndexedCount(data, indexes);
      |data|
    }

    /** Slot i goes before slot j when its task has the greater recorded priority. */
    function Less(i: nat, j: nat): (b: bool)
      reads this
      requires Consistent() && i < |data| && j < |data|
      ensures b <==> contents[data[i].identifier] > contents[data[j].identifier]
    {
      data[i].priority > data[j].priority
    }

    method Swap(i: nat, j: nat)
      requires Consistent() && i < |data| && j < |data|
      modifies this
      ensures Consistent()
      ensures data == old(data)[i := old(data)[j]][j := old(data)[i]]
      ensures indexes.Keys == old(indexes).Keys
      ensures contents == old(contents)
    {
      data := data[i := data[j]][j := data[i]];
      indexes := indexes[data[i].identifier := i];
      indexes := indexes[data[j].identifier := j];
      assert forall id :: id in indexes ==> data[indexes[id]] == old(data)[old(indexes)[id]];
    }

    /** Appends x and records its slot; the caller guarantees its identifier is new. */
    method Push(x: Task)
      requires Consistent() && x.identifier !in indexes
      modifies this
      ensures Consistent()
      ensures data == old(data) + [x]
      ensures indexes == old(indexes)[x.identifier := |old(data)|]
      ensures contents == old(contents)[x.identifier := x.priority]
    {
      data := data + [x];
      indexes := indexes[x.identifier := |data| - 1];
      contents := contents[x.identifier := x.priority];
    }

    /** Removes the last slot and forgets its identifier. */
    method Pop() returns (el: Task)
      requires Consistent() && |data| > 0
      modifies this
      ensures Consistent()
      ensures el == old(data)[|old(data)| - 1]
      ensures data == old(data)[..|old(data)| - 1]
      ensures indexes == old(indexes) - {el.identifier}
      ensures el.identifier in old(contents) && old(contents)[el.identifier] == el.priority
      ensures contents == old(contents) - {el.identifier}
    {
      el := data[|data| - 1];
      data := data[..|data| - 1];
      indexes := indexes - {el.identifier};
      contents := contents - {el.identifier};
    }

    function Empty(): (b: bool)
      reads this
      requires Consistent()
      ensures b <==> contents == map[]
    {
      if |data| == 0 then
        assert forall id :: id !in indexes;
        assert contents.Keys == {};
        true
      else
        assert data[0].identifier in contents;
        false
    }

    function Exists(taskID: int): (ok: bool)
      reads this
      requires Consistent()
      ensures ok <==> exists i :: 0 <= i < |data| && data[i].identifier == taskID
    {
      assert taskID in indexes ==> data[indexes[taskID]].identifier == taskID;
      taskID in indexes
    }

    /** Overwrites the priority of a present task and reports its slot; an unknown identifier changes nothing. */
    method ChangePriority(taskID: int, priority: int) returns (i: int, ok: bool)
      requires Consistent()
      modifies this
      ensures Consistent() && indexes == old(indexes)
      ensures ok <==> taskID in old(indexes)
      ensures ok ==> 0 <= i < |data| && i == old(indexes)[taskID]
                     && data == old(data)[i := Task(taskID, priority)]
                     && contents == old(contents)[taskID := priority]
      ensures !ok ==> i == 0 && data == old(data)
    {
      ok := taskID in indexes;
      i := if ok then indexes[taskID] else 0;
      if ok {
        data := data[i := data[i].(priority := priority)];
        contents := contents[taskID := priority];
        assert forall id :: id in indexes ==> data[indexes[id]].identifier == id;
      }
    }
  }

  /**
   * container/heap's up: swaps slot j0's task with its parent while it
   * outranks it.  Go computes the parent as (j-1)/2 truncated toward zero,
   * which equals j only at the root; the loop stops there.
   */
  method Up(h: Tasks, j0: nat)
    requires h.Consistent() && j0 < |h.data|
    requires HeapExcept(h.data, |h.data|, j0) && DownOk(h.data, |h.data|, j0)
    modifies h
    ensures h.Consistent() && |h.data| == old(|h.data|)
    ensures HeapOrdered(h.data, |h.data|)
    ensures h.contents == old(h.contents)
  {
    var j: nat := j0;
    while true
      invariant h.Consistent() && j < |h.data| && |h.data| == old(|h.data|)
      invariant HeapExcept(h.data, |h.data|, j) && DownOk(h.data, |h.data|, j)
      invariant h.contents == old(h.contents)
      decreases j
    {
      if j == 0 {
        break;
      }
      var i: nat := (j - 1) / 2;
      if !h.Less(j, i) {
        break;
      }
      SiftUpStep(h.data, j);
      h.Swap(i, j);
      j := i;
    }
    HeapFromParts(h.data, |h.data|, j);
  }

  /** One round of down's loop: stop at node i, or swap it with its greater child and return that child. */
  method SiftDownOnce(h: Tasks, i: nat, n: nat) returns (next: nat, done: bool)
    requires h.Consistent() && i < |h.data| && n <= |h.data|
    requires HeapExcept(h.data, n, i)
    modifies h
    ensures h.Consistent() && |h.data| == old(|h.data|)
    ensures h.data[n..] == old(h.data[n..])
    ensures h.contents == old(h.contents)
    ensures done ==> next == i && h.data == old(h.data) && DownOk(h.data, n, i)
    ensures !done ==> i < next < n && HeapExcept(h.data, n, next) && UpOk(h.data, next)
  {
    var j1 := 2 * i + 1;
    if j1 >= n {
      assert DownOk(h.data, n, i);
      return i, true;
    }
    var j := j1;
    if j1 + 1 < n && h.Less(j1 + 1, j1) {
      j := j1 + 1;
    }
    GreaterChild(h.data, n, i, j);
    if !h.Less(j, i) {
      assert DownOk(h.data, n, i);
      return i, true;
    }
    SiftDownStep(h.data, n, i, j);
    h.Swap(i, j);
    return j, false;
  }

  /**
   * container/heap's down over the first n slots: swaps slot i0's task with
   * its greater child while that child outranks it, and reports whether the
   * task moved.  A move can only start when the task was not above its
   * parent, so a move always ends in a heap.
   */
  method Down(h: Tasks, i0: nat, n: nat) returns (moved: bool)
    requires h.Consistent() && i0 < |h.data| && n <= |h.data|
    requires HeapExcept(h.data, n, i0)
    modifies h
    ensures h.Consistent() && |h.data| == old(|h.data|)
    ensures h.data[n..] == old(h.data[n..])
    ensures h.contents == old(h.contents)
    ensures moved ==> HeapOrdered(h.data, n)
    ensures !moved ==> h.data == old(h.data) && DownOk(h.data, n, i0)
  {
    var i := i0;
    var done := false;
    while !done
      invariant h.Consistent() && i0 <= i < |h.data| && |h.data| == old(|h.data|)
      invariant !done ==> HeapExcept(h.data, n, i)
      invariant done ==> DownOk(h.data, n, i) && HeapExcept(h.data, n, i)
      invariant i == i0 ==> h.data == old(h.data)
      invariant i != i0 ==> i < n && UpOk(h.data, i)
      invariant h.data[n..] == old(h.data[n..])
      invariant h.contents == old(h.contents)
      decreases |h.data| - i, !done
    {
      i, done := SiftDownOnce(h, i, n);
    }
    moved := i > i0;
    if moved {
      HeapFromParts(h.data, n, i);
    }
  }

  /** heap.Push: append, then sift the new task up. */
  method HeapPush(h: Tasks, x: Task)
    requires h.Consistent() && HeapOrdered(h.data, |h.data|) && x.identifier !in h.indexes
    modifies h
    ensures h.Consistent() && HeapOrdered(h.data, |h.data|)
    ensures |h.data| == old(|h.data|) + 1
    ensures h.contents == old(h.contents)[x.identifier := x.priority]
  {
    h.Push(x);
    Up(h, |h.data| - 1);
  }

  /** heap.Pop: move the root to the end, sift the new root down over the rest, remove the end. */
  method HeapPop(h: Tasks) returns (t: Task)
    requires h.Consistent() && HeapOrdered(h.data, |h.data|) && |h.data| > 0
    modifies h
    ensures h.Consistent() && HeapOrdered(h.data, |h.data|)
    ensures |h.data| == old(|h.data|) - 1
    ensures t == old(h.data)[0]
    ensures t.identifier in old(h.contents) && old(h.contents)[t.identifier] == t.priority
    ensures forall id :: id in old(h.contents) ==> old(h.contents)[id] <= t.priority
    ensures h.contents == old(h.contents) - {t.identifier}
  {
    ghost var s := h.data;
    forall id | id in h.indexes
      ensures h.contents[id] <= s[0].priority
    {
      RootIsMax(s, |s|, h.indexes[id]);
    }
    var n := |h.data| - 1;
    h.Swap(0, n);
    var moved := Down(h, 0, n);
    if !moved {
      HeapFromParts(h.data, n, 0);
    }
    t := h.Pop();
  }

  /** heap.Fix after slot i changed: sift down, and sift up only if the task did not move down. */
  method HeapFix(h: Tasks, i: nat)
    requires h.Consistent() && i < |h.data|
    requires HeapExcept(h.data, |h.data|, i)
    modifies h
    ensures h.Consistent() && HeapOrdered(h.data, |h.data|)
    ensures |h.data| == old(|h.data|)
    ensures h.contents == old(h.contents)
  {
    var moved := Down(h, i, |h.data|);
    if !moved {
      Up(h, i);
    }
  }

  class Scheduler {
    const tasks: Tasks

    ghost predicate Valid()
      reads this, tasks
    {
      tasks.Consistent() && HeapOrdered(tasks.data, |tasks.data|)
    }

    /** The priority currently scheduled for each identifier. */
    ghost function Contents(): map<int, int>
      reads this, tasks
      requires Valid()
    {
      tasks.contents
    }

    /** NewScheduler. */
    constructor ()
      ensures Valid() && fresh(tasks) && Contents() == map[]
    {
      tasks := new Tasks();
    }

    /** Upsert: a known identifier has its priority rewritten, a new one is pushed. */
    method AddTask(task: Task)
      requires Valid()
      modifies tasks
      ensures Valid()
      ensures Contents() == old(Contents())[task.identifier := task.priority]
      ensures |tasks.data| == old(|tasks.data|) + (if task.identifier in old(Contents()) then 0 else 1)
    {
      if tasks.Exists(task.identifier) {
        ChangeTaskPriority(task.identifier, task.priority);
      } else {
        HeapPush(tasks, task);
      }
    }

    /** Rewrites the priority of a known identifier and repairs heap order; an unknown one is ignored. */
    method ChangeTaskPriority(taskID: int, newPriority: int)
      requires Valid()
      modifies tasks
      ensures Valid() && |tasks.data| == old(|tasks.data|)
      ensures taskID in old(Contents()) ==> Contents() == old(Contents())[taskID := newPriority]
      ensures taskID !in old(Contents()) ==> tasks.data == old(tasks.data) && tasks.indexes == old(tasks.indexes)
    {
      ghost var s := tasks.data;
      var i, ok := tasks.ChangePriority(taskID, newPriority);
      if ok {
        ChangeLeavesHeapExcept(s, i, Task(taskID, newPriority));
        HeapFix(tasks, i);
      }
    }

    /** Extracts a task of maximum priority, or returns the zero task when nothing is scheduled. */
    method GetTask() returns (t: Task)
      requires Valid()
      modifies tasks
      ensures Valid()
      ensures old(Contents()) == map[] ==> t == Task(0, 0) && tasks.data == old(tasks.data)
      ensures old(Contents()) != map[] ==>
                && t.identifier in old(Contents()) && old(Contents())[t.identifier] == t.priority
                && (forall id :: id in old(Contents()) ==> old(Contents())[id] <= t.priority)
                && Contents() == old(Contents()) - {t.identifier}
                && |tasks.data| == old(|tasks.data|) - 1
    {
      if tasks.Empty() {
        return Task(0, 0);
      }
      t := HeapPop(tasks);
    }
  }

  /** When one identifier holds the strictly greatest priority, GetTask returns exactly that task. */
  method GetUniqueMax(s: Scheduler, k: int) returns (t: Task)
    requires s.Valid() && k in s.Contents()
    requires forall id :: id in s.Contents() && id != k ==> s.Contents()[id] < s.Contents()[k]
    modifies s.tasks
    ensures s.Valid()
    ensures t == Task(k, old(s.Contents())[k])
    ensures s.Contents().Keys == old(s.Contents()).Keys - {k}
    ensures forall id :: id in s.Contents() ==> s.Contents()[id] == old(s.Contents())[id]
  {
    t := s.GetTask();
  }

  /** The five tasks TestScheduler adds, in its order. */
  method ScenarioFiveTasks() returns (s: Scheduler)
    ensures fresh(s) && fresh(s.tasks) && s.Valid()
    ensures s.Contents() == map[1 := 10, 2 := 20, 3 := 30, 4 := 40, 5 := 50]
  {
    s := new Scheduler();
    s.AddTask(Task(1, 10));
    s.AddTask(Task(2, 20));
    s.AddTask(Task(3, 30));
    s.AddTask(Task(4, 40));
    s.AddTask(Task(5, 50));
  }

  /** TestScheduler's first two extractions: tasks 5 and 4, leaving tasks 1 to 3 untouched. */
  method ScenarioTopTwo(s: Scheduler) returns (t1: Task, t2: Task)
    requires s.Valid() && s.Contents() == map[1 := 10, 2 := 20, 3 := 30, 4 := 40, 5 := 50]
    modifies s.tasks
    ensures s.Valid() && t1 == Task(5, 50) && t2 == Task(4, 40)
    ensures s.Contents().Keys == {1, 2, 3} && s.Contents()[2] == 20 && s.Contents()[3] == 30
  {
    t1 := GetUniqueMax(s, 5);
    t2 := GetUniqueMax(s, 4);
  }

  /**
   * TestScheduler: the tasks come out by priority, and the task whose priority was
   * raised to 100 comes out before task 3.
   */
  method ScenarioChangeThenExtract() returns (got: seq<Task>)
    ensures got == [Task(5, 50), Task(4, 40), Task(1, 100), Task(3, 30)]
  {
    var s := ScenarioFiveTasks();
    var t1, t2 := ScenarioTopTwo(s);
    s.ChangeTaskPriority(1, 100);
    var t3 := GetUniqueMax(s, 1);
    assert s.Contents().Keys == {2, 3} && s.Contents()[3] == 30;
    var t4 := GetUniqueMax(s, 3);
    got := [t1, t2, t3, t4];
  }

  /** TestChangeTaskPriority's setup: three tasks, two of them raised. */
  method ScenarioRaisedPriorities() returns (s: Scheduler)
    ensures fresh(s) && fresh(s.tasks) && s.Valid()
    ensures s.Contents() == map[1 := 40, 2 := 50, 3 := 30]
  {
    s := new Scheduler();
    s.AddTask(Task(1, 10));
    s.AddTask(Task(2, 20));
    s.AddTask(Task(3, 30));
    assert s.Contents() == map[1 := 10, 2 := 20, 3 := 30];
    s.ChangeTaskPriority(2, 50);
    assert s.Contents() == map[1 := 10, 2 := 50, 3 := 30];
    s.ChangeTaskPriority(1, 40);
  }

  /** TestChangeTaskPriority: raised priorities decide the extraction order. */
  method ScenarioChangeTaskPriority() returns (got: seq<Task>)
    ensures got == [Task(2, 50), Task(1, 40), Task(3, 30)]
  {
    var s := ScenarioRaisedPriorities();
    var t1 := GetUniqueMax(s, 2);
    assert s.Contents() == map[1 := 40, 3 := 30];
    var t2 := GetUniqueMax(s, 1);
    assert s.Contents() == map[3 := 30];
    var t3 := GetUniqueMax(s, 3);
    got := [t1, t2, t3];
  }

  /** The tasks 1 to n, task i with priority 10 * i. */
  ghost function Ladder(n: int): map<int, int>
  {
    map id | 1 <= id <= n :: 10 * id
  }

  /** Extracting the ladder's tasks: they come out from identifier n down to 1. */
  method ExtractLadder(s: Scheduler, n: nat) returns (got: seq<Task>)
    requires s.Valid() && s.Contents() == Ladder(n)
    modifies s.tasks
    ensures |got| == n && forall k :: 0 <= k < n ==> got[k] == Task(n - k, 10 * (n - k))
  {
    got := [];
    var i := n;
    while i > 0
      invariant 0 <= i <= n && |got| == n - i
      invariant s.Valid() && s.Contents() == Ladder(i)
      invariant forall k :: 0 <= k < n - i ==> got[k] == Task(n - k, 10 * (n - k))
    {
      var t := GetUniqueMax(s, i);
      assert s.Contents() == Ladder(i - 1);
      got := got + [t];
      i := i - 1;
    }
  }

  /** TestSchedulerAddHighPriorities: adding from the highest priority down, the tasks come out by priority. */
  method ScenarioAddHighPriorities() returns (got: seq<Task>)
    ensures |got| == 100 && forall k :: 0 <= k < 100 ==> got[k] == Task(100 - k, 10 * (100 - k))
  {
    var s := new Scheduler();
    var i := 100;
    while i > 0
      invariant 0 <= i <= 100 && s.Valid() && fresh(s.tasks)
      invariant s.Contents() == map id | i < id <= 100 :: 10 * id
    {
      s.AddTask(Task(i, 10 * i));
      i := i - 1;
    }
    assert s.Contents() == Ladder(100);
    got := ExtractLadder(s, 100);
  }

  /** TestSchedulerAddLowPriorities: adding from the lowest priority up, the tasks come out by priority. */
  method ScenarioAddLowPriorities() returns (got: seq<Task>)
    ensures |got| == 100 && forall k :: 0 <= k < 100 ==> got[k] == Task(100 - k, 10 * (100 - k))
  {
    var s := new Scheduler();
    var i := 1;
    while i <= 100
      invariant 1 <= i <= 101 && s.Valid() && fresh(s.tasks)
      invariant s.Contents() == Ladder(i - 1)
    {
      s.AddTask(Task(i, 10 * i));
      i := i + 1;
    }
    got := ExtractLadder(s, 100);
  }

  /** TestAddDuplicate: re-adding an identifier keeps one entry with the latest priority. */
  method ScenarioAddDuplicate() returns (first: Task, second: Task)
    ensures first == Task(1, 5) && second == Task(0, 0)
  {
    var s := new Scheduler();
    s.AddTask(Task(1, 10));
    s.AddTask(Task(1, 15));
    s.AddTask(Task(1, 5));
    first := s.GetTask();
    second := s.GetTask();
  }
}
