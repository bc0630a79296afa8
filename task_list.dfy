/** The task list of the App component as values: the record a click on
    "Add Task" creates, the list that click produces, and the list that
    "Mark Done" produces (the array spread and the `map` of src/App.jsx). */
module TaskList {

  /** One chore. `id` is the clock reading taken when the task was added;
      nothing makes it unique. */
  datatype Task = Task(id: int, name: string, dueDate: string, completed: bool)

  /** The guard of addTask: JavaScript treats the empty string as false, so
      both inputs must be non-empty. */
  predicate Filled(name: string, dueDate: string)
  {
    name != "" && dueDate != ""
  }

  /** The list after one click on "Add Task" with the given inputs and clock
      reading: unchanged when an input is blank, otherwise one fresh,
      uncompleted task at the end. */
  function AfterAdd(tasks: seq<Task>, id: int, name: string, dueDate: string): (r: seq<Task>)
    ensures !Filled(name, dueDate) ==> r == tasks
    ensures Filled(name, dueDate) ==>
              && |r| == |tasks| + 1
              && r[..|tasks|] == tasks
              && r[|tasks|] == Task(id, name, dueDate, false)
  {
    if Filled(name, dueDate) then tasks + [Task(id, name, dueDate, false)] else tasks
  }

  /** What the user has typed and what the clock says when "Add Task" is clicked. */
  datatype AddRequest = AddRequest(id: int, name: string, dueDate: string)

  /** The list after a series of clicks on "Add Task", oldest first. */
  function AddAll(tasks: seq<Task>, reqs: seq<AddRequest>): (r: seq<Task>)
    ensures |tasks| <= |r| <= |tasks| + |reqs|
    ensures r[..|tasks|] == tasks
    decreases |reqs|
  {
    if reqs == [] then tasks
    else AddAll(AfterAdd(tasks, reqs[0].id, reqs[0].name, reqs[0].dueDate), reqs[1..])
  }

  /** The tasks that a series of requests creates, in request order: one per
      request whose inputs are filled, none for the others. */
  function Accepted(reqs: seq<AddRequest>): (r: seq<Task>)
    ensures |r| <= |reqs|
    ensures forall k :: 0 <= k < |r| ==> !r[k].completed
  {
    if reqs == [] then []
    else
      var q := reqs[0];
      var head := if Filled(q.name, q.dueDate) then [Task(q.id, q.name, q.dueDate, false)] else [];
      head + Accepted(reqs[1..])
  }

  /** Repeated adds only ever append: the result is the old list followed by
      the accepted requests' tasks in the order they were made. */
  lemma {:induction false} AddAllAppendsAccepted(tasks: seq<Task>, reqs: seq<AddRequest>)
    ensures AddAll(tasks, reqs) == tasks + Accepted(reqs)
    decreases |reqs|
  {
    if reqs != [] {
      var q := reqs[0];
      var next := AfterAdd(tasks, q.id, q.name, q.dueDate);
      AddAllAppendsAccepted(next, reqs[1..]);
      var head := if Filled(q.name, q.dueDate) then [Task(q.id, q.name, q.dueDate, false)] else [];
      assert next == tasks + head;
      assert Accepted(reqs) == head + Accepted(reqs[1..]);
      assert (tasks + head) + Accepted(reqs[1..]) == tasks + (head + Accepted(reqs[1..]));
    }
  }

  /** The callback of markDone's `map`: a matching task becomes completed,
      any other task is returned as it is. */
  function Mark(t: Task, id: int): (r: Task)
  {
    if t.id == id then t.(completed := true) else t
  }

  /** The list after "Mark Done" for `id`, one entry per entry of `tasks`. */
  function MarkedDone(tasks: seq<Task>, id: int): (r: seq<Task>)
    ensures |r| == |tasks|
  {
    if tasks == [] then [] else [Mark(tasks[0], id)] + MarkedDone(tasks[1..], id)
  }

  /** Position by position, marking keeps each task's id, name and due date
      and its place in the list, and a task is completed afterwards exactly
      when it was before or its id matches. */
  lemma {:induction false} MarkedDoneAt(tasks: seq<Task>, id: int, k: int)
    requires 0 <= k < |tasks|
    ensures MarkedDone(tasks, id)[k].id == tasks[k].id
    ensures MarkedDone(tasks, id)[k].name == tasks[k].name
    ensures MarkedDone(tasks, id)[k].dueDate == tasks[k].dueDate
    ensures MarkedDone(tasks, id)[k].completed == (tasks[k].completed || tasks[k].id == id)
    ensures tasks[k].id != id ==> MarkedDone(tasks, id)[k] == tasks[k]
  {
    if k > 0 {
      MarkedDoneAt(tasks[1..], id, k - 1);
    }
  }

  /** Marking an id that no task carries leaves the list as it is. */
  lemma {:induction false} MarkedDoneNoMatch(tasks: seq<Task>, id: int)
    requires forall k :: 0 <= k < |tasks| ==> tasks[k].id != id
    ensures MarkedDone(tasks, id) == tasks
  {
    if tasks != [] {
      MarkedDoneNoMatch(tasks[1..], id);
      assert [tasks[0]] + tasks[1..] == tasks;
    }
  }

  /** Marking the same id twice gives the list that marking it once gives. */
  lemma {:induction false} MarkedDoneIdempotent(tasks: seq<Task>, id: int)
    ensures MarkedDone(MarkedDone(tasks, id), id) == MarkedDone(tasks, id)
  {
    if tasks != [] {
      var once := MarkedDone(tasks, id);
      assert once[1..] == MarkedDone(tasks[1..], id);
      MarkedDoneIdempotent(tasks[1..], id);
    }
  }
}
