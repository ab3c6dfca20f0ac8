/**
 * The task list of the home page (app/page.tsx): an ordered sequence of tasks,
 * each a text and a status, changed by three commands that each build a new
 * sequence from the old one: add, delete by position, and advance the status of
 * one task along the cycle null, "Not Started", "In Progress", "Completed".
 */
module TaskPage {
  import opened Wrappers
  import opened JsString
  import opened JsArray

  /** The value a task's `status` field holds in JavaScript: a string or `null`. */
  type JsStatus = Option<string>

  /**
   * A task's status. The four members of the cycle have their own constructors;
   * `Other` is any other string the field may hold (it is typed `string | null`).
   */
  datatype Status = Null | NotStarted | InProgress | Completed | Other(s: string)

  datatype Task = Task(text: string, status: Status)

  /** `statusOrder`: the cycle a status moves along, as the JavaScript values it compares. */
  const StatusOrder: seq<JsStatus> := [None, Some("Not Started"), Some("In Progress"), Some("Completed")]

  /** The JavaScript value a status stands for. */
  function Raw(st: Status): JsStatus {
    match st
    case Null => None
    case NotStarted => Some("Not Started")
    case InProgress => Some("In Progress")
    case Completed => Some("Completed")
    case Other(s) => Some(s)
  }

  /** A status in its one representation: `Other` never holds the name of a cycle member. */
  predicate IsCanonical(st: Status) {
    match st
    case Other(s) => s != "Not Started" && s != "In Progress" && s != "Completed"
    case _ => true
  }

  /** The status a JavaScript value denotes, in its canonical representation. */
  function Parse(v: JsStatus): (st: Status)
    ensures Raw(st) == v
    ensures IsCanonical(st)
  {
    match v
    case None => Null
    case Some(s) =>
      if s == "Not Started" then NotStarted
      else if s == "In Progress" then InProgress
      else if s == "Completed" then Completed
      else Other(s)
  }

  /** Parsing undoes `Raw` on canonical statuses. */
  lemma ParseRaw(st: Status)
    requires IsCanonical(st)
    ensures Parse(Raw(st)) == st
  {
  }

  /** Canonical statuses that compare equal in JavaScript (`===`) are the same status. */
  lemma RawInjective(a: Status, b: Status)
    requires IsCanonical(a) && IsCanonical(b)
    requires Raw(a) == Raw(b)
    ensures a == b
  {
    ParseRaw(a);
    ParseRaw(b);
  }

  /**
   * The successor rule of the status cycle, on canonical statuses:
   * null, "Not Started", "In Progress", "Completed", then null again; any
   * other value restarts the cycle at null.
   */
  function Successor(st: Status): Status {
    match st
    case Null => NotStarted
    case NotStarted => InProgress
    case InProgress => Completed
    case Completed => Null
    case Other(_) => Null
  }

  /**
   * The status one toggle gives: look the current value up in `statusOrder` with
   * `indexOf` and take the entry after it, wrapping around. `indexOf` is at
   * least -1, so the remainder is taken of a non-negative number and JavaScript's
   * truncating `%` agrees with Dafny's.
   */
  function NextStatus(st: Status): (r: Status)
    ensures r == Successor(Parse(Raw(st)))
  {
    var current := IndexOf(StatusOrder, Raw(st));
    Parse(StatusOrder[(current + 1) % |StatusOrder|])
  }

  /**
   * The toggle rule in terms of the stored JavaScript value: the result is
   * always a canonical member of the cycle, and a value outside `statusOrder`
   * goes to null, as "Completed" does.
   */
  lemma NextStatusTable(st: Status)
    ensures Raw(NextStatus(st)) in StatusOrder && IsCanonical(NextStatus(st))
    ensures Raw(st) == None <==> NextStatus(st) == NotStarted
    ensures Raw(st) == Some("Not Started") <==> NextStatus(st) == InProgress
    ensures Raw(st) == Some("In Progress") <==> NextStatus(st) == Completed
    ensures NextStatus(st) == Null <==> Raw(st) == Some("Completed") || Raw(st) !in StatusOrder
    ensures IsCanonical(st) ==> NextStatus(st) == Successor(st)
  {
    if IsCanonical(st) {
      ParseRaw(st);
    }
  }

  /** Four toggles bring an in-cycle status back to the value it had. */
  lemma FourStepsRestoreStatus(st: Status)
    requires Raw(st) in StatusOrder
    ensures Raw(NextStatus(NextStatus(NextStatus(NextStatus(st))))) == Raw(st)
    ensures IsCanonical(st) ==> NextStatus(NextStatus(NextStatus(NextStatus(st)))) == st
  {
    var r := NextStatus(NextStatus(NextStatus(NextStatus(st))));
    if IsCanonical(st) {
      RawInjective(r, st);
    }
  }

  /** Every task's status is in its canonical representation. */
  predicate AllCanonical(tasks: seq<Task>) {
    forall i :: 0 <= i < |tasks| ==> IsCanonical(tasks[i].status)
  }

  /**
   * `addTask`: input that is blank once trimmed is ignored; any other input is
   * appended, untrimmed, as a task with a `null` status.
   */
  function AddTask(tasks: seq<Task>, input: string): (r: seq<Task>)
    ensures IsBlank(input) ==> r == tasks
    ensures !IsBlank(input) ==> |r| == |tasks| + 1 && r[..|tasks|] == tasks
    ensures !IsBlank(input) ==> r[|tasks|] == Task(input, Null)
    ensures AllCanonical(tasks) ==> AllCanonical(r)
  {
    TrimEmptyIffBlank(input);
    if Trim(input) == "" then tasks
    else tasks + [Task(input, Null)]
  }

  /** The callback of `deleteTask`'s filter: keep every position but `index`. */
  function KeepAllBut(index: int): (Task, nat) -> bool {
    (t: Task, i: nat) => i != index
  }

  /**
   * `deleteTask`: the task at position `index` is removed and the others keep
   * their order; an index that is not a position of the list removes nothing.
   */
  function DeleteTask(tasks: seq<Task>, index: int): (r: seq<Task>)
    ensures 0 <= index < |tasks| ==> |r| == |tasks| - 1 && r == tasks[..index] + tasks[index + 1..]
    ensures !(0 <= index < |tasks|) ==> r == tasks
    ensures AllCanonical(tasks) ==> AllCanonical(r)
  {
    FilterOutPosition(tasks, KeepAllBut(index), index);
    Filter(tasks, KeepAllBut(index))
  }

  /** The callback of `toggleStatus`'s map: advance the status at `index`, copy the rest. */
  function ToggleAt(index: int): (Task, nat) -> Task {
    (t: Task, i: nat) => if i != index then t else t.(status := NextStatus(t.status))
  }

  /**
   * `toggleStatus`: the task at `index` keeps its text and moves to the next
   * status; every other task, and the length, stay as they were.
   */
  function ToggleStatus(tasks: seq<Task>, index: int): (r: seq<Task>)
    ensures |r| == |tasks|
    ensures 0 <= index < |tasks| ==>
      r == tasks[index := Task(tasks[index].text, NextStatus(tasks[index].status))]
    ensures !(0 <= index < |tasks|) ==> r == tasks
    ensures AllCanonical(tasks) ==> AllCanonical(r)
  {
    var r := Map(tasks, ToggleAt(index));
    assert 0 <= index < |tasks| ==>
      r == tasks[index := Task(tasks[index].text, NextStatus(tasks[index].status))];
    r
  }

  /** Adding `a` and then `b` puts `a` before `b`, after the tasks already there. */
  lemma AddKeepsOrder(tasks: seq<Task>, a: string, b: string)
    requires !IsBlank(a) && !IsBlank(b)
    ensures AddTask(AddTask(tasks, a), b) == tasks + [Task(a, Null), Task(b, Null)]
  {
    // The helper calls are not needed for the proof; they keep its cost
    // small and steady across solver seeds.
    var once := AddTask(tasks, a);
    var twice := AddTask(once, b);
    AppendedOne(tasks, once, Task(a, Null));
    AppendedOne(once, twice, Task(b, Null));
  }

  /** A sequence one longer than `s`, starting with `s` and ending with `x`, is `s + [x]`. */
  lemma AppendedOne<T>(s: seq<T>, r: seq<T>, x: T)
    requires |r| == |s| + 1 && r[..|s|] == s && r[|s|] == x
    ensures r == s + [x]
  {
  }

  /** Deleting then looking at the list: every task after `index` moves one place forward. */
  lemma DeleteShifts(tasks: seq<Task>, index: int, j: int)
    requires 0 <= index < |tasks| && 0 <= j < |tasks| - 1
    ensures DeleteTask(tasks, index)[j] == if j < index then tasks[j] else tasks[j + 1]
  {
  }

  /**
   * Toggling the same task four times gives back the original list when its
   * status is a canonical member of the cycle; an index out of range never
   * changes anything.
   */
  lemma ToggleFourTimes(tasks: seq<Task>, index: int)
    requires 0 <= index < |tasks| ==>
      Raw(tasks[index].status) in StatusOrder && IsCanonical(tasks[index].status)
    ensures ToggleStatus(ToggleStatus(ToggleStatus(ToggleStatus(tasks, index), index), index), index) == tasks
  {
    if 0 <= index < |tasks| {
      var t := tasks[index];
      var s1 := NextStatus(t.status);
      var s2 := NextStatus(s1);
      var s3 := NextStatus(s2);
      FourStepsRestoreStatus(t.status);
      // As in AddKeepsOrder, the calls below only keep the solver's cost small.
      var t1 := ToggleStatus(tasks, index);
      var t2 := ToggleStatus(t1, index);
      var t3 := ToggleStatus(t2, index);
      UpdateTwice(tasks, index, Task(t.text, s1), Task(t.text, s2));
      UpdateTwice(tasks, index, Task(t.text, s2), Task(t.text, s3));
      UpdateTwice(tasks, index, Task(t.text, s3), t);
      UpdateSame(tasks, index);
    }
  }

  /** Writing a position twice keeps only the second write. */
  lemma UpdateTwice<T>(s: seq<T>, i: int, a: T, b: T)
    requires 0 <= i < |s|
    ensures s[i := a][i := b] == s[i := b]
  {
  }

  /** Writing back the element already at a position changes nothing. */
  lemma UpdateSame<T>(s: seq<T>, i: int)
    requires 0 <= i < |s|
    ensures s[i := s[i]] == s
  {
  }

  /** A status outside the cycle becomes `null` on the next toggle, the text staying as it was. */
  lemma ToggleLeavesUnknownStatus(tasks: seq<Task>, index: int)
    requires 0 <= index < |tasks| && Raw(tasks[index].status) !in StatusOrder
    ensures ToggleStatus(tasks, index)[index] == Task(tasks[index].text, Null)
  {
  }
}
