/**
 * The home page as a whole (app/page.tsx): the task list held in React state,
 * read once from the browser's local storage under the key "tasks" when the
 * page mounts, and written back, whole, every time the list is replaced.
 * The JSON text itself is not modelled: the stored value is the sequence of
 * records it encodes.
 */
module TaskSession {
  import opened Wrappers
  import opened JsString
  import opened TaskPage

  /** A task as `JSON.stringify` writes it: the record `{ text, status }`. */
  datatype StoredTask = StoredTask(text: string, status: JsStatus)

  /** The record a task is written as. */
  function Encode(t: Task): StoredTask {
    StoredTask(t.text, Raw(t.status))
  }

  /** The task a stored record is read back as, its status in canonical form. */
  function Decode(rec: StoredTask): (t: Task)
    ensures IsCanonical(t.status)
    ensures Encode(t) == rec
  {
    Task(rec.text, Parse(rec.status))
  }

  /** Decoding undoes encoding on tasks whose statuses are canonical. */
  lemma DecodeEncode(t: Task)
    requires IsCanonical(t.status)
    ensures Decode(Encode(t)) == t
  {
    ParseRaw(t.status);
  }

  /** The stored value for a whole list: one record per task, in order. */
  function EncodeAll(tasks: seq<Task>): (recs: seq<StoredTask>)
    ensures |recs| == |tasks|
    ensures forall i :: 0 <= i < |tasks| ==> recs[i] == Encode(tasks[i])
  {
    seq(|tasks|, i requires 0 <= i < |tasks| => Encode(tasks[i]))
  }

  /** The list a stored value is read back as. */
  function DecodeAll(recs: seq<StoredTask>): (tasks: seq<Task>)
    ensures AllCanonical(tasks)
    ensures EncodeAll(tasks) == recs
  {
    var tasks := seq(|recs|, i requires 0 <= i < |recs| => Decode(recs[i]));
    assert EncodeAll(tasks) == recs;
    tasks
  }

  /** Writing a list and reading it back gives the same tasks in the same order. */
  lemma DecodeEncodeAll(tasks: seq<Task>)
    requires AllCanonical(tasks)
    ensures DecodeAll(EncodeAll(tasks)) == tasks
  {
    var back := DecodeAll(EncodeAll(tasks));
    forall i | 0 <= i < |tasks| ensures back[i] == tasks[i] {
      DecodeEncode(tasks[i]);
    }
  }

  /** A user gesture forwarded to the list: the Add button, an X button, a Status button. */
  datatype Command = Add(input: string) | Delete(index: int) | Toggle(index: int)

  /** The page state: the current list, and what local storage holds under "tasks". */
  datatype Page = Page(tasks: seq<Task>, storage: Option<seq<StoredTask>>)

  /** The stored value is exactly the current list, and every status is canonical. */
  predicate Synced(p: Page) {
    p.storage == Some(EncodeAll(p.tasks)) && AllCanonical(p.tasks)
  }

  /** The initial list: the stored one when there is one, otherwise the empty list. */
  function Load(storage: Option<seq<StoredTask>>): (tasks: seq<Task>)
    ensures storage.None? ==> tasks == []
    ensures storage.Some? ==> EncodeAll(tasks) == storage.value
    ensures AllCanonical(tasks)
  {
    if storage.Some? then DecodeAll(storage.value) else []
  }

  /** Replacing the list; the effect on `tasks` then writes the whole new list to storage. */
  function Replace(tasks: seq<Task>): (p: Page)
    ensures p.tasks == tasks
    ensures p.storage == Some(EncodeAll(tasks))
    ensures AllCanonical(tasks) ==> Synced(p)
  {
    Page(tasks, Some(EncodeAll(tasks)))
  }

  /** Mounting the page: load the list, then the effect's first run writes it back. */
  function Mount(storage: Option<seq<StoredTask>>): (p: Page)
    ensures Synced(p)
    ensures storage.None? ==> p.tasks == []
    ensures storage.Some? ==> p.storage == storage
  {
    Replace(Load(storage))
  }

  /**
   * One command. Blank input on Add never calls `setTasks`, so nothing is
   * written; every other command replaces the list with a new array and so
   * triggers the write.
   */
  function Dispatch(p: Page, cmd: Command): (q: Page)
    ensures cmd.Add? && IsBlank(cmd.input) ==> q == p
    ensures cmd.Add? && !IsBlank(cmd.input) ==> q.tasks == AddTask(p.tasks, cmd.input)
    ensures cmd.Delete? ==> q.tasks == DeleteTask(p.tasks, cmd.index)
    ensures cmd.Toggle? ==> q.tasks == ToggleStatus(p.tasks, cmd.index)
    ensures !(cmd.Add? && IsBlank(cmd.input)) ==> q.storage == Some(EncodeAll(q.tasks))
    ensures Synced(p) ==> Synced(q)
  {
    match cmd
    case Add(input) =>
      TrimEmptyIffBlank(input);
      if Trim(input) == "" then p else Replace(AddTask(p.tasks, input))
    case Delete(index) => Replace(DeleteTask(p.tasks, index))
    case Toggle(index) => Replace(ToggleStatus(p.tasks, index))
  }

  /** A session: the commands in the order the user issues them. */
  function Run(p: Page, cmds: seq<Command>): Page
    decreases |cmds|
  {
    if cmds == [] then p else Run(Dispatch(p, cmds[0]), cmds[1..])
  }

  /** After any sequence of commands the stored value is still the whole current list. */
  lemma {:induction false} RunKeepsSynced(p: Page, cmds: seq<Command>)
    requires Synced(p)
    ensures Synced(Run(p, cmds))
    decreases |cmds|
  {
    if cmds != [] {
      RunKeepsSynced(Dispatch(p, cmds[0]), cmds[1..]);
    }
  }

  /**
   * Reloading the page at any point of a session shows the list the session
   * had reached: same tasks, same texts and statuses, same order.
   */
  lemma ReloadRestores(storage: Option<seq<StoredTask>>, cmds: seq<Command>)
    ensures Run(Mount(storage), cmds).storage.Some?
    ensures Mount(Run(Mount(storage), cmds).storage) == Run(Mount(storage), cmds)
  {
    var p := Run(Mount(storage), cmds);
    RunKeepsSynced(Mount(storage), cmds);
    DecodeEncodeAll(p.tasks);
  }
}
