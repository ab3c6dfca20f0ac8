# Task list: a Dafny model of the home page's state machine

The home page of this to-do application (`app/page.tsx`) keeps an ordered list of
tasks. Each task has a `text` and a `status`, and the status is JavaScript's
`string | null`. The user changes the list with three commands:

- **add** appends the typed input as a new task with status `null`. Input that is
  blank once trimmed is ignored.
- **delete** removes the task at a position. It is written as a `filter` over
  positions.
- **toggle** moves one task's status along the cycle `null`, "Not Started",
  "In Progress", "Completed". It is written as a `map` that looks the value up
  in `statusOrder` with `indexOf` and takes entry `(i + 1) % 4`.

Each command builds a new array and never changes one in place. The list is read
from local storage under the key `"tasks"` when the page mounts. An effect writes
the whole list back after every replacement.

The model is written as pure functions on sequences, with lemmas about them:

- `wrappers.dfy` (`Wrappers`): `Option`, standing for a JavaScript value that may
  be `null`.
- `js_string.dfy` (`JsString`): `String.prototype.trim` and the white-space
  set it strips. `IsBlank` is the reference definition: every character is
  white space.
- `js_array.dfy` (`JsArray`): `Array.prototype.filter`, `map` and `indexOf`.
  Their callbacks receive the element and its position, and `indexOf` returns
  -1 when the value is absent.
- `task_page.dfy` (`TaskPage`): `Status`, `Task`, `statusOrder`, the toggle
  rule and the three commands.
- `task_session.dfy` (`TaskSession`): the page as a whole. It covers the stored
  record form of a task, loading on mount, the write after each replacement, and
  sessions of commands.

`Status` has four constructors for the cycle and `Other(s)` for any other
string the field may hold. JavaScript compares statuses with `===` on the raw
value, so `NextStatus` looks up `Raw(st)` and not the constructor. A task whose
status holds `Other("Completed")` therefore toggles exactly as `Completed` does. `Parse`
yields the canonical form, in which `Other` never holds a cycle name. Decoding
the stored list always produces canonical statuses.

Two behaviours of the code are worth noting:

- Deleting at an out-of-range index, negative or too large, leaves the list
  unchanged, because `filter` matches no position.
- `status` is a plain string, so any value off the cycle toggles to `null`.

`TaskPage.Successor` is the reference table for the cycle, written as a match
on the status: null, "Not Started", "In Progress", "Completed", then null again,
with any other value going to null. `NextStatus` is the code's `indexOf`-and-modulo
lookup, and its contract proves it equal to `Successor` applied to the canonical
form of the current value.

`JsArray.Map` and `TaskSession.EncodeAll` are definitions, each one result per
position. Their properties are proved where they are used, by `ToggleStatus`
and by `DecodeAll` and `DecodeEncodeAll`.

## Model

| member | source | states |
|---|---|---|
| JsString.TrimEmptyIffBlank | app/page.tsx:30 | `s.trim() === ""` holds exactly when every character of `s` is ECMAScript white space (both directions) |
| JsString.LeadingSpace | app/page.tsx:30 | counts the white space at the front: every character before the count is white space and the next one, if any, is not |
| JsString.TrailingSpace | app/page.tsx:30 | counts the white space at the back: every character in the last count positions is white space and the one before them, if any, is not |
| JsString.TrimStart | app/page.tsx:30 | the result is a suffix of the input, what was removed is all white space, and the result does not start with white space |
| JsString.TrimEnd | app/page.tsx:30 | the result is a prefix of the input, what was removed is all white space, and the result does not end with white space |
| JsString.Trim | app/page.tsx:30 | `s.trim()` is exactly the slice of `s` that starts after the leading white space and whose characters after it, to the end of `s`, are all white space; it is empty or starts and ends with a non-white-space character |
| JsArray.Filter | app/page.tsx:38 | the result is no longer than the input, holds only input elements, and is the whole input when every position is kept |
| JsArray.FilterMembers | app/page.tsx:38 | an element is in the filtered result exactly when some position holding it is kept by the callback (both directions) |
| JsArray.FilterOutPosition | app/page.tsx:38 | a filter rejecting exactly position `index` yields `s[..index] + s[index+1..]` when `index` is a position of `s`, and `s` itself otherwise (negative or too large) |
| JsArray.IndexOf | app/page.tsx:49 | -1 exactly when the value is absent; otherwise a position holding the value with no earlier occurrence |
| TaskPage.Parse | app/page.tsx:8 | the status read from a JavaScript value stands for that value and is canonical |
| TaskPage.ParseRaw | app/page.tsx:8 | parsing recovers every canonical status from its raw value |
| TaskPage.RawInjective | app/page.tsx:49 | canonical statuses that are `===` as JavaScript values are the same status |
| TaskPage.NextStatus | app/page.tsx:44-51 | the `indexOf`-and-modulo lookup equals the cycle successor of the canonical form of the current value |
| TaskPage.NextStatusTable | app/page.tsx:44-51 | by raw value: null goes to "Not Started", "Not Started" to "In Progress", "In Progress" to "Completed", and "Completed" or any value outside `statusOrder` to null (each an if-and-only-if); the result is always a canonical cycle member |
| TaskPage.FourStepsRestoreStatus | app/page.tsx:44-51 | four toggle steps return any in-cycle value to itself (as a raw value, and exactly when canonical) |
| TaskPage.AddTask | app/page.tsx:29-34 | blank input leaves the list unchanged; other input gives a list one longer whose prefix is the old list and whose last task is the untrimmed input with status null; canonical statuses stay canonical |
| TaskPage.AddKeepsOrder | app/page.tsx:31-32 | adding `a` then `b` appends `a` before `b` after the existing tasks |
| TaskPage.DeleteTask | app/page.tsx:37-40 | a valid index gives a list one shorter equal to `tasks[..index] + tasks[index+1..]`; any other index leaves the list unchanged |
| TaskPage.DeleteShifts | app/page.tsx:38 | after deleting, tasks before `index` keep their position and later ones move one place forward |
| TaskPage.ToggleStatus | app/page.tsx:43-55 | the length is kept; for a valid index only that task changes, its text kept and its status advanced by the toggle rule; any other index changes nothing |
| TaskPage.ToggleFourTimes | app/page.tsx:43-55 | toggling one position four times restores the whole list when its status is a canonical cycle member, and always when the index is out of range |
| TaskPage.ToggleLeavesUnknownStatus | app/page.tsx:49-52 | a status outside `statusOrder` becomes null on the next toggle and the text is kept |
| TaskSession.Decode | app/page.tsx:16 | a stored record reads back as a task with a canonical status that encodes to the same record |
| TaskSession.DecodeEncode | app/page.tsx:25 | encoding and then decoding a task with a canonical status gives the same task |
| TaskSession.DecodeAll | app/page.tsx:16 | a stored list reads back as canonical tasks that encode to exactly that stored list |
| TaskSession.DecodeEncodeAll | app/page.tsx:25 | writing a canonical list and reading it back gives the same tasks in the same order |
| TaskSession.Load | app/page.tsx:13-19 | with nothing stored the list starts empty; otherwise it is the list whose encoding is the stored value |
| TaskSession.Replace | app/page.tsx:24-26 | after a replacement the page's list is the new list and storage holds the encoding of that whole list, so a canonical list leaves storage and list in agreement |
| TaskSession.Mount | app/page.tsx:13-26 | after mounting, storage and list agree; an empty store gives an empty list; an existing stored value is written back unchanged |
| TaskSession.Dispatch | app/page.tsx:28-55 | Add with blank input changes neither the list nor storage; every other command replaces the list with the corresponding operation's result and writes that whole list to storage, from any starting state; storage and list stay in agreement |
| TaskSession.RunKeepsSynced | app/page.tsx:24-26 | after any sequence of commands, storage still holds the whole current list |
| TaskSession.ReloadRestores | app/page.tsx:13-26 | reloading the page at any point of a session reproduces the page that session had reached |

## Left out

- Rendering: the JSX markup, CSS class choice and `key={index}` (app/page.tsx:57-122) are presentational.
- JSON text: the model stores the sequence of records that `JSON.stringify` would encode. It leaves out the text itself, `JSON.parse` failing on malformed text, parsed values of other shapes (a numeric `status`, a missing field), and the falsy empty string in `stored ? … : []`.
- React plumbing: `useState`, `useEffect` scheduling, the `typeof window` server-side guard and the `input` field are framework state. The model emits the effect's write together with each replacement of the list. Clearing the input after an add is not modelled.
- Index type: indices are integers. JavaScript's `number` could also be fractional, but the page only passes the positions produced by its own `map`.
- Strings: JavaScript strings are UTF-16 code units, while Dafny's `string` holds Unicode scalar values. `IsWhitespace` lists the ECMAScript white-space and line-terminator set for the current Unicode version (tab, LF, VT, FF, CR, space, U+00A0, U+1680, U+2000-U+200A, U+2028, U+2029, U+202F, U+205F, U+3000, U+FEFF). Later Unicode versions could add space separators.
- Two-state variant: app/(root)/components/task.tsx, with its `completed` flag and its `completeTask` move to a second list, is not part of this model.
