# CleanMate task list and theme, in Dafny

CleanMate is a single-page cleaning-chore list written as one React
component, `App`. The component keeps five pieces of state:

- the list of tasks;
- the pending "Task name" input;
- the pending date input;
- a dark-mode flag;
- the tip of the day.

It mirrors the list and the flag into the browser's local storage. This
project models that state and its handlers:

- loading the list and the flag when the component mounts;
- "Add Task";
- "Mark Done";
- the theme button and the effect that stores the theme.

It then proves what they do to the list, the inputs and the storage.

Layout:

- `task_list.dfy` (module `TaskList`): the `Task` record and the lists that
  the handlers compute, as pure functions. These are the array spread of
  "Add Task" and the `map` of "Mark Done". The module also holds their lemmas:
  order and contents are preserved, marking is idempotent, marking an unknown
  id changes nothing, and repeated adds only append.
- `storage.dfy` (module `Storage`): local storage as a map from keys to
  stored items, with functions that load and save under `"tasks"` and
  `"theme"`. Saving and then loading round-trips, and each save leaves the
  other key alone.
- `tip_of_day.dfy` (module `TipOfDay`): the constant tips and the index
  computed from a random number in [0, 1).
- `app.dfy` (module `CleanMate`): class `App`, with one field per piece of
  component state plus the storage map. The constructor is the mount. The
  methods are the handlers. Each method states its whole new state in terms of
  the functions above. `Synced()` says that a reload would read back what is
  on screen, and every handler preserves it. Small client methods show the
  end-to-end behaviour: toggling twice, marking twice, and an example session.

The clock (`Date.now()` for ids, `new Date()` for today's date) and
`Math.random()` are parameters. Each handler is one atomic step: a state
setter and the effect it triggers have both happened when the method returns.

A `"tasks"` entry that is not valid JSON makes the initial `JSON.parse`
throw (src/App.jsx:13), and there is no fallback to an empty list. So
`LoadTasks` returns `Err(Unparsable)` for it, and `App.Mount` fails.

## Model

| member | source | states |
|---|---|---|
| `TaskList.AfterAdd` | src/App.jsx:29-31 | a blank name or date leaves the list unchanged; otherwise the list grows by exactly one, the old tasks keep their order and contents, and the last task carries the given id, name and due date with `completed == false` |
| `TaskList.Accepted` | src/App.jsx:29-30 | the tasks created by a series of add requests: never more than the requests, none completed |
| `TaskList.AddAll` | src/App.jsx:28-36 | a series of "Add Task" clicks keeps the old list as a prefix and adds at most one task per click |
| `TaskList.AddAllAppendsAccepted` | src/App.jsx:28-36 | any series of "Add Task" clicks gives the old list followed by the accepted requests' tasks, in click order |
| `TaskList.MarkedDone` | src/App.jsx:39 | marking keeps the list's length |
| `TaskList.MarkedDoneAt` | src/App.jsx:39 | at each position the id, name and due date are kept; `completed` is true afterwards exactly when it was before or the id matches; a non-matching task is unchanged |
| `TaskList.MarkedDoneNoMatch` | src/App.jsx:39 | marking an id that no task has leaves the list unchanged |
| `TaskList.MarkedDoneIdempotent` | src/App.jsx:39 | marking the same id twice equals marking it once |
| `Storage.LoadTasks` | src/App.jsx:13 | nothing stored under `"tasks"` loads as the empty list; a stored list loads as itself; loading fails exactly when the entry is text that is not a serialised task list |
| `Storage.LoadTheme` | src/App.jsx:16 | the flag is true exactly when `"theme"` holds the text the theme effect writes for dark; an absent `"theme"` gives light |
| `Storage.SaveTasks` | src/App.jsx:33-41 | the list itself is stored under `"tasks"`, even when it is empty; loading it back gives that list; the loaded theme and every other key are unchanged |
| `Storage.ThemeName` | src/App.jsx:21 | the stored theme text is `"dark"` or `"light"`, and `"dark"` exactly when the flag is set |
| `Storage.SaveTheme` | src/App.jsx:16-21 | after the theme is stored, loading the theme gives the flag back; the loaded list and every other key are unchanged |
| `TipOfDay.TipIndex` | src/App.jsx:25 | the tip index computed from a random number in [0, 1) is a valid index |
| `TipOfDay.PickTip` | src/App.jsx:25 | the tip shown is one of the fixed tips |
| `TipOfDay.EveryTipReachable` | src/App.jsx:25 | every tip is picked for some random number in [0, 1) |
| `CleanMate.App.constructor` | src/App.jsx:13-26 | on mount: the list is the stored list (empty when `"tasks"` is absent); the name input is empty and the date input is today; the flag is true exactly when `"theme"` holds `"dark"`; the flag's text is stored; the tip is one of the tips; storage is in sync |
| `CleanMate.App.Mount` | src/App.jsx:13 | mounting fails exactly when the stored `"tasks"` entry does not parse; otherwise the new component holds the loaded list and flag, has empty name and today's date as inputs, has storage equal to the old storage with the loaded flag's text under `"theme"`, shows one of the tips, and is in sync |
| `CleanMate.App.EditName` | src/App.jsx:60-68 | choosing a template or typing sets the name input and nothing else |
| `CleanMate.App.EditDate` | src/App.jsx:74 | picking a date sets the date input and nothing else |
| `CleanMate.App.AddTask` | src/App.jsx:28-36 | a blank name or date changes nothing (list, inputs, storage); otherwise the new task is appended, the stored `"tasks"` equals the new list, the name input is `""` and the date input is today; the flag and tip are untouched; sync is preserved |
| `CleanMate.App.MarkDone` | src/App.jsx:38-42 | the list becomes the marked list, with the same length; the stored `"tasks"` equals it; the inputs, flag and tip are untouched; sync is preserved |
| `CleanMate.App.ToggleTheme` | src/App.jsx:48 | the flag flips; the stored `"theme"` becomes its text; the list, inputs and tip are untouched; sync is preserved |
| `CleanMate.ToggleTwice` | src/App.jsx:19-48 | from a synced component, two clicks on the theme button restore the flag, the whole storage, the list, the inputs and the tip |
| `CleanMate.MarkDoneTwice` | src/App.jsx:38-42 | a second "Mark Done" for the same id leaves the list and storage as the first one left them; the inputs, flag and tip are unchanged and sync is preserved |

## Left out

- Rendering, CSS classes, the template list's options and
  `document.documentElement.classList` (src/App.jsx:4, 20, 44-109) are
  presentation. Only the input handlers that set the name and date state are
  modelled.
- Serialisation (`JSON.stringify`/`JSON.parse`) is not modelled. A stored list
  is held as the list itself, and any other stored text under `"tasks"` counts
  as unparsable. JSON literals that parse to a false value (such as `null`)
  would load as an empty list in the component. The model does not tell them
  apart from other text.
- Storage write failures (such as a full quota) are not modelled. The component
  does not handle them.
- Ids come from `Date.now()` and today's date from `new Date()`; both are
  parameters. The model claims no uniqueness of ids, because the component
  does not ensure it.
- `Math.random()` is a parameter in [0, 1).
  Floating-point multiplication is replaced by exact real arithmetic, which
  gives the same index for four tips.
- React's asynchronous state updates and effect scheduling are not modelled.
  Each handler is one atomic step.
