/** The browser's local storage as the App component uses it: a map from
    keys to stored items, read once when the component mounts and written
    in full under one key at a time. */
module Storage {
  import opened TaskList

  /** A stored item: a serialised task list (held as the list itself, since
      serialising and parsing a list of such records gives it back), or text
      that is not a serialised task list. */
  datatype Value = TaskArray(tasks: seq<Task>) | Text(text: string)

  type Store = map<string, Value>

  const TasksKey: string := "tasks"
  const ThemeKey: string := "theme"

  /** Why loading can fail: the text under "tasks" does not parse as a task list. */
  datatype LoadError = Unparsable

  datatype Result<+T> = Ok(value: T) | Err(error: LoadError)

  /** The initial list: empty when nothing is stored under "tasks", the stored
      list when one is, and a parse failure (which the component does not
      catch) otherwise. */
  function LoadTasks(st: Store): (r: Result<seq<Task>>)
    ensures TasksKey !in st ==> r == Ok([])
    ensures r.Err? <==> TasksKey in st && st[TasksKey].Text?
    ensures TasksKey in st && st[TasksKey].TaskArray? ==> r == Ok(st[TasksKey].tasks)
  {
    if TasksKey !in st then Ok([])
    else match st[TasksKey]
      case TaskArray(ts) => Ok(ts)
      case Text(_) => Err(Unparsable)
  }

  /** The initial theme: dark exactly when the text "dark" is stored under "theme". */
  function LoadTheme(st: Store): (dark: bool)
    ensures ThemeKey !in st ==> !dark
    ensures dark <==> ThemeKey in st && st[ThemeKey] == Text(ThemeName(true))
  {
    ThemeKey in st && st[ThemeKey] == Text("dark")
  }

  /** Writes the whole list under "tasks". Loading afterwards gives that list
      back, and nothing stored under another key changes. */
  function SaveTasks(st: Store, ts: seq<Task>): (r: Store)
    ensures LoadTasks(r) == Ok(ts)
    ensures TasksKey in r && r[TasksKey] == TaskArray(ts)
    ensures LoadTheme(r) == LoadTheme(st)
    ensures forall k :: k != TasksKey ==> (k in r <==> k in st)
    ensures forall k :: k in st && k != TasksKey ==> r[k] == st[k]
  {
    assert TasksKey != ThemeKey by { assert TasksKey[1] != ThemeKey[1]; }
    st[TasksKey := TaskArray(ts)]
  }

  /** The text the theme effect stores for a flag. */
  function ThemeName(dark: bool): (s: string)
    ensures s == "dark" || s == "light"
    ensures s == "dark" <==> dark
  {
    if dark then "dark" else "light"
  }

  /** Writes the theme text for `dark` under "theme". Loading afterwards
      gives `dark` back, and nothing stored under another key changes. */
  function SaveTheme(st: Store, dark: bool): (r: Store)
    ensures LoadTheme(r) == dark
    ensures LoadTasks(r) == LoadTasks(st)
    ensures ThemeKey in r && r[ThemeKey] == Text(ThemeName(dark))
    ensures forall k :: k != ThemeKey ==> (k in r <==> k in st)
    ensures forall k :: k in st && k != ThemeKey ==> r[k] == st[k]
  {
    assert TasksKey != ThemeKey by { assert TasksKey[1] != ThemeKey[1]; }
    assert "light" != "dark" by { assert "light"[0] != "dark"[0]; }
    st[ThemeKey := Text(ThemeName(dark))]
  }
}
