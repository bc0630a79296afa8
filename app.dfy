/** The state of the App component and its handlers. Each handler runs as
    one step: the state setters it calls and the effect they trigger have
    all happened when it returns. */
module CleanMate {
  import opened TaskList
  import opened Storage
  import opened TipOfDay

  class App {
    /** The list on screen. */
    var tasks: seq<Task>
    /** The "Task name" input (the component's `task` state). */
    var name: string
    /** The date input, an ISO date such as "2024-03-01". */
    var date: string
    var darkMode: bool
    var tip: string
    /** The browser's local storage. */
    var storage: Store

    /** What reloading the page would read back is what is on screen: the
        stored list is the list, and the stored theme is the flag's text. */
    ghost predicate Synced()
      reads this
    {
      && LoadTasks(storage) == Ok(tasks)
      && ThemeKey in storage && storage[ThemeKey] == Text(ThemeName(darkMode))
    }

    /** Mounting over storage whose task list loads; `today` is the date the
        clock gives and `random` the number the random source gives. The
        theme effect runs once on mount and stores the loaded flag. */
    constructor (store: Store, today: string, random: real)
      requires LoadTasks(store).Ok?
      requires 0.0 <= random < 1.0
      ensures tasks == LoadTasks(store).value
      ensures TasksKey !in store ==> tasks == []
      ensures name == "" && date == today
      ensures darkMode <==> ThemeKey in store && store[ThemeKey] == Text("dark")
      ensures storage == SaveTheme(store, darkMode)
      ensures tip == PickTip(random) && tip in Tips
      ensures Synced()
    {
      tasks := LoadTasks(store).value;
      name := "";
      date := today;
      darkMode := LoadTheme(store);
      storage := SaveTheme(store, LoadTheme(store));
      tip := PickTip(random);
    }

    /** Mounting over any storage: fails, as the component does, when the
        text under "tasks" does not parse. */
    static method Mount(store: Store, today: string, random: real) returns (r: Result<App>)
      requires 0.0 <= random < 1.0
      ensures r.Err? <==> LoadTasks(store).Err?
      ensures r.Ok? ==> fresh(r.value)
      ensures r.Ok? ==> r.value.tasks == LoadTasks(store).value && r.value.darkMode == LoadTheme(store)
      ensures r.Ok? ==> r.value.name == "" && r.value.date == today && r.value.Synced()
      ensures r.Ok? ==> r.value.storage == SaveTheme(store, LoadTheme(store))
      ensures r.Ok? ==> r.value.tip == PickTip(random) && r.value.tip in Tips
    {
      match LoadTasks(store)
      case Err(e) =>
        r := Err(e);
      case Ok(_) =>
        var app := new App(store, today, random);
        r := Ok(app);
    }

    /** Typing in the "Task name" input or picking a template. */
    method EditName(s: string)
      modifies this`name
      ensures name == s
    {
      name := s;
    }

    /** Picking a date. */
    method EditDate(s: string)
      modifies this`date
      ensures date == s
    {
      date := s;
    }

    /** "Add Task", with the clock's reading `id` and today's date `today`.
        A blank input changes nothing at all; otherwise the new task is
        appended, the whole list is stored, and the inputs are reset. */
    method AddTask(id: int, today: string)
      modifies this
      ensures tasks == AfterAdd(old(tasks), id, old(name), old(date))
      ensures !Filled(old(name), old(date)) ==>
                tasks == old(tasks) && name == old(name) && date == old(date) && storage == old(storage)
      ensures Filled(old(name), old(date)) ==>
                && tasks == old(tasks) + [Task(id, old(name), old(date), false)]
                && storage == SaveTasks(old(storage), tasks)
                && name == "" && date == today
      ensures darkMode == old(darkMode) && tip == old(tip)
      ensures old(Synced()) ==> Synced()
    {
      if name == "" || date == "" {
        return;
      }
      var newTask := Task(id, name, date, false);
      var updated := tasks + [newTask];
      tasks := updated;
      storage := SaveTasks(storage, updated);
      name := "";
      date := today;
    }

    /** "Mark Done" for `id`: every task with that id is completed and the
        whole list is stored, even when nothing matched. */
    method MarkDone(id: int)
      modifies this
      ensures tasks == MarkedDone(old(tasks), id)
      ensures |tasks| == |old(tasks)|
      ensures storage == SaveTasks(old(storage), tasks)
      ensures name == old(name) && date == old(date) && darkMode == old(darkMode) && tip == old(tip)
      ensures old(Synced()) ==> Synced()
    {
      var updated := MarkedDone(tasks, id);
      tasks := updated;
      storage := SaveTasks(storage, updated);
    }

    /** The theme button: flips the flag, and the theme effect stores its text. */
    method ToggleTheme()
      modifies this
      ensures darkMode == !old(darkMode)
      ensures storage == SaveTheme(old(storage), darkMode)
      ensures tasks == old(tasks) && name == old(name) && date == old(date) && tip == old(tip)
      ensures old(Synced()) ==> Synced()
    {
      darkMode := !darkMode;
      storage := SaveTheme(storage, darkMode);
    }
  }

  /** Pressing the theme button twice restores the whole component: the
      flag, the storage and every other field. */
  method ToggleTwice(app: App)
    requires app.Synced()
    modifies app
    ensures app.darkMode == old(app.darkMode)
    ensures app.storage == old(app.storage)
    ensures app.tasks == old(app.tasks) && app.name == old(app.name) && app.date == old(app.date) && app.tip == old(app.tip)
    ensures app.Synced()
  {
    ghost var before := app.storage;
    app.ToggleTheme();
    app.ToggleTheme();
    assert app.storage == before;
  }

  /** Marking the same id done twice leaves the state the first mark left;
      the inputs, flag and tip are never touched. */
  method MarkDoneTwice(app: App, id: int)
    modifies app
    ensures app.tasks == MarkedDone(old(app.tasks), id)
    ensures app.storage == SaveTasks(old(app.storage), app.tasks)
    ensures app.name == old(app.name) && app.date == old(app.date) && app.darkMode == old(app.darkMode) && app.tip == old(app.tip)
    ensures old(app.Synced()) ==> app.Synced()
  {
    app.MarkDone(id);
    ghost var once := app.tasks;
    ghost var storedOnce := app.storage;
    app.MarkDone(id);
    MarkedDoneIdempotent(old(app.tasks), id);
    assert app.tasks == once;
    assert app.storage == storedOnce;
  }

  /** A session from empty storage: add a task, complete it, then click
      "Add Task" again with the name input cleared. */
  method ExampleSession(today: string, id: int, random: real)
    requires 0.0 <= random < 1.0
  {
    var app := new App(map[], today, random);
    assert app.tasks == [] && !app.darkMode;
    app.EditName("Clean Kitchen");
    app.EditDate("2024-03-01");
    app.AddTask(id, today);
    assert app.tasks == [Task(id, "Clean Kitchen", "2024-03-01", false)];
    assert app.name == "" && app.date == today;
    app.MarkDone(id);
    assert app.tasks == [Task(id, "Clean Kitchen", "2024-03-01", true)];
    assert app.storage[TasksKey] == TaskArray(app.tasks);
    app.AddTask(id + 1, today);
    assert |app.tasks| == 1;
  }

  /** From storage with no theme, the first click stores "dark" and the
      second stores "light". */
  method ExampleThemeSession(today: string, random: real)
    requires 0.0 <= random < 1.0
  {
    var app := new App(map[], today, random);
    assert !app.darkMode;
    app.ToggleTheme();
    assert app.darkMode && app.storage[ThemeKey] == Text("dark");
    app.ToggleTheme();
    assert !app.darkMode && app.storage[ThemeKey] == Text("light");
  }
}
