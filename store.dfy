/**
 * The agenda state container: three in-memory collections, the selected day,
 * the active view and the `isLoaded` flag, with the CRUD operations the views
 * call. Each operation replaces a collection by a pure transform of the old
 * one (the functions below); after it the collection's save effect runs,
 * which issues a save of the whole collection only once loading has finished
 * and only when the collection is not empty. Issued saves are recorded in
 * `saves`, in the order they are issued. Fresh ids and today's date are
 * supplied by the caller.
 */
module AgendaStore {
  import opened Wrappers
  import opened Records
  import Collection

  datatype ViewMode = Dashboard | Calendar | Tasks | Notes

  /** A `saveToIndexedDB(store, collection)` call. */
  datatype SaveRequest = SaveEvents(events: seq<Event>) | SaveTasks(tasks: seq<Task>) | SaveNotes(notes: seq<Note>)

  // ---------------------------------------------------------------------
  // Persistence gate
  // ---------------------------------------------------------------------

  /** `isLoaded && collection.length > 0` */
  predicate ShouldSave(isLoaded: bool, size: nat) {
    isLoaded && size > 0
  }

  /** The saves one run of the events effect issues. */
  function EventsSaveEffect(isLoaded: bool, events: seq<Event>): (r: seq<SaveRequest>)
    ensures r != [] <==> isLoaded && events != []
    ensures r != [] ==> r == [SaveEvents(events)]
  {
    if ShouldSave(isLoaded, |events|) then [SaveEvents(events)] else []
  }

  function TasksSaveEffect(isLoaded: bool, tasks: seq<Task>): (r: seq<SaveRequest>)
    ensures r != [] <==> isLoaded && tasks != []
    ensures r != [] ==> r == [SaveTasks(tasks)]
  {
    if ShouldSave(isLoaded, |tasks|) then [SaveTasks(tasks)] else []
  }

  function NotesSaveEffect(isLoaded: bool, notes: seq<Note>): (r: seq<SaveRequest>)
    ensures r != [] <==> isLoaded && notes != []
    ensures r != [] ==> r == [SaveNotes(notes)]
  {
    if ShouldSave(isLoaded, |notes|) then [SaveNotes(notes)] else []
  }

  // ---------------------------------------------------------------------
  // Record constructors and updaters
  // ---------------------------------------------------------------------

  /** `{ ...fields, id, completed: false }` */
  function NewEvent(f: EventFields, id: string): Event {
    Event(id, f.title, f.description, f.date, f.startTime, f.endTime, f.category, false)
  }

  /** `{ ...fields, id, completed: false }` */
  function NewTask(f: TaskFields, id: string): Task {
    Task(id, f.title, f.priority, f.dueDate, false)
  }

  /** `{ ...fields, id, createdAt: today, updatedAt: today }` */
  function NewNote(f: NoteFields, id: string, today: string): Note {
    Note(id, f.title, f.content, today, today)
  }

  function EventMerger(p: EventPatch): Event -> Event { e => MergeEvent(e, p) }
  function TaskMerger(p: TaskPatch): Task -> Task { t => MergeTask(t, p) }
  function NoteMerger(p: NotePatch, today: string): Note -> Note { n => MergeNote(n, p, today) }

  function FlipEvent(e: Event): Event { e.(completed := !e.completed) }
  function FlipTask(t: Task): Task { t.(completed := !t.completed) }

  /** `updateEvent`: the records with this id get the patch merged in; every other record stays. */
  function UpdateEvents(s: seq<Event>, id: string, p: EventPatch): (r: seq<Event>)
    ensures |r| == |s|
    ensures forall i :: 0 <= i < |s| ==> r[i] == if s[i].id == id then MergeEvent(s[i], p) else s[i]
  {
    Collection.MapMatching(s, EventId, id, EventMerger(p))
  }

  /** `updateTask` */
  function UpdateTasks(s: seq<Task>, id: string, p: TaskPatch): (r: seq<Task>)
    ensures |r| == |s|
    ensures forall i :: 0 <= i < |s| ==> r[i] == if s[i].id == id then MergeTask(s[i], p) else s[i]
  {
    Collection.MapMatching(s, TaskId, id, TaskMerger(p))
  }

  /** `updateNote`: as the others, and the matching notes' `updatedAt` becomes today. */
  function UpdateNotes(s: seq<Note>, id: string, p: NotePatch, today: string): (r: seq<Note>)
    ensures |r| == |s|
    ensures forall i :: 0 <= i < |s| ==> r[i] == if s[i].id == id then MergeNote(s[i], p, today) else s[i]
  {
    Collection.MapMatching(s, NoteId, id, NoteMerger(p, today))
  }

  /** `toggleEventComplete`: only the matching records' `completed` flips. */
  function ToggleEvents(s: seq<Event>, id: string): (r: seq<Event>)
    ensures |r| == |s|
    ensures forall i :: 0 <= i < |s| ==>
              && r[i].completed == (if s[i].id == id then !s[i].completed else s[i].completed)
              && r[i] == s[i].(completed := r[i].completed)
  {
    Collection.MapMatching(s, EventId, id, FlipEvent)
  }

  /** `toggleTask` */
  function ToggleTasks(s: seq<Task>, id: string): (r: seq<Task>)
    ensures |r| == |s|
    ensures forall i :: 0 <= i < |s| ==>
              && r[i].completed == (if s[i].id == id then !s[i].completed else s[i].completed)
              && r[i] == s[i].(completed := r[i].completed)
  {
    Collection.MapMatching(s, TaskId, id, FlipTask)
  }

  /** `deleteEvent`: every record with the id goes, the others stay in their order. */
  function DeleteEvents(s: seq<Event>, id: string): (r: seq<Event>)
    ensures id !in Collection.Ids(r, EventId)
    ensures forall e :: e in r <==> e in s && e.id != id
    ensures |r| == |s| - Collection.CountId(s, EventId, id)
    ensures Collection.IsSubsequence(r, s)
  {
    Collection.RemoveMatching(s, EventId, id)
  }

  /** `deleteTask` */
  function DeleteTasks(s: seq<Task>, id: string): (r: seq<Task>)
    ensures id !in Collection.Ids(r, TaskId)
    ensures forall t :: t in r <==> t in s && t.id != id
    ensures |r| == |s| - Collection.CountId(s, TaskId, id)
    ensures Collection.IsSubsequence(r, s)
  {
    Collection.RemoveMatching(s, TaskId, id)
  }

  /** `deleteNote` */
  function DeleteNotes(s: seq<Note>, id: string): (r: seq<Note>)
    ensures id !in Collection.Ids(r, NoteId)
    ensures forall n :: n in r <==> n in s && n.id != id
    ensures |r| == |s| - Collection.CountId(s, NoteId, id)
    ensures Collection.IsSubsequence(r, s)
  {
    Collection.RemoveMatching(s, NoteId, id)
  }

  // ---------------------------------------------------------------------
  // Properties of the updaters
  // ---------------------------------------------------------------------

  lemma UpdateEventsIdempotent(s: seq<Event>, id: string, p: EventPatch)
    ensures UpdateEvents(UpdateEvents(s, id, p), id, p) == UpdateEvents(s, id, p)
  {
    Collection.MapMatchingIdempotent(s, EventId, id, EventMerger(p));
  }

  lemma UpdateTasksIdempotent(s: seq<Task>, id: string, p: TaskPatch)
    ensures UpdateTasks(UpdateTasks(s, id, p), id, p) == UpdateTasks(s, id, p)
  {
    Collection.MapMatchingIdempotent(s, TaskId, id, TaskMerger(p));
  }

  /** Idempotent for a fixed "today". */
  lemma UpdateNotesIdempotent(s: seq<Note>, id: string, p: NotePatch, today: string)
    ensures UpdateNotes(UpdateNotes(s, id, p, today), id, p, today) == UpdateNotes(s, id, p, today)
  {
    Collection.MapMatchingIdempotent(s, NoteId, id, NoteMerger(p, today));
  }

  lemma UpdateEventsAbsent(s: seq<Event>, id: string, p: EventPatch)
    requires id !in Collection.Ids(s, EventId)
    ensures UpdateEvents(s, id, p) == s
  {
    Collection.MapMatchingAbsent(s, EventId, id, EventMerger(p));
  }

  lemma UpdateTasksAbsent(s: seq<Task>, id: string, p: TaskPatch)
    requires id !in Collection.Ids(s, TaskId)
    ensures UpdateTasks(s, id, p) == s
  {
    Collection.MapMatchingAbsent(s, TaskId, id, TaskMerger(p));
  }

  lemma UpdateNotesAbsent(s: seq<Note>, id: string, p: NotePatch, today: string)
    requires id !in Collection.Ids(s, NoteId)
    ensures UpdateNotes(s, id, p, today) == s
  {
    Collection.MapMatchingAbsent(s, NoteId, id, NoteMerger(p, today));
  }

  /**
   * An updated note always carries today's `updatedAt`, whatever the update says
   * about it; its `createdAt` changes only when the update carries one.
   */
  lemma UpdateNotesStamp(s: seq<Note>, id: string, p: NotePatch, today: string, i: nat)
    requires i < |s| && s[i].id == id
    ensures UpdateNotes(s, id, p, today)[i].updatedAt == today
    ensures UpdateNotes(s, id, p, today)[i].createdAt == if p.createdAt.Some? then p.createdAt.value else s[i].createdAt
    ensures UpdateNotes(s, id, p, today) == UpdateNotes(s, id, p.(updatedAt := None), today)
  {
  }

  lemma ToggleEventsTwice(s: seq<Event>, id: string)
    ensures ToggleEvents(ToggleEvents(s, id), id) == s
  {
    Collection.MapMatchingInvolution(s, EventId, id, FlipEvent);
  }

  lemma ToggleTasksTwice(s: seq<Task>, id: string)
    ensures ToggleTasks(ToggleTasks(s, id), id) == s
  {
    Collection.MapMatchingInvolution(s, TaskId, id, FlipTask);
  }

  lemma DeleteEventsAbsent(s: seq<Event>, id: string)
    requires id !in Collection.Ids(s, EventId)
    ensures DeleteEvents(s, id) == s
  {
    Collection.RemoveMatchingAbsent(s, EventId, id);
  }

  lemma DeleteTasksAbsent(s: seq<Task>, id: string)
    requires id !in Collection.Ids(s, TaskId)
    ensures DeleteTasks(s, id) == s
  {
    Collection.RemoveMatchingAbsent(s, TaskId, id);
  }

  lemma DeleteNotesAbsent(s: seq<Note>, id: string)
    requires id !in Collection.Ids(s, NoteId)
    ensures DeleteNotes(s, id) == s
  {
    Collection.RemoveMatchingAbsent(s, NoteId, id);
  }

  /** Appending a record under a fresh id keeps the ids unique. */
  lemma AppendFreshKeepsUniqueIds<T>(s: seq<T>, x: T, idOf: T -> string)
    requires Collection.UniqueIds(s, idOf) && idOf(x) !in Collection.Ids(s, idOf)
    ensures Collection.UniqueIds(s + [x], idOf)
  {
  }

  // ---------------------------------------------------------------------
  // The container
  // ---------------------------------------------------------------------

  class Agenda {
    var events: seq<Event>
    var tasks: seq<Task>
    var notes: seq<Note>
    /** The selected day, as its `YYYY-MM-DD` string. */
    var selectedDate: string
    var viewMode: ViewMode
    var isLoaded: bool
    /** Every save issued so far, oldest first. */
    var saves: seq<SaveRequest>

    /** Nothing is saved before loading has finished. */
    ghost predicate Valid()
      reads this
    {
      !isLoaded ==> saves == []
    }

    twostate predicate KeepsOthers(keepEvents: bool, keepTasks: bool, keepNotes: bool)
      reads this
    {
      && (keepEvents ==> events == old(events))
      && (keepTasks ==> tasks == old(tasks))
      && (keepNotes ==> notes == old(notes))
      && selectedDate == old(selectedDate)
      && viewMode == old(viewMode)
      && isLoaded == old(isLoaded)
    }

    /** Initial state: empty collections, today selected, the dashboard view, not loaded. */
    constructor (today: string)
      ensures Valid()
      ensures events == [] && tasks == [] && notes == []
      ensures selectedDate == today && viewMode == Dashboard
      ensures !isLoaded && saves == []
    {
      events, tasks, notes := [], [], [];
      selectedDate, viewMode := today, Dashboard;
      isLoaded, saves := false, [];
    }

    /**
     * The mount-time load, as one step. A collection whose read failed (or gave
     * nothing) is `None` and loads as empty; `isLoaded` becomes true in every case.
     * The three save effects then run, in declaration order, on the loaded data.
     */
    method Load(loadedEvents: Option<seq<Event>>, loadedTasks: Option<seq<Task>>, loadedNotes: Option<seq<Note>>)
      modifies this
      ensures Valid() && isLoaded
      ensures events == loadedEvents.GetOr([])
      ensures tasks == loadedTasks.GetOr([])
      ensures notes == loadedNotes.GetOr([])
      ensures selectedDate == old(selectedDate) && viewMode == old(viewMode)
      ensures saves == old(saves) + EventsSaveEffect(true, events) + TasksSaveEffect(true, tasks)
                       + NotesSaveEffect(true, notes)
    {
      events := loadedEvents.GetOr([]);
      tasks := loadedTasks.GetOr([]);
      notes := loadedNotes.GetOr([]);
      isLoaded := true;
      saves := saves + EventsSaveEffect(isLoaded, events);
      saves := saves + TasksSaveEffect(isLoaded, tasks);
      saves := saves + NotesSaveEffect(isLoaded, notes);
    }

    method SetSelectedDate(d: string)
      modifies this`selectedDate
      ensures selectedDate == d
    {
      selectedDate := d;
    }

    method SetViewMode(v: ViewMode)
      modifies this`viewMode
      ensures viewMode == v
    {
      viewMode := v;
    }

    /** `addEvent`: one new record at the end, under the fresh id, not completed. */
    method AddEvent(f: EventFields, id: string)
      requires Valid()
      requires id != "" && id !in Collection.Ids(events, EventId)
      modifies this
      ensures Valid() && KeepsOthers(false, true, true)
      ensures events == old(events) + [Event(id, f.title, f.description, f.date, f.startTime, f.endTime, f.category, false)]
      ensures saves == old(saves) + EventsSaveEffect(isLoaded, events)
      ensures Collection.UniqueIds(old(events), EventId) ==> Collection.UniqueIds(events, EventId)
    {
      ghost var before := events;
      events := events + [NewEvent(f, id)];
      saves := saves + EventsSaveEffect(isLoaded, events);
      if Collection.UniqueIds(before, EventId) {
        AppendFreshKeepsUniqueIds(before, NewEvent(f, id), EventId);
      }
    }

    /** `updateEvent` */
    method UpdateEvent(id: string, p: EventPatch)
      requires Valid()
      modifies this
      ensures Valid() && KeepsOthers(false, true, true)
      ensures events == UpdateEvents(old(events), id, p)
      ensures saves == old(saves) + EventsSaveEffect(isLoaded, events)
      ensures Collection.UniqueIds(old(events), EventId) && p.id.None? ==> Collection.UniqueIds(events, EventId)
    {
      ghost var before := events;
      events := UpdateEvents(events, id, p);
      saves := saves + EventsSaveEffect(isLoaded, events);
      if Collection.UniqueIds(before, EventId) && p.id.None? {
        Collection.MapMatchingKeepsUniqueIds(before, EventId, id, EventMerger(p));
      }
    }

    /** `deleteEvent` */
    method DeleteEvent(id: string)
      requires Valid()
      modifies this
      ensures Valid() && KeepsOthers(false, true, true)
      ensures events == DeleteEvents(old(events), id)
      ensures saves == old(saves) + EventsSaveEffect(isLoaded, events)
      ensures Collection.UniqueIds(old(events), EventId) ==> Collection.UniqueIds(events, EventId)
    {
      ghost var before := events;
      events := DeleteEvents(events, id);
      saves := saves + EventsSaveEffect(isLoaded, events);
      if Collection.UniqueIds(before, EventId) {
        Collection.SubsequenceKeepsUniqueIds(events, before, EventId);
      }
    }

    /** `toggleEventComplete` */
    method ToggleEventComplete(id: string)
      requires Valid()
      modifies this
      ensures Valid() && KeepsOthers(false, true, true)
      ensures events == ToggleEvents(old(events), id)
      ensures saves == old(saves) + EventsSaveEffect(isLoaded, events)
      ensures Collection.UniqueIds(old(events), EventId) ==> Collection.UniqueIds(events, EventId)
    {
      ghost var before := events;
      events := ToggleEvents(events, id);
      saves := saves + EventsSaveEffect(isLoaded, events);
      if Collection.UniqueIds(before, EventId) {
        Collection.MapMatchingKeepsUniqueIds(before, EventId, id, FlipEvent);
      }
    }

    /** `addTask`: one new record at the end, under the fresh id, not completed. */
    method AddTask(f: TaskFields, id: string)
      requires Valid()
      requires id != "" && id !in Collection.Ids(tasks, TaskId)
      modifies this
      ensures Valid() && KeepsOthers(true, false, true)
      ensures tasks == old(tasks) + [Task(id, f.title, f.priority, f.dueDate, false)]
      ensures saves == old(saves) + TasksSaveEffect(isLoaded, tasks)
      ensures Collection.UniqueIds(old(tasks), TaskId) ==> Collection.UniqueIds(tasks, TaskId)
    {
      ghost var before := tasks;
      tasks := tasks + [NewTask(f, id)];
      saves := saves + TasksSaveEffect(isLoaded, tasks);
      if Collection.UniqueIds(before, TaskId) {
        AppendFreshKeepsUniqueIds(before, NewTask(f, id), TaskId);
      }
    }

    /** `updateTask` */
    method UpdateTask(id: string, p: TaskPatch)
      requires Valid()
      modifies this
      ensures Valid() && KeepsOthers(true, false, true)
      ensures tasks == UpdateTasks(old(tasks), id, p)
      ensures saves == old(saves) + TasksSaveEffect(isLoaded, tasks)
      ensures Collection.UniqueIds(old(tasks), TaskId) && p.id.None? ==> Collection.UniqueIds(tasks, TaskId)
    {
      ghost var before := tasks;
      tasks := UpdateTasks(tasks, id, p);
      saves := saves + TasksSaveEffect(isLoaded, tasks);
      if Collection.UniqueIds(before, TaskId) && p.id.None? {
        Collection.MapMatchingKeepsUniqueIds(before, TaskId, id, TaskMerger(p));
      }
    }

    /** `deleteTask` */
    method DeleteTask(id: string)
      requires Valid()
      modifies this
      ensures Valid() && KeepsOthers(true, false, true)
      ensures tasks == DeleteTasks(old(tasks), id)
      ensures saves == old(saves) + TasksSaveEffect(isLoaded, tasks)
      ensures Collection.UniqueIds(old(tasks), TaskId) ==> Collection.UniqueIds(tasks, TaskId)
    {
      ghost var before := tasks;
      tasks := DeleteTasks(tasks, id);
      saves := saves + TasksSaveEffect(isLoaded, tasks);
      if Collection.UniqueIds(before, TaskId) {
        Collection.SubsequenceKeepsUniqueIds(tasks, before, TaskId);
      }
    }

    /** `toggleTask` */
    method ToggleTask(id: string)
      requires Valid()
      modifies this
      ensures Valid() && KeepsOthers(true, false, true)
      ensures tasks == ToggleTasks(old(tasks), id)
      ensures saves == old(saves) + TasksSaveEffect(isLoaded, tasks)
      ensures Collection.UniqueIds(old(tasks), TaskId) ==> Collection.UniqueIds(tasks, TaskId)
    {
      ghost var before := tasks;
      tasks := ToggleTasks(tasks, id);
      saves := saves + TasksSaveEffect(isLoaded, tasks);
      if Collection.UniqueIds(before, TaskId) {
        Collection.MapMatchingKeepsUniqueIds(before, TaskId, id, FlipTask);
      }
    }

    /** `addNote`: one new note at the end, created and updated today. */
    method AddNote(f: NoteFields, id: string, today: string)
      requires Valid()
      requires id != "" && id !in Collection.Ids(notes, NoteId)
      modifies this
      ensures Valid() && KeepsOthers(true, true, false)
      ensures notes == old(notes) + [Note(id, f.title, f.content, today, today)]
      ensures saves == old(saves) + NotesSaveEffect(isLoaded, notes)
      ensures Collection.UniqueIds(old(notes), NoteId) ==> Collection.UniqueIds(notes, NoteId)
    {
      ghost var before := notes;
      notes := notes + [NewNote(f, id, today)];
      saves := saves + NotesSaveEffect(isLoaded, notes);
      if Collection.UniqueIds(before, NoteId) {
        AppendFreshKeepsUniqueIds(before, NewNote(f, id, today), NoteId);
      }
    }

    /** `updateNote`: merges the patch and stamps `updatedAt` with today. */
    method UpdateNote(id: string, p: NotePatch, today: string)
      requires Valid()
      modifies this
      ensures Valid() && KeepsOthers(true, true, false)
      ensures notes == UpdateNotes(old(notes), id, p, today)
      ensures saves == old(saves) + NotesSaveEffect(isLoaded, notes)
      ensures Collection.UniqueIds(old(notes), NoteId) && p.id.None? ==> Collection.UniqueIds(notes, NoteId)
    {
      ghost var before := notes;
      notes := UpdateNotes(notes, id, p, today);
      saves := saves + NotesSaveEffect(isLoaded, notes);
      if Collection.UniqueIds(before, NoteId) && p.id.None? {
        Collection.MapMatchingKeepsUniqueIds(before, NoteId, id, NoteMerger(p, today));
      }
    }

    /** `deleteNote` */
    method DeleteNote(id: string)
      requires Valid()
      modifies this
      ensures Valid() && KeepsOthers(true, true, false)
      ensures notes == DeleteNotes(old(notes), id)
      ensures saves == old(saves) + NotesSaveEffect(isLoaded, notes)
      ensures Collection.UniqueIds(old(notes), NoteId) ==> Collection.UniqueIds(notes, NoteId)
    {
      ghost var before := notes;
      notes := DeleteNotes(notes, id);
      saves := saves + NotesSaveEffect(isLoaded, notes);
      if Collection.UniqueIds(before, NoteId) {
        Collection.SubsequenceKeepsUniqueIds(notes, before, NoteId);
      }
    }
  }
}
