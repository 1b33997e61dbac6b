/**
 * The three kinds of agenda record (events, tasks, notes), the field sets the
 * forms hand to the store when adding, and the partial records used by the
 * updaters. A partial record has every field optional: `{ ...record, ...update }`
 * overwrites exactly the fields the update carries, including `id` and
 * `completed` when present.
 */
module Records {
  import opened Wrappers
  import Collection

  /** Event categories, keyed as in the category label table. */
  datatype Category = Trabajo | Personal | Salud | Estudio | Otro

  /** Task priorities, keyed as in the priority label table. */
  datatype Priority = Alta | Media | Baja

  /** Dates are `YYYY-MM-DD` strings, times `HH:MM` strings. */
  datatype Event = Event(
    id: string,
    title: string,
    description: string,
    date: string,
    startTime: string,
    endTime: string,
    category: Category,
    completed: bool)

  datatype Task = Task(
    id: string,
    title: string,
    priority: Priority,
    dueDate: Option<string>,
    completed: bool)

  /** `createdAt` and `updatedAt` are `YYYY-MM-DD` day strings. */
  datatype Note = Note(
    id: string,
    title: string,
    content: string,
    createdAt: string,
    updatedAt: string)

  /** What the event dialog passes to `addEvent`. */
  datatype EventFields = EventFields(
    title: string,
    description: string,
    date: string,
    startTime: string,
    endTime: string,
    category: Category)

  /** What the task form passes to `addTask`; a due date of `null` is `None`. */
  datatype TaskFields = TaskFields(title: string, priority: Priority, dueDate: Option<string>)

  /** What the notes form passes to `addNote`. */
  datatype NoteFields = NoteFields(title: string, content: string)

  datatype EventPatch = EventPatch(
    id: Option<string>,
    title: Option<string>,
    description: Option<string>,
    date: Option<string>,
    startTime: Option<string>,
    endTime: Option<string>,
    category: Option<Category>,
    completed: Option<bool>)

  /** `dueDate` is `Some(None)` when the update sets it to `null`. */
  datatype TaskPatch = TaskPatch(
    id: Option<string>,
    title: Option<string>,
    priority: Option<Priority>,
    dueDate: Option<Option<string>>,
    completed: Option<bool>)

  datatype NotePatch = NotePatch(
    id: Option<string>,
    title: Option<string>,
    content: Option<string>,
    createdAt: Option<string>,
    updatedAt: Option<string>)

  function EventId(e: Event): string { e.id }
  function TaskId(t: Task): string { t.id }
  function NoteId(n: Note): string { n.id }

  /** The patch the event dialog sends on edit: all six form fields, nothing else. */
  function EventFieldsPatch(f: EventFields): EventPatch {
    EventPatch(None, Some(f.title), Some(f.description), Some(f.date), Some(f.startTime),
               Some(f.endTime), Some(f.category), None)
  }

  /** `{ ...e, ...p }` */
  function MergeEvent(e: Event, p: EventPatch): Event {
    Event(p.id.GetOr(e.id), p.title.GetOr(e.title), p.description.GetOr(e.description),
          p.date.GetOr(e.date), p.startTime.GetOr(e.startTime), p.endTime.GetOr(e.endTime),
          p.category.GetOr(e.category), p.completed.GetOr(e.completed))
  }

  /** `{ ...t, ...p }` */
  function MergeTask(t: Task, p: TaskPatch): Task {
    Task(p.id.GetOr(t.id), p.title.GetOr(t.title), p.priority.GetOr(t.priority),
         p.dueDate.GetOr(t.dueDate), p.completed.GetOr(t.completed))
  }

  /** `{ ...n, ...p, updatedAt: today }`: the update's own `updatedAt` is overwritten. */
  function MergeNote(n: Note, p: NotePatch, today: string): Note {
    Note(p.id.GetOr(n.id), p.title.GetOr(n.title), p.content.GetOr(n.content),
         p.createdAt.GetOr(n.createdAt), today)
  }

  /** `e.date === d`, the shared test of the dashboard's today list and the calendar buckets. */
  function EventsOn(events: seq<Event>, d: string): (r: seq<Event>)
    ensures forall e :: e in r <==> e in events && e.date == d
    ensures Collection.IsSubsequence(r, events)
    ensures forall e :: multiset(r)[e] == if e.date == d then multiset(events)[e] else 0
  {
    Collection.FilterMultiset(events, (e: Event) => e.date == d);
    Collection.Filter(events, (e: Event) => e.date == d)
  }

  predicate IsPending(t: Task) { !t.completed }
  predicate IsCompleted(t: Task) { t.completed }
}
