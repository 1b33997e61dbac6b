# Personal agenda — a verified model of its state and views

The agenda keeps three collections in the browser:
- events, with a date, start and end times and a category;
- tasks, with a priority and an optional due date;
- notes, with creation and update days.

A single state container (`AgendaProvider`) holds these collections and offers add, update, delete and toggle on each. It persists a collection to the browser's object stores after it changes, but only once loading has finished and only when the collection is not empty. Four views read the collections:
- the dashboard computes today's events, the pending and completed split, the completion percentage and the next five events;
- the calendar draws a Monday-first month grid, groups events by day and sorts the selected day by start time;
- the task list filters by status and has a create/edit dialog;
- the notes page has a create dialog and an inline editor.

The event dialog is shared by the dashboard and the calendar.

This project models that core in Dafny and proves what each part promises.

| module | file | models |
|---|---|---|
| `Collection` | collection.dfy | the two updater shapes over id-keyed arrays (`map` on a matching id, `filter` out an id), `filter`, `slice` |
| `Records` | records.dfy | events, tasks, notes, the form field sets, partial records and the spread merge `{...r, ...update}` |
| `Strings` | strings.dfy | lexical string order (`localeCompare`), `trim` with ECMAScript's whitespace set, `String(n)`, `padStart` |
| `AgendaStore` | store.dfy | the container as a class `Agenda`: each operation assigns a pure transform of the old collection. It also holds the load step and the three save effects. The saves issued are kept in a `saves` log |
| `Sorting`, `EventOrder` | sorting.dfy, order.dfy | `Array.prototype.sort` with the two comparators, both as a value and in place on an array |
| `Dashboard` | dashboard.dfy | the dashboard's figures |
| `Calendar` | calendar.dfy | month lengths, the weekday mapping, navigation (class `CalendarView`), the grid loops, grouping by date, the selected-day sort, the day keys |
| `TasksView`, `NotesView`, `EventFormDialog` | tasks_view.dfy, notes_view.dfy, event_form.dfy | the three forms as classes over their state fields. Each submit returns the store call it would make, as a value |
| `Persistence` | persistence.dfy | what the object stores hold after the save effects run, as written and corrected (see Findings) |
| `Scenarios` | scenarios.dfy | end-to-end runs on concrete records |

Inputs the program reads from the browser are parameters: the fresh id, today's `YYYY-MM-DD` string, and the weekday of the first of the month. Each `add` requires a fresh, non-empty id. The source only makes id collisions improbable, but every property about unique ids depends on this.

Storage is meant to hold what each collection holds, but saving only upserts, and the save gate skips empty collections. Both are logged under Findings.

## Model

| member | source | states |
|---|---|---|
| Collection.MapMatching | src/lib/agenda-store.jsx:115-117 | `prev.map(x => x.id === id ? f(x) : x)`: same length, each record with the id becomes `f` of itself, every other record is unchanged at its index |
| Collection.RemoveMatching | src/lib/agenda-store.jsx:119-121 | `prev.filter(x => x.id !== id)`: the result holds exactly the records of the input whose id differs, in their original order (a subsequence), and it is shorter by the number of records carrying the id |
| Collection.CountId | src/lib/agenda-store.jsx:119-121 | the number of records carrying an id is at most the length, and it is 0 exactly when the id is absent |
| Collection.MapMatchingAbsent | src/lib/agenda-store.jsx:115-117 | updating an id no record carries leaves the collection unchanged |
| Collection.MapMatchingIdempotent | src/lib/agenda-store.jsx:115-117 | a change that is idempotent on the records it keeps matching, applied twice, is applied once |
| Collection.MapMatchingInvolution | src/lib/agenda-store.jsx:123-125 | a change that keeps the id and undoes itself, applied twice, restores the collection |
| Collection.MapMatchingKeepsUniqueIds | src/lib/agenda-store.jsx:115-117 | a change that keeps ids keeps the id set and keeps ids unique |
| Collection.RemoveMatchingAbsent | src/lib/agenda-store.jsx:119-121 | deleting an absent id leaves the collection unchanged |
| Collection.SubsequenceKeepsUniqueIds | src/lib/agenda-store.jsx:119-121 | leaving records out of a collection with unique ids keeps them unique |
| Collection.Filter | src/components/agenda/dashboard-view.jsx:19-21 | `s.filter(p)`: every kept element passes, membership is exactly "in s and passes", order is kept, no longer than s |
| Collection.FilterMultiset | src/components/agenda/dashboard-view.jsx:19-21 | `s.filter(p)` keeps each passing element exactly as often as it occurs in s, and no failing one |
| Collection.FilterAppend | src/components/agenda/calendar-view.jsx:52-55 | filtering distributes over concatenation |
| Collection.FilterPartition | src/components/agenda/dashboard-view.jsx:20-21 | filtering by a predicate and by its negation splits a sequence: sizes and multisets add up |
| Collection.FilterAll | src/components/agenda/tasks-view.jsx:44 | a filter every element passes keeps the whole sequence |
| Collection.FilterExtensional | src/components/agenda/tasks-view.jsx:41-48 | filters by predicates that agree everywhere give the same result |
| Collection.Take | src/components/agenda/dashboard-view.jsx:27 | `slice(0, n)`: a prefix of length min(n, length) |
| Strings.Compare | src/components/agenda/calendar-view.jsx:60-61 | `localeCompare` on zero-padded ASCII strings: 0 exactly for equal strings, negative exactly when the first is lexically smaller, positive exactly when it is larger |
| Strings.StrLeqReflexive | src/components/agenda/dashboard-view.jsx:26 | every string is ordered before or equal to itself |
| Strings.StrLeqTotal | src/components/agenda/dashboard-view.jsx:26 | any two strings are ordered one way or the other |
| Strings.StrLeqAntisymmetric | src/components/agenda/dashboard-view.jsx:26 | strings ordered both ways are equal |
| Strings.StrLeqTransitive | src/components/agenda/dashboard-view.jsx:26 | the lexical order is transitive |
| Strings.StrLeqConcat | src/components/agenda/calendar-view.jsx:149 | two concatenations with equally long first parts compare by their first parts, and by their second parts when the first are equal |
| Strings.TrimStartSpec | src/components/agenda/tasks-view.jsx:52 | drops a prefix that is all whitespace, keeps a suffix that does not start with whitespace |
| Strings.TrimEndSpec | src/components/agenda/tasks-view.jsx:52 | drops a suffix that is all whitespace, keeps a prefix that does not end with whitespace |
| Strings.TrimIsMiddle | src/components/agenda/tasks-view.jsx:57-58 | `trim()` is a middle slice of the input, with only whitespace cut off on either side and no whitespace at its ends |
| Strings.BlankIffAllWhitespace | src/components/agenda/tasks-view.jsx:52 | `!s.trim()` holds exactly when every character of `s` is whitespace (the empty string included) |
| Strings.TrimIdempotent | src/components/agenda/notes-view.jsx:31 | trimming twice is trimming once |
| Strings.NatToString | src/components/agenda/calendar-view.jsx:149 | `String(n)`: at least one digit, only digits, a leading zero exactly for 0 |
| Strings.NatToStringRoundTrip | src/components/agenda/calendar-view.jsx:149 | reading the digits of `String(n)` back gives `n` |
| Strings.IntToStringInjective | src/components/agenda/calendar-view.jsx:149 | different years render differently, negative years included |
| Strings.SignOfIntToString | src/components/agenda/calendar-view.jsx:149 | the rendering starts with a minus sign exactly for negative numbers |
| Strings.Repeat | src/components/agenda/calendar-view.jsx:149 | `n` copies of the fill character |
| Strings.PadStart | src/components/agenda/calendar-view.jsx:149 | `padStart(width, fill)`: length max(width, length), ends with the input, fill characters before it |
| Strings.TwoDigitRoundTrip | src/components/agenda/calendar-view.jsx:149 | `String(n).padStart(2, "0")` for n < 100 is two digits that read back as `n` |
| Strings.LeadingZeroValue | src/components/agenda/calendar-view.jsx:149 | a leading `0` does not change the value a digit string denotes |
| Strings.DigitsValueBound | src/components/agenda/calendar-view.jsx:149 | a digit string of length k denotes less than 10^k |
| Strings.DigitsOrder | src/components/agenda/dashboard-view.jsx:25 | for digit strings of equal length, lexical order is numeric order and equality is numeric equality |
| Strings.FourDigits | src/components/agenda/calendar-view.jsx:149 | a year in 1000..9999 renders as four characters |
| Records.EventsOn | src/components/agenda/dashboard-view.jsx:19 | `events.filter(e => e.date === d)`: exactly the events on that day, each as often as it occurs, in collection order |
| AgendaStore.EventsSaveEffect | src/lib/agenda-store.jsx:91-95 | a save of the events is issued exactly when the store is loaded and the collection is non-empty, and it saves the whole collection |
| AgendaStore.TasksSaveEffect | src/lib/agenda-store.jsx:97-102 | the same gate for tasks |
| AgendaStore.NotesSaveEffect | src/lib/agenda-store.jsx:104-109 | the same gate for notes |
| AgendaStore.UpdateEvents | src/lib/agenda-store.jsx:115-117 | length kept; the records with the id get the patch merged in, field by field; the others are unchanged |
| AgendaStore.UpdateTasks | src/lib/agenda-store.jsx:131-133 | the same for tasks |
| AgendaStore.UpdateNotes | src/lib/agenda-store.jsx:148-151 | the same for notes, with `updatedAt` set to today after the patch |
| AgendaStore.ToggleEvents | src/lib/agenda-store.jsx:123-125 | length kept; exactly the records with the id have `completed` flipped and every other field kept |
| AgendaStore.ToggleTasks | src/lib/agenda-store.jsx:139-141 | the same for tasks |
| AgendaStore.DeleteEvents | src/lib/agenda-store.jsx:119-121 | no record with the id remains; the others remain in their original order; the length drops by the number removed |
| AgendaStore.DeleteTasks | src/lib/agenda-store.jsx:135-137 | the same for tasks |
| AgendaStore.DeleteNotes | src/lib/agenda-store.jsx:153-155 | the same for notes |
| AgendaStore.UpdateEventsIdempotent | src/lib/agenda-store.jsx:115-117 | updating twice with the same patch equals updating once |
| AgendaStore.UpdateTasksIdempotent | src/lib/agenda-store.jsx:131-133 | the same for tasks |
| AgendaStore.UpdateNotesIdempotent | src/lib/agenda-store.jsx:148-151 | the same for notes, given the same today |
| AgendaStore.UpdateEventsAbsent | src/lib/agenda-store.jsx:115-117 | updating an absent id is a no-op |
| AgendaStore.UpdateTasksAbsent | src/lib/agenda-store.jsx:131-133 | the same for tasks |
| AgendaStore.UpdateNotesAbsent | src/lib/agenda-store.jsx:148-151 | the same for notes |
| AgendaStore.UpdateNotesStamp | src/lib/agenda-store.jsx:148-151 | an updated note has `updatedAt` = today whatever the patch says; `createdAt` changes only if the patch carries it; a patch's own `updatedAt` has no effect |
| AgendaStore.ToggleEventsTwice | src/lib/agenda-store.jsx:123-125 | toggling twice restores the events |
| AgendaStore.ToggleTasksTwice | src/lib/agenda-store.jsx:139-141 | toggling twice restores the tasks |
| AgendaStore.DeleteEventsAbsent | src/lib/agenda-store.jsx:119-121 | deleting an absent id is a no-op |
| AgendaStore.DeleteTasksAbsent | src/lib/agenda-store.jsx:135-137 | the same for tasks |
| AgendaStore.DeleteNotesAbsent | src/lib/agenda-store.jsx:153-155 | the same for notes |
| AgendaStore.AppendFreshKeepsUniqueIds | src/lib/agenda-store.jsx:111-113 | appending a record with a fresh id keeps ids unique |
| AgendaStore.Agenda.constructor | src/lib/agenda-store.jsx:60-65 | empty collections, today selected, dashboard view, not loaded, nothing saved |
| AgendaStore.Agenda.Load | src/lib/agenda-store.jsx:67-109 | each collection becomes what was read, or empty if its read failed. `isLoaded` becomes true in every case. Then the three save effects run in order on the loaded data |
| AgendaStore.Agenda.SetSelectedDate | src/lib/agenda-store.jsx:63 | only the selected day changes |
| AgendaStore.Agenda.SetViewMode | src/lib/agenda-store.jsx:64 | only the view mode changes |
| AgendaStore.Agenda.AddEvent | src/lib/agenda-store.jsx:111-113 | exactly one event is appended, with the given fields, the fresh id and `completed = false`. Earlier events and the other collections are unchanged. The gate's save is logged and unique ids are kept |
| AgendaStore.Agenda.UpdateEvent | src/lib/agenda-store.jsx:115-117 | events become `UpdateEvents` of the old events; nothing else changes but the gated save; unique ids kept when the patch has no id |
| AgendaStore.Agenda.DeleteEvent | src/lib/agenda-store.jsx:119-121 | events become `DeleteEvents` of the old events; the gated save; unique ids kept |
| AgendaStore.Agenda.ToggleEventComplete | src/lib/agenda-store.jsx:123-125 | events become `ToggleEvents` of the old events; the gated save; unique ids kept |
| AgendaStore.Agenda.AddTask | src/lib/agenda-store.jsx:127-129 | exactly one task appended with the given fields, the fresh id and `completed = false`; the rest unchanged |
| AgendaStore.Agenda.UpdateTask | src/lib/agenda-store.jsx:131-133 | tasks become `UpdateTasks` of the old tasks; the gated save |
| AgendaStore.Agenda.DeleteTask | src/lib/agenda-store.jsx:135-137 | tasks become `DeleteTasks` of the old tasks; the gated save |
| AgendaStore.Agenda.ToggleTask | src/lib/agenda-store.jsx:139-141 | tasks become `ToggleTasks` of the old tasks; the gated save |
| AgendaStore.Agenda.AddNote | src/lib/agenda-store.jsx:143-146 | exactly one note appended with the given fields, the fresh id and `createdAt == updatedAt == today` |
| AgendaStore.Agenda.UpdateNote | src/lib/agenda-store.jsx:148-151 | notes become `UpdateNotes` of the old notes with today; the gated save |
| AgendaStore.Agenda.DeleteNote | src/lib/agenda-store.jsx:153-155 | notes become `DeleteNotes` of the old notes; the gated save |
| Sorting.Insert | src/components/agenda/dashboard-view.jsx:26 | inserting into a sorted sequence keeps it sorted and adds exactly the element |
| Sorting.Sort | src/components/agenda/dashboard-view.jsx:26 | `sort(cmp)` on a fresh array: sorted by the comparator, a permutation of the input |
| Sorting.SortArray | src/components/agenda/calendar-view.jsx:60-62 | in-place sort of an array: afterwards sorted, and a permutation of its old contents |
| Sorting.PrefixPrecedesRest | src/components/agenda/dashboard-view.jsx:26-27 | in a sorted sequence nothing after a cut sorts strictly before anything in front of it |
| Sorting.TakeSorted | src/components/agenda/dashboard-view.jsx:26-27 | a prefix of a sort is sorted, drawn from the input, and precedes everything of the input it leaves out |
| EventOrder.ByDateThenStartTimeIsLexicographic | src/components/agenda/dashboard-view.jsx:26 | `cmpDate \|\| cmpTime` orders events by date, and by start time when the dates are equal |
| EventOrder.ByStartTimeIsTotalPreorder | src/components/agenda/calendar-view.jsx:60-62 | the per-day comparator is total and transitive |
| EventOrder.ByDateThenStartTimeIsTotalPreorder | src/components/agenda/dashboard-view.jsx:26 | the dashboard comparator is total and transitive |
| Dashboard.PendingTasks | src/components/agenda/dashboard-view.jsx:20 | exactly the open tasks, in collection order |
| Dashboard.CompletedTasks | src/components/agenda/dashboard-view.jsx:21 | exactly the completed tasks, in collection order |
| Dashboard.PendingCompletedPartition | src/components/agenda/dashboard-view.jsx:20-21 | the two lists' lengths add up to the number of tasks, and their contents add up to the tasks |
| Dashboard.CompletionRate | src/components/agenda/dashboard-view.jsx:22 | in 0..100; 0 without tasks; otherwise within half a point of 100·completed/total, halves rounded up, as `Math.round` does |
| Dashboard.RoundHalfUp | src/components/agenda/dashboard-view.jsx:22 | floor((200c + t) / (2t)) is in 0..100 and is the integer nearest to 100c/t, halves rounded up |
| Dashboard.CompletionRateExamples | src/components/agenda/dashboard-view.jsx:22 | no tasks give 0; one done out of two gives 50 |
| Dashboard.UpcomingCandidates | src/components/agenda/dashboard-view.jsx:25 | exactly the events on or after today that are not completed |
| Dashboard.UpcomingEvents | src/components/agenda/dashboard-view.jsx:24-27 | at most 5 events, each on or after today and not completed; min(5, #qualifying) of them; sorted by (date, startTime); drawn from the qualifying events; no qualifying event left out sorts strictly before one shown |
| Dashboard.QuickPendingTasks | src/components/agenda/dashboard-view.jsx:173 | at most 5 tasks, all open, the first min(5, #open) open tasks in order |
| Calendar.DaysInMonth | src/components/agenda/calendar-view.jsx:23-25 | 28..31. February has 29 days exactly in a Gregorian leap year, with a two-digit year read as 19yy. April, June, September and November have 30, the rest 31 |
| Calendar.YearLength | src/components/agenda/calendar-view.jsx:23-25 | the twelve month lengths add up to 366 in a leap year and 365 otherwise |
| Calendar.TwoDigitYearExamples | src/components/agenda/calendar-view.jsx:24 | February of year 0 (read as 1900) has 28 days, of 2000 and 2024 29, of 1900 28 |
| Calendar.FirstDayOfMonth | src/components/agenda/calendar-view.jsx:27-30 | a column in 0..6 of a Monday-first week whose JS weekday (0 = Sunday) is the input |
| Calendar.FirstDayOfMonthBijective | src/components/agenda/calendar-view.jsx:27-30 | the mapping is injective and `JsWeekday` is its two-sided inverse on 0..6 |
| Calendar.JsWeekday | src/components/agenda/calendar-view.jsx:27-30 | a JS weekday number in 0..6 |
| Calendar.NextMonthOf | src/components/agenda/calendar-view.jsx:74-81 | the month stays in 0..11 and the month count advances by exactly one (December wraps to January of the next year) |
| Calendar.PrevMonthOf | src/components/agenda/calendar-view.jsx:65-72 | the month stays in 0..11 and the month count goes back by exactly one (January wraps to December of the previous year) |
| Calendar.MonthNumberInjective | src/components/agenda/calendar-view.jsx:65-81 | a (month, year) pair with month in 0..11 is determined by its month count |
| Calendar.NavigationInverse | src/components/agenda/calendar-view.jsx:65-81 | previous after next, and next after previous, are the identity |
| Calendar.DateKey | src/components/agenda/calendar-view.jsx:149 | the key starts with the year's rendering followed by `-`, has `-` three places later, and is six characters longer than the year for days below 100 |
| Calendar.KeySplit | src/components/agenda/calendar-view.jsx:149 | the key is the year followed by a six-character tail whose two 2-digit fields read back as month + 1 and the day |
| Calendar.DateKeyInjective | src/components/agenda/calendar-view.jsx:149 | different cells get different keys, for every year |
| Calendar.DateKeyParts | src/components/agenda/calendar-view.jsx:149 | for four-digit years the key has 10 characters with `-` at positions 4 and 7 |
| Calendar.DateKeyOrder | src/components/agenda/calendar-view.jsx:149 | for four-digit years, comparing keys as strings compares the days on the calendar (the order the dashboard's `date >= today` relies on) |
| Calendar.CalendarCells | src/components/agenda/calendar-view.jsx:90-92 | `firstDay + daysInMonth` cells: first `firstDay` empty ones, then the days 1..daysInMonth in increasing order |
| Calendar.Dates | src/components/agenda/calendar-view.jsx:52-55 | exactly the dates that occur among the events |
| Calendar.EventsByDate | src/components/agenda/calendar-view.jsx:50-57 | one bucket per date that occurs and no other. Each bucket is exactly that date's events in collection order. A date without a bucket has no events |
| Calendar.OccursOnce | src/components/agenda/calendar-view.jsx:50-57 | a date listed once among distinct keys occurs exactly once |
| Calendar.NotOccurring | src/components/agenda/calendar-view.jsx:50-57 | a date not listed occurs zero times |
| Calendar.BucketSizesCons | src/components/agenda/calendar-view.jsx:50-57 | prepending an event adds to the bucket sizes the number of times its date is listed |
| Calendar.EmptyBuckets | src/components/agenda/calendar-view.jsx:50-57 | no events give empty buckets |
| Calendar.BucketSizesSum | src/components/agenda/calendar-view.jsx:50-57 | every event lies in exactly one bucket: over the dates without repetition, bucket sizes add up to the number of events |
| Calendar.SelectedEvents | src/components/agenda/calendar-view.jsx:59-63 | sorted by start time; a permutation of the selected day's bucket, or empty without one; the map comes back with that bucket replaced by its sorted order, as the in-place sort leaves it |
| Calendar.DayDots | src/components/agenda/calendar-view.jsx:152-170 | at most 3 of the day's events: the first min(3, size) of its bucket, none without one |
| Calendar.CalendarView.constructor | src/components/agenda/calendar-view.jsx:41-42 | the view opens on the selected month and year |
| Calendar.CalendarView.PrevMonth | src/components/agenda/calendar-view.jsx:65-72 | the shown month becomes `PrevMonthOf` of the old one and stays in 0..11 |
| Calendar.CalendarView.NextMonth | src/components/agenda/calendar-view.jsx:74-81 | the shown month becomes `NextMonthOf` of the old one and stays in 0..11 |
| Calendar.CalendarView.GoToToday | src/components/agenda/calendar-view.jsx:83-88 | shows the current month and year and selects today in the store |
| Calendar.CalendarView.SelectDay | src/components/agenda/calendar-view.jsx:157 | selects the clicked cell's key in the store |
| TasksView.FilteredTasks | src/components/agenda/tasks-view.jsx:41-45 | `"pending"` gives exactly the open tasks, `"completed"` exactly the completed ones, any other value all tasks; order kept |
| TasksView.FilteredTasksAgreeWithDashboard | src/components/agenda/tasks-view.jsx:41-45 | the list's two status filters are the dashboard's pending and completed lists |
| TasksView.PendingCount | src/components/agenda/tasks-view.jsx:47 | the number of open tasks, at most the number of tasks |
| TasksView.CompletedCount | src/components/agenda/tasks-view.jsx:48 | the number of completed tasks, at most the number of tasks |
| TasksView.CountsAddUp | src/components/agenda/tasks-view.jsx:47-48 | pending count + completed count = number of tasks |
| TasksView.DueDateOrNull | src/components/agenda/tasks-view.jsx:60 | `newDueDate \|\| null`: `null` exactly for the empty string, the string itself otherwise |
| TasksView.DueDateText | src/components/agenda/tasks-view.jsx:90 | `dueDate ?? ""`: the stored date, or `""` for `null` |
| TasksView.DueDateRoundTrip | src/components/agenda/tasks-view.jsx:60-90 | loading a due date into the input and submitting it gives it back, unless it is `""` |
| TasksView.SubmitCall | src/components/agenda/tasks-view.jsx:50-70 | no call exactly for a blank title. Otherwise it is an update of the edited task's id when one is being edited, else an add. It carries the trimmed, non-blank title, the priority and the normalised due date |
| TasksView.EditUnchangedIsNoOp | src/components/agenda/tasks-view.jsx:56-92 | opening a trimmed task for editing and saving it untouched leaves that task as it was |
| TasksView.TaskForm.constructor | src/components/agenda/tasks-view.jsx:34-39 | filter `"all"`, dialog closed, nothing being edited, empty title, priority media, empty due date |
| TasksView.TaskForm.SetFilter | src/components/agenda/tasks-view.jsx:170 | only the filter changes |
| TasksView.TaskForm.SetDialogOpen | src/components/agenda/tasks-view.jsx:106 | only the dialog's open flag changes |
| TasksView.TaskForm.HandleAddTask | src/components/agenda/tasks-view.jsx:50-76 | it returns `SubmitCall` of the old fields. For a blank title nothing changes. Otherwise the form resets (empty title, media, empty due date, nothing edited), the dialog closes and the filter is kept |
| TasksView.TaskForm.StartNewTask | src/components/agenda/tasks-view.jsx:78-84 | the form is reset and the dialog opens |
| TasksView.TaskForm.StartEditTask | src/components/agenda/tasks-view.jsx:86-92 | the task is being edited, its title, priority and due date (`""` for none) fill the form, the dialog opens |
| NotesView.CreateCall | src/components/agenda/notes-view.jsx:27-31 | no note exactly for a blank title; otherwise the trimmed title (not blank) and the trimmed content |
| NotesView.UpdateCall | src/components/agenda/notes-view.jsx:40-41 | no call exactly when no note is being edited (id `null` or `""`) or the title is blank; otherwise the edited id with the trimmed title and content |
| NotesView.EditUnchangedOnlyStamps | src/components/agenda/notes-view.jsx:41 | saving a trimmed note from the editor untouched changes only its `updatedAt` |
| NotesView.NoteForm.constructor | src/components/agenda/notes-view.jsx:20-23 | dialog closed, nothing being edited, empty fields |
| NotesView.NoteForm.SetCreateOpen | src/components/agenda/notes-view.jsx:70 | only the create dialog's open flag changes |
| NotesView.NoteForm.HandleCreate | src/components/agenda/notes-view.jsx:25-36 | returns `CreateCall` of the old fields; blank title: nothing changes; otherwise the fields are emptied and the dialog closes, the editor is untouched |
| NotesView.NoteForm.HandleUpdate | src/components/agenda/notes-view.jsx:38-46 | returns `UpdateCall` of the old fields; no call: nothing changes; otherwise edit mode ends with empty fields, the create dialog untouched |
| NotesView.NoteForm.StartEdit | src/components/agenda/notes-view.jsx:48-52 | the editor holds the note's id, title and content |
| NotesView.NoteForm.CancelEdit | src/components/agenda/notes-view.jsx:54-58 | edit mode ends with empty fields |
| EventFormDialog.BlankFields | src/components/agenda/event-form-dialog.jsx:27-32 | empty title and description, 09:00 to 10:00, personal, the default date or else today |
| EventFormDialog.SubmitCall | src/components/agenda/event-form-dialog.jsx:49-62 | no call exactly for a blank title. Otherwise it is an update of the edited event's id with the six fields as shown, or an add of them. The title is not trimmed |
| EventFormDialog.EditUnchangedIsNoOp | src/components/agenda/event-form-dialog.jsx:56-57 | saving an edit dialog untouched gives back the event it was opened on |
| EventFormDialog.EventForm.constructor | src/components/agenda/event-form-dialog.jsx:24-32 | mounted closed, with the edited event's fields, or the blank fields |
| EventFormDialog.EventForm.SetOpen | src/components/agenda/event-form-dialog.jsx:34-47 | Opening a closed dialog reloads every field from the edited event; with no event being edited, only the date resets, to the default date or today. Closing it, or re-opening an open one, keeps the fields |
| EventFormDialog.EventForm.HandleSubmit | src/components/agenda/event-form-dialog.jsx:49-74 | It returns `SubmitCall` of the shown fields. For a blank title nothing changes. Otherwise the dialog closes: an edit dialog keeps its fields and a create dialog goes back to the blank fields |
| Persistence.SaveAll | src/db.js:54-60 | `put` each record: the keys become the old keys plus the records' ids, and keys no record carries keep their value |
| Persistence.SaveAllStoresEach | src/db.js:54-60 | with unique ids every saved record is stored under its id |
| Persistence.SaveThenGetAll | src/db.js:48-88 | saving a collection with unique ids into an empty store and reading everything back gives exactly its records |
| Persistence.GetAll | src/db.js:73-88 | `getAll`: every stored record is returned, and nothing else |
| Persistence.PersistAsWritten | src/lib/agenda-store.jsx:91-95 | storage after a save effect as written: unchanged unless loaded and non-empty; otherwise the keys become the old keys plus the collection's ids, and keys the collection does not carry keep their records |
| Persistence.AsWrittenStoresEach | src/lib/agenda-store.jsx:91-95 | an as-written save of a loaded, non-empty collection with unique ids stores each of its records under its id |
| Persistence.AsWrittenNeverForgets | src/db.js:54-60 | no save effect ever removes a stored record |
| Persistence.DeletedEventComesBack | src/db.js:54-60 | save [a, b], delete a, save again: a is still stored |
| Persistence.LastEventDeleteNotSaved | src/lib/agenda-store.jsx:91-95 | delete the only event: storage is unchanged and still holds it |
| Persistence.PersistCorrected | src/lib/agenda-store.jsx:91-95 | corrected save: a loaded collection whose read succeeded, empty or not, replaces the store's keys by its ids; one whose read failed only adds its ids to the stored keys |
| Persistence.ReplaceAll | src/db.js:54-60 | clear, then put each record: the keys become exactly the collection's ids |
| Persistence.CorrectedMirrors | src/db.js:54-60 | after a corrected save, storage holds exactly the collection, each record under its id, whatever it held before |
| Persistence.CorrectedDeleteRemoves | src/lib/agenda-store.jsx:119-121 | with the corrected save a deleted event is gone from storage, also when it was the last, whenever the read succeeded or storage did not hold it |
| Persistence.CorrectedKeepsUnreadRecords | src/lib/agenda-store.jsx:41-49 | after a failed read, the corrected save run by the load changes nothing, and later saves keep every stored key and every record the collection does not overwrite |
| Scenarios.BuyMilkScenario | src/lib/agenda-store.jsx:127-141 | after loading, adding "Buy milk" gives an open task with the fresh id, listed as pending; toggled, it is listed as completed and no longer as open |
| Scenarios.SameDayScenario | src/components/agenda/calendar-view.jsx:50-63 | two events on 2024-06-01 at 09:00 and 08:00: the selected day lists 08:00 first |
| Scenarios.TwoSortedByStartTime | src/components/agenda/calendar-view.jsx:60-62 | two events with different start times sort into exactly one order |
| Scenarios.ShoppingNoteScenario | src/lib/agenda-store.jsx:143-151 | a new note has `createdAt == updatedAt ==` its day; after editing its content another day, `createdAt` is unchanged and `updatedAt` is the edit day |

## Left out

- src/db.js is modelled only as a map from id to record with `put` and `getAll` (module `Persistence`). Opening and upgrading the database, transactions, promises, `deleteData` and `clearStore` (which nothing calls) are left out.
- Persistence.CorrectedDeleteRemoves does not promise removal after a failed read when storage still holds the id. In that case the corrected save only upserts, and removing the id would need a record of the deletions, which the program does not keep.
- The asynchronous parts of the container are left out: `Promise.all`, fire-and-forget saves, and the scheduling of `useEffect`. Loading is one step, a collection whose read failed arrives as `None`, and each mutation is followed at once by its collection's save effect.
- AgendaStore.Agenda.AddEvent, AddTask and AddNote take the fresh id and today's day as parameters instead of `generateId` (random and clock based) and `new Date()`. The id's freshness is a precondition, because the source cannot guarantee it.
- `Math.round` on floating point is replaced by exact arithmetic (`Dashboard.CompletionRate`). Floating-point rounding is not modelled, and the two can differ: with 23 of 40 tasks done the double `(23/40)*100` lies just below 57.5, so the program shows 57 where the model gives 58.
- `localeCompare` is modelled as code-point lexical order (`Strings.Compare`). Locale collation is not modelled. Zero-padded ASCII dates and times compare the same either way.
- `toISOString`, `toLocaleDateString` and time zones are not modelled. The store keeps the selected date as a `Date` object; the model keeps its `YYYY-MM-DD` key. Calendar.CalendarView.SelectDay therefore does not model that `new Date(key + "T12:00:00").toISOString()` can name a neighbouring day in time zones far from UTC.
- `new Date(year, month, 1).getDay()` is an input to `Calendar.FirstDayOfMonth`. Weekdays are not computed.
- Calendar.DaysInMonth applies the JS rule for two-digit years and the Gregorian leap rule. The limited range of JS dates (±275760 years) is not modelled.
- Calendar.EventsByDate uses a Dafny map where the source uses a plain object. Keys that clash with `Object.prototype` names are not modelled, because dates are `YYYY-MM-DD`.
- Sorting.SortArray and Sorting.Sort are proved sorted and a permutation, not stable. The order of two events with the same start time (or the same date and start time) is not stated.
- TasksView.TaskForm.StartEditTask does not model the `?? ""` and `?? "media"` fallbacks for a missing title or priority, because every modelled task has both. On the other hand `dueDate ?? ""` is modelled.
- EventFormDialog.EventForm.constructor and SetOpen do not model the `??` fallbacks for missing fields of the edited event, because every modelled event has all six fields.
- EventFormDialog.EventForm.SetOpen models the watched-value effect as running when the dialog goes from closed to open. Its re-running when the `editEvent` or `defaultDate` props change while the dialog is open is not modelled, since the props are constants of the object.
- The `onClose` callback of the event dialog, all toasts, `preventDefault`, and the store's missing-provider error are left out.
- Month and day names, category and priority labels and colours, the today/selected highlighting, and all JSX and CSS are rendering, and are left out.
- src/App.jsx (online/offline listeners), src/components/agenda/app-shell.jsx and src/components/agenda/sidebar-nav.jsx (switching on the view mode) are browser glue and rendering, and are left out.
- Forms return the call they would make to the store (`TaskCall`, `EventCall`, a `NoteFields` or an id with a patch) rather than calling it. The `Scenarios` methods show the store side of such calls.

## Findings

| source | as written | input that shows it | evidently intended | confidence | as-written member | corrected member |
|---|---|---|---|---|---|---|
| src/db.js:54-60 | saving a collection only `put`s its records, so a record deleted in memory stays in the object store | events [a, b] saved, then a deleted and the rest saved: a is still stored and returns on the next load | storage holds exactly the saved collection (a deleted id is never read back) | high, not executed | Persistence.DeletedEventComesBack | Persistence.CorrectedMirrors |
| src/lib/agenda-store.jsx:91-109 | the save effect requires a non-empty collection, so emptying a collection is never saved | one event a saved, then deleted: no save is issued and storage still holds a | a loaded collection is saved whenever it changes, also when it becomes empty | high, not executed | Persistence.LastEventDeleteNotSaved | Persistence.CorrectedDeleteRemoves |

`AgendaStore.Agenda` keeps the save gate as written, so its `saves` log is what the program issues. `Persistence.PersistCorrected` is the intended storage behaviour: a loaded collection, empty or not, replaces the store's contents. It does not do so after a failed read, because `loadFromIndexedDB` turns a failed read into `[]` (src/lib/agenda-store.jsx:41-49) and `isLoaded` is set anyway. Mirroring that `[]` would erase every stored record, so such a collection is only upserted, as the program does, and `Persistence.CorrectedKeepsUnreadRecords` proves no stored record is lost. `Persistence.CorrectedMirrors` and `Persistence.CorrectedDeleteRemoves` prove the intended properties about it.
