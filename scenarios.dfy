/**
 * End-to-end runs of the store and the views on concrete records: a task
 * moving from the pending to the completed list, a day's events sorted by
 * start time, and a note's timestamps across an edit.
 */
module Scenarios {
  import opened Wrappers
  import opened Records
  import opened Strings
  import AgendaStore
  import TasksView
  import Calendar
  import Sorting
  import EventOrder

  /**
   * Add "Buy milk": it is open and listed as pending; toggled, it is listed as
   * completed and leaves the pending list.
   */
  method BuyMilkScenario(id: string, today: string)
    returns (t: Task, pending: seq<Task>, completed: seq<Task>, pendingAfter: seq<Task>)
    requires id != ""
    ensures t.id == id && t.title == "Buy milk" && t.priority == Media && !t.completed
    ensures t in pending
    ensures t.(completed := true) in completed && t !in completed
    ensures t !in pendingAfter && t.(completed := true) !in pendingAfter
  {
    var agenda := new AgendaStore.Agenda(today);
    agenda.Load(None, None, None);
    agenda.AddTask(TaskFields("Buy milk", Media, None), id);
    t := agenda.tasks[0];
    pending := TasksView.FilteredTasks(agenda.tasks, "pending");
    agenda.ToggleTask(id);
    assert agenda.tasks[0] == t.(completed := true);
    completed := TasksView.FilteredTasks(agenda.tasks, "completed");
    pendingAfter := TasksView.FilteredTasks(agenda.tasks, "pending");
  }

  /** Two events on 2024-06-01 at 09:00 and 08:00: the selected day lists the 08:00 one first. */
  method SameDayScenario(id1: string, id2: string) returns (selected: seq<Event>)
    ensures |selected| == 2
    ensures selected[0].startTime == "08:00" && selected[1].startTime == "09:00"
  {
    var nine := Event(id1, "Reunion", "", "2024-06-01", "09:00", "10:00", Trabajo, false);
    var eight := Event(id2, "Gimnasio", "", "2024-06-01", "08:00", "09:00", Salud, false);
    var byDate := Calendar.EventsByDate([nine, eight]);
    BothOnTheDay(nine, eight);
    var byDate';
    selected, byDate' := Calendar.SelectedEvents(byDate, "2024-06-01");
    EightBeforeNine();
    TwoSortedByStartTime(selected, eight, nine);
  }

  lemma BothOnTheDay(a: Event, b: Event)
    requires a.date == "2024-06-01" && b.date == "2024-06-01"
    ensures EventsOn([a, b], "2024-06-01") == [a, b]
  {
    assert [a, b][1..] == [b] && [b][1..] == [];
  }

  lemma EightBeforeNine()
    ensures !StrLeq("09:00", "08:00")
  {
  }

  /** Sorted by start time, two events with different start times come out in that order. */
  lemma TwoSortedByStartTime(s: seq<Event>, a: Event, b: Event)
    requires multiset(s) == multiset{b, a} && Sorting.SortedBy(s, EventOrder.ByStartTime)
    requires !StrLeq(b.startTime, a.startTime)
    ensures s == [a, b]
  {
    assert |s| == |multiset(s)| == 2;
    assert s == [s[0], s[1]];
    assert multiset(s) == multiset{s[0], s[1]};
    StrLeqReflexive(b.startTime);
    assert a != b;
    assert EventOrder.ByStartTime(b, a) ==> StrLeq(b.startTime, a.startTime);
    assert EventOrder.ByStartTime(s[0], s[1]);
  }

  /** A note keeps its creation day through an edit that stamps the edit day. */
  method ShoppingNoteScenario(id: string, day1: string, day2: string) returns (created: Note, edited: Note)
    requires id != ""
    ensures created.title == "Shopping" && created.content == "milk, eggs"
    ensures created.createdAt == day1 && created.updatedAt == day1
    ensures edited.id == id && edited.title == "Shopping" && edited.content == "milk"
    ensures edited.createdAt == day1 && edited.updatedAt == day2
  {
    var agenda := new AgendaStore.Agenda(day1);
    agenda.Load(None, None, None);
    agenda.AddNote(NoteFields("Shopping", "milk, eggs"), id, day1);
    created := agenda.notes[0];
    agenda.UpdateNote(id, NotePatch(None, None, Some("milk"), None, None), day2);
    edited := agenda.notes[0];
  }
}
