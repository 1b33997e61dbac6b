/**
 * The event create/edit dialog. `editEvent` and `defaultDate` are the props it
 * is mounted with (absent props are `None`); `today` is the current day string
 * the dialog would read from the clock.
 */
module EventFormDialog {
  import opened Wrappers
  import opened Strings
  import opened Records

  const DefaultStartTime: string := "09:00"
  const DefaultEndTime: string := "10:00"
  const DefaultCategory: Category := Personal

  /** The store call a submit issues. */
  datatype EventCall =
    | AddEventCall(fields: EventFields)
    | UpdateEventCall(id: string, patch: EventPatch)

  /** The six form fields of an existing event. */
  function FieldsOf(e: Event): EventFields {
    EventFields(e.title, e.description, e.date, e.startTime, e.endTime, e.category)
  }

  /** The fields of a fresh dialog: empty texts, 09:00-10:00, personal, the default date or today. */
  function BlankFields(defaultDate: Option<string>, today: string): (r: EventFields)
    ensures r.title == "" && r.description == ""
    ensures r.startTime == DefaultStartTime && r.endTime == DefaultEndTime && r.category == DefaultCategory
    ensures defaultDate.Some? ==> r.date == defaultDate.value
    ensures defaultDate.None? ==> r.date == today
  {
    EventFields("", "", defaultDate.GetOr(today), DefaultStartTime, DefaultEndTime, DefaultCategory)
  }

  /**
   * What `handleSubmit` sends: nothing for a blank title; otherwise the six
   * fields as they stand (the title is not trimmed), as an update of the edited
   * event or as a new event.
   */
  function SubmitCall(editEvent: Option<Event>, f: EventFields): (r: Option<EventCall>)
    ensures r.None? <==> IsBlank(f.title)
    ensures r.Some? && editEvent.Some? ==> r.value == UpdateEventCall(editEvent.value.id, EventFieldsPatch(f))
    ensures r.Some? && editEvent.None? ==> r.value == AddEventCall(f)
  {
    if IsBlank(f.title) then None
    else if editEvent.Some? then Some(UpdateEventCall(editEvent.value.id, EventFieldsPatch(f)))
    else Some(AddEventCall(f))
  }

  /** Saving an edit dialog untouched gives back the event it was opened on. */
  lemma EditUnchangedIsNoOp(e: Event)
    requires !IsBlank(e.title)
    ensures var c := SubmitCall(Some(e), FieldsOf(e));
      c.Some? && c.value.UpdateEventCall? && c.value.id == e.id && MergeEvent(e, c.value.patch) == e
  {
  }

  /** The dialog's own state. */
  class EventForm {
    const editEvent: Option<Event>
    const defaultDate: Option<string>
    var open: bool
    var title: string
    var description: string
    var date: string
    var startTime: string
    var endTime: string
    var category: Category

    /** The form as a record of its six fields. */
    function Fields(): EventFields
      reads this
    {
      EventFields(title, description, date, startTime, endTime, category)
    }

    /** Mounted closed, with the fields of `editEvent`, or blank ones. */
    constructor (editEvent: Option<Event>, defaultDate: Option<string>, today: string)
      ensures this.editEvent == editEvent && this.defaultDate == defaultDate && !open
      ensures editEvent.Some? ==> Fields() == FieldsOf(editEvent.value)
      ensures editEvent.None? ==> Fields() == BlankFields(defaultDate, today)
    {
      this.editEvent := editEvent;
      this.defaultDate := defaultDate;
      open := false;
      var f := if editEvent.Some? then FieldsOf(editEvent.value) else BlankFields(defaultDate, today);
      title := f.title;
      description := f.description;
      date := f.date;
      startTime := f.startTime;
      endTime := f.endTime;
      category := f.category;
    }

    /**
     * `setOpen`, followed by the effect that watches `open`: opening reloads
     * every field from `editEvent`, or, without one, only the date. Closing, or
     * re-opening an open dialog, leaves the fields alone.
     */
    method SetOpen(b: bool, today: string)
      modifies this
      ensures open == b
      ensures b && !old(open) && editEvent.Some? ==> Fields() == FieldsOf(editEvent.value)
      ensures b && !old(open) && editEvent.None? ==>
                Fields() == old(Fields()).(date := defaultDate.GetOr(today))
      ensures !(b && !old(open)) ==> Fields() == old(Fields())
    {
      var wasOpen := open;
      open := b;
      if open && !wasOpen {
        if editEvent.Some? {
          var e := editEvent.value;
          title := e.title;
          description := e.description;
          date := e.date;
          startTime := e.startTime;
          endTime := e.endTime;
          category := e.category;
        } else {
          date := defaultDate.GetOr(today);
        }
      }
    }

    /**
     * `handleSubmit`: a blank title changes nothing and calls nothing. Otherwise
     * one call is issued and the dialog closes; a create dialog also goes back to
     * blank fields, an edit dialog keeps what it shows.
     */
    method HandleSubmit(today: string) returns (call: Option<EventCall>)
      modifies this
      ensures call == SubmitCall(editEvent, old(Fields()))
      ensures call.None? ==> unchanged(this)
      ensures call.Some? ==> !open
      ensures call.Some? && editEvent.Some? ==> Fields() == old(Fields())
      ensures call.Some? && editEvent.None? ==> Fields() == BlankFields(defaultDate, today)
    {
      if IsBlank(title) {
        return None;
      }
      var f := Fields();
      if editEvent.Some? {
        call := Some(UpdateEventCall(editEvent.value.id, EventFieldsPatch(f)));
      } else {
        call := Some(AddEventCall(f));
      }
      open := false;
      if editEvent.None? {
        title := "";
        description := "";
        date := defaultDate.GetOr(today);
        startTime := DefaultStartTime;
        endTime := DefaultEndTime;
        category := DefaultCategory;
      }
    }
  }
}
