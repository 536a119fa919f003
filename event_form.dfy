/** The admin form for adding or editing an event
    (Frontend/src/components/EventFormModal.tsx). */
module EventFormModal {
  import opened Common

  /** An event as the form receives it in `initialData` and hands it to
      `onSubmit`. Date and time are free text: nothing checks their format. */
  datatype Event = Event(title: string, date: string, time: string, venue: string, description: string)

  const RequiredMessage: string := "All fields are required."

  /** All five fields are filled in. */
  predicate Complete(e: Event) {
    e.title != "" && e.date != "" && e.time != "" && e.venue != "" && e.description != ""
  }

  /** handleSubmit's decision: an empty field rejects the form with the
      required-fields message; otherwise the five values go to `onSubmit`
      exactly as typed. */
  function Validate(e: Event): (r: Result<Event, string>)
    ensures r.Ok? <==> Complete(e)
    ensures r.Ok? ==> r.value == e
    ensures r.Err? ==> r.error == RequiredMessage
  {
    if e.title == "" || e.date == "" || e.time == "" || e.venue == "" || e.description == "" then
      Err(RequiredMessage)
    else
      Ok(e)
  }

  /** Any non-empty date and time are accepted, whatever they say. */
  lemma FreeTextDateAndTime(title: string, date: string, time: string, venue: string, description: string)
    requires title != "" && venue != "" && description != ""
    ensures Validate(Event(title, date, time, venue, description)).Ok? <==> date != "" && time != ""
  {
  }

  /** The heading reads "Edit Event" exactly when the form was given `initialData`. */
  function Heading(initialData: Option<Event>): (h: string)
    ensures h == "Edit Event" <==> initialData.Some?
    ensures h == "Add Event" <==> initialData.None?
  {
    if initialData.Some? then "Edit Event" else "Add Event"
  }

  /** The submit button reads "Update Event" exactly when the form was given `initialData`. */
  function SubmitLabel(initialData: Option<Event>): (text: string)
    ensures text == "Update Event" <==> initialData.Some?
    ensures text == "Add Event" <==> initialData.None?
  {
    if initialData.Some? then "Update Event" else "Add Event"
  }

  /** The five field values the form starts from: those of `initialData`, or empty. */
  function InitialFields(initialData: Option<Event>): Event
  {
    if initialData.Some? then initialData.value else Event("", "", "", "", "")
  }

  class EventForm {
    var title: string
    var date: string
    var time: string
    var venue: string
    var description: string
    var error: string

    /** The five fields as one value. */
    function Fields(): Event
      reads this
    {
      Event(title, date, time, venue, description)
    }

    constructor (initialData: Option<Event>)
      ensures Fields() == InitialFields(initialData) && error == ""
    {
      var e := InitialFields(initialData);
      title, date, time, venue, description := e.title, e.date, e.time, e.venue, e.description;
      error := "";
    }

    /** The effect run when `open` or `initialData` changes: when open, all
        five fields are reloaded and the error is cleared. */
    method Reset(open: bool, initialData: Option<Event>)
      modifies this
      ensures open ==> Fields() == InitialFields(initialData) && error == ""
      ensures !open ==> unchanged(this)
    {
      if open {
        var e := InitialFields(initialData);
        title := e.title;
        date := e.date;
        time := e.time;
        venue := e.venue;
        description := e.description;
        error := "";
      }
    }

    /** handleSubmit: returns the value passed to `onSubmit`, or None when the
        form is rejected; only the error message can change. */
    method HandleSubmit() returns (submitted: Option<Event>)
      modifies this`error
      ensures submitted.Some? <==> Complete(Fields())
      ensures submitted.Some? ==> submitted.value == Fields() && error == old(error)
      ensures submitted.None? ==> error == RequiredMessage
    {
      if title == "" || date == "" || time == "" || venue == "" || description == "" {
        error := RequiredMessage;
        return None;
      }
      submitted := Some(Event(title, date, time, venue, description));
    }
  }
}
