/** The timeline widget's state and handlers (src/components/Timeline.tsx): drag on the
    strip to create an event, edit or delete it in the modal, and merge the events fetched
    from a calendar. The parent's `onSave` round trip is taken to hand the saved list
    straight back as the widget's `events`. */
module TimelineWidget {
  import opened Wrappers
  import opened Text
  import opened Lists
  import opened Records
  import opened TimelineClock
  import opened TimelineLayout

  /** `ANALOG_COLORS` */
  const AnalogColors: seq<string> := [
    "bg-[#748BA7]", "bg-[#8BA88B]", "bg-[#9B8BB1]", "bg-[#B18B8B]",
    "bg-[#96A4B1]", "bg-[#A4B196]", "bg-[#B1A496]", "bg-[#A496B1]"]

  const GooglePrefix: string := "google-"

  /** What the calendar client returns per event: its id, the start and end (the
      `dateTime`, or the `date` for an all-day event) and its summary. */
  datatype ExternalEvent = ExternalEvent(id: string, start: string, end: string, summary: string)

  // ---------------------------------------------------------------- list operations

  /** The test `e.id !== id`. */
  function OtherId(id: string): TimelineEvent -> bool {
    (e: TimelineEvent) => e.id != id
  }

  /** `deleteEvent`'s new list: every event whose id differs. */
  function DeleteEvent(events: seq<TimelineEvent>, id: string): (r: seq<TimelineEvent>)
  {
    Filter(events, OtherId(id))
  }

  /** Exactly the events with another id survive, each as often as before. */
  lemma DeleteEventContents(events: seq<TimelineEvent>, id: string, e: TimelineEvent)
    ensures multiset(DeleteEvent(events, id))[e] == if e.id == id then 0 else multiset(events)[e]
    ensures e in DeleteEvent(events, id) <==> e in events && e.id != id
  {
    FilterCount(events, OtherId(id), e);
    FilterMembers(events, OtherId(id), e);
  }

  /** The delete keeps the order of the surviving events: deleting from a joined list is
      joining the two deletions. */
  lemma DeleteEventInOrder(a: seq<TimelineEvent>, b: seq<TimelineEvent>, id: string)
    ensures DeleteEvent(a + b, id) == DeleteEvent(a, id) + DeleteEvent(b, id)
  {
    FilterAppend(a, b, OtherId(id));
  }

  function SetTextIf(e: TimelineEvent, id: string, text: string): TimelineEvent {
    if e.id == id then e.(text := text) else e
  }

  function SetText(id: string, text: string): TimelineEvent -> TimelineEvent {
    (e: TimelineEvent) => SetTextIf(e, id, text)
  }

  /** `updateEventText`'s new list: the events with that id get the new text. */
  function UpdateEventText(events: seq<TimelineEvent>, id: string, text: string): (r: seq<TimelineEvent>)
    ensures |r| == |events|
  {
    Map(events, SetText(id, text))
  }

  /** Only the text of the events with that id changes; ids, times and colours stay. */
  lemma UpdateEventTextFields(events: seq<TimelineEvent>, id: string, text: string, i: nat)
    requires i < |events|
    ensures var r := UpdateEventText(events, id, text);
      && r[i].id == events[i].id && r[i].startTime == events[i].startTime
      && r[i].endTime == events[i].endTime && r[i].color == events[i].color
      && r[i].text == (if events[i].id == id then text else events[i].text)
  {
  }

  /** Saving the same text twice is saving it once. */
  lemma UpdateEventTextIdempotent(events: seq<TimelineEvent>, id: string, text: string)
    ensures UpdateEventText(UpdateEventText(events, id, text), id, text) == UpdateEventText(events, id, text)
  {
  }

  /** Deleting an event after editing its text is deleting it. */
  lemma DeleteAfterUpdate(events: seq<TimelineEvent>, id: string, text: string)
    ensures DeleteEvent(UpdateEventText(events, id, text), id) == DeleteEvent(events, id)
  {
    FilterAfterMap(events, SetText(id, text), OtherId(id));
  }

  /** Editing text never moves a box: the layout keeps every position, and each box
      carries its event with the new text. */
  lemma UpdateKeepsSlots(events: seq<TimelineEvent>, id: string, text: string)
    requires forall e :: e in events ==> Timed(e)
    ensures forall e :: e in UpdateEventText(events, id, text) ==> Timed(e)
    ensures forall i :: 0 <= i < |events| ==>
      ToSlots(UpdateEventText(events, id, text))[i].start == ToSlots(events)[i].start &&
      ToSlots(UpdateEventText(events, id, text))[i].end == ToSlots(events)[i].end
  {
    var r := UpdateEventText(events, id, text);
    forall e | e in r ensures Timed(e) {
      var i :| 0 <= i < |r| && r[i] == e;
      assert events[i] in events;
    }
  }

  // ---------------------------------------------------------------- calendar merge

  /** One fetched event as a timeline event: prefixed id, formatted times, summary as the
      text, and the palette colour of its position. */
  function Imported(fetched: seq<ExternalEvent>, formatTime: string -> string, index: nat): (e: TimelineEvent)
    requires index < |fetched|
    ensures StartsWith(e.id, GooglePrefix)
    ensures e.color == Some(AnalogColors[index % |AnalogColors|])
  {
    var ge := fetched[index];
    TimelineEvent(GooglePrefix + ge.id, formatTime(ge.start), formatTime(ge.end), ge.summary,
                  Some(AnalogColors[index % |AnalogColors|]))
  }

  function ImportAll(fetched: seq<ExternalEvent>, formatTime: string -> string): (r: seq<TimelineEvent>)
    ensures |r| == |fetched| && forall i :: 0 <= i < |r| ==> r[i] == Imported(fetched, formatTime, i)
  {
    seq(|fetched|, i requires 0 <= i < |fetched| => Imported(fetched, formatTime, i))
  }

  predicate IsLocal(e: TimelineEvent) {
    !StartsWith(e.id, GooglePrefix)
  }

  /** The sync's new list: the events not imported earlier, then the fetched ones. */
  function Merge(events: seq<TimelineEvent>, fetched: seq<ExternalEvent>, formatTime: string -> string): seq<TimelineEvent> {
    Filter(events, IsLocal) + ImportAll(fetched, formatTime)
  }

  /** A sync keeps every local event, in order, drops every earlier import, and ends with
      one entry per fetched event. */
  lemma MergeContents(events: seq<TimelineEvent>, fetched: seq<ExternalEvent>, formatTime: string -> string)
    ensures var r := Merge(events, fetched, formatTime);
      && |r| == |Filter(events, IsLocal)| + |fetched|
      && Filter(r, IsLocal) == Filter(events, IsLocal)
      && (forall e :: e in r ==> (e in events && IsLocal(e)) || !IsLocal(e))
      && (forall e :: e in events && IsLocal(e) ==> e in r)
      && r[|r| - |fetched|..] == ImportAll(fetched, formatTime)
  {
    var local := Filter(events, IsLocal);
    var imported := ImportAll(fetched, formatTime);
    FilterAppend(local, imported, IsLocal);
    FilterKeepsAll(local, IsLocal) by {
      forall e | e in local ensures IsLocal(e) {
        FilterMembers(events, IsLocal, e);
      }
    }
    assert Filter(imported, IsLocal) == [] by {
      FilterDropsAll(imported, IsLocal);
    }
    forall e | e in events && IsLocal(e) ensures e in local {
      FilterMembers(events, IsLocal, e);
    }
    forall e | e in local ensures e in events && IsLocal(e) {
      FilterMembers(events, IsLocal, e);
    }
    assert (local + imported)[|local|..] == imported;
  }

  /** Syncing twice with the same fetched events is syncing once. */
  lemma MergeIdempotent(events: seq<TimelineEvent>, fetched: seq<ExternalEvent>, formatTime: string -> string)
    ensures Merge(Merge(events, fetched, formatTime), fetched, formatTime) == Merge(events, fetched, formatTime)
  {
    MergeContents(events, fetched, formatTime);
  }

  /** An event created on the strip (its id has no "google-" prefix) survives a sync. */
  lemma MergeKeepsCreated(events: seq<TimelineEvent>, fetched: seq<ExternalEvent>, formatTime: string -> string, e: TimelineEvent)
    requires e in events && !StartsWith(e.id, GooglePrefix)
    ensures e in Merge(events, fetched, formatTime)
  {
    MergeContents(events, fetched, formatTime);
  }

  /** A character `Number.prototype.toString(36)` prints: a digit or a lower-case letter. */
  predicate IsBase36Digit(c: char) {
    ('0' <= c <= '9') || ('a' <= c <= 'z')
  }

  /** The tail of `Math.random().toString(36)` after its "0.": base-36 digits only. */
  predicate Base36Id(id: string) {
    forall i :: 0 <= i < |id| ==> IsBase36Digit(id[i])
  }

  /** A base-36 id has no hyphen, so it never carries the import prefix. */
  lemma Base36IdIsLocal(id: string)
    requires Base36Id(id)
    ensures !StartsWith(id, GooglePrefix)
  {
    if |GooglePrefix| <= |id| {
      assert IsBase36Digit(id[6]) && GooglePrefix[6] == '-';
      assert id[..|GooglePrefix|][6] != GooglePrefix[6];
    }
  }

  // ---------------------------------------------------------------- drag

  /** The event a finished drag creates: empty text, the chosen palette colour. */
  function NewEvent(id: string, dragStart: int, dragCurrent: int, colorPick: nat): TimelineEvent
    requires colorPick < |AnalogColors|
  {
    TimelineEvent(id, MinutesToTime(dragStart), MinutesToTime(dragCurrent), "", Some(AnalogColors[colorPick]))
  }

  /** A drag that began on the strip yields an event that reads back as the dragged range,
      at least one snap step long. */
  lemma NewEventSpan(id: string, dragStart: nat, dragCurrent: int, colorPick: nat)
    requires colorPick < |AnalogColors| && dragCurrent >= dragStart + SnapMinutes
    ensures var e := NewEvent(id, dragStart, dragCurrent, colorPick);
      && Timed(e)
      && ToSlot(e).start == dragStart && ToSlot(e).end == dragCurrent
      && ToSlot(e).end - ToSlot(e).start >= SnapMinutes
  {
    TimeRoundTrip(dragStart);
    TimeRoundTrip(dragCurrent);
  }

  /** The event a drag creates, with its base-36 id, is still on the strip after any later
      sync. */
  lemma CreatedEventSurvivesSync(events: seq<TimelineEvent>, freshId: string, dragStart: int, dragCurrent: int,
                                 colorPick: nat, fetched: seq<ExternalEvent>, formatTime: string -> string)
    requires Base36Id(freshId) && colorPick < |AnalogColors|
    ensures var e := NewEvent(freshId, dragStart, dragCurrent, colorPick);
      e in Merge(events + [e], fetched, formatTime)
  {
    var e := NewEvent(freshId, dragStart, dragCurrent, colorPick);
    Base36IdIsLocal(freshId);
    MergeKeepsCreated(events + [e], fetched, formatTime, e);
  }

  /** `editingText` as the effect sets it: the first event with that id's text, or "". */
  function TextOf(events: seq<TimelineEvent>, id: string): (t: string)
    ensures (forall e :: e in events ==> e.id != id) ==> t == ""
    ensures events != [] && events[0].id == id ==> t == events[0].text
    ensures forall i :: 0 <= i < |events| && events[i].id == id && (forall j :: 0 <= j < i ==> events[j].id != id) ==>
      t == events[i].text
  {
    if events == [] then "" else if events[0].id == id then events[0].text else TextOf(events[1..], id)
  }

  /** A JavaScript string is truthy when it is not empty. */
  predicate Truthy(s: Option<string>) {
    s.Some? && s.value != ""
  }

  /** The widget: its events and the drag and editor state. A cursor position is `None`
      when the strip is not mounted (`getBoundingClientRect` unavailable). */
  class Timeline {
    var events: seq<TimelineEvent>
    var isDragging: bool
    var dragStart: Option<int>
    var dragCurrent: Option<int>
    var editingEventId: Option<string>
    var editingText: string

    /** A drag is either off, or on with both ends set and at least one snap step long. */
    ghost predicate Valid()
      reads this
    {
      && (isDragging <==> dragStart.Some?)
      && (dragStart.Some? <==> dragCurrent.Some?)
      && (dragStart.Some? ==> dragCurrent.value >= dragStart.value + SnapMinutes)
    }

    constructor (events: seq<TimelineEvent>)
      ensures Valid() && this.events == events
      ensures !isDragging && editingEventId == None && editingText == ""
    {
      this.events := events;
      isDragging := false;
      dragStart := None;
      dragCurrent := None;
      editingEventId := None;
      editingText := "";
    }

    /** The effect that refreshes `editingText` whenever the edited id or the events change. */
    function EditorText(): string
      reads this
    {
      if Truthy(editingEventId) then TextOf(events, editingEventId.value) else ""
    }

    /** `handleMouseDown` / `handleTouchStart`: unless the editor is open, start a drag of
        one snap step at the snapped minute under the cursor. */
    method Press(y: Option<int>)
      requires Valid()
      modifies this
      ensures Valid()
      ensures if Truthy(old(editingEventId)) || y.None? then unchanged(this)
              else var m := GetMinutesFromY(y.value);
                isDragging && dragStart == Some(m) && dragCurrent == Some(m + SnapMinutes)
                && events == old(events) && editingEventId == old(editingEventId) && editingText == old(editingText)
    {
      if Truthy(editingEventId) {
        return;
      }
      if y.None? {
        return;
      }
      var minutes := GetMinutesFromY(y.value);
      isDragging := true;
      dragStart := Some(minutes);
      dragCurrent := Some(minutes + SnapMinutes);
    }

    /** `handleMouseMove` / `handleTouchMove`: while dragging, the end follows the cursor
        but never comes closer than one snap step to the start. */
    method Move(y: Option<int>)
      requires Valid()
      modifies this
      ensures Valid()
      ensures if !old(isDragging) || old(dragStart).None? || y.None? then unchanged(this)
              else (dragCurrent == Some(Max(old(dragStart).value + SnapMinutes, GetMinutesFromY(y.value)))
                && events == old(events) && isDragging && dragStart == old(dragStart)
                && editingEventId == old(editingEventId) && editingText == old(editingText))
    {
      if !isDragging || dragStart.None? {
        return;
      }
      if y.None? {
        return;
      }
      var minutes := Max(dragStart.value + SnapMinutes, GetMinutesFromY(y.value));
      dragCurrent := Some(minutes);
    }

    /** `handleMouseUp` / `handleTouchEnd`: a drag in progress becomes a new event, saved
        at the end of the list and opened in the editor; the drag ends either way.
        `freshId` and `colorPick` stand for the two `Math.random()` draws: the id is the
        base-36 tail of the first, the colour index the floor of the second times eight. */
    method Release(freshId: string, colorPick: nat)
      requires Valid() && Base36Id(freshId) && colorPick < |AnalogColors|
      modifies this
      ensures Valid() && !isDragging
      ensures forall e :: e in old(events) ==> e in events
      ensures forall e :: e in events && e !in old(events) ==> IsLocal(e)
      ensures old(isDragging) && old(dragStart).Some? && old(dragCurrent).Some? ==>
                && events == old(events) + [NewEvent(freshId, old(dragStart).value, old(dragCurrent).value, colorPick)]
                && editingEventId == Some(freshId)
                && editingText == EditorText()
      ensures !(old(isDragging) && old(dragStart).Some? && old(dragCurrent).Some?) ==>
                events == old(events) && editingEventId == old(editingEventId) && editingText == old(editingText)
    {
      if isDragging && dragStart.Some? && dragCurrent.Some? {
        var newEvent := NewEvent(freshId, dragStart.value, dragCurrent.value, colorPick);
        Base36IdIsLocal(freshId);
        events := events + [newEvent];
        editingEventId := Some(freshId);
        editingText := EditorText();
      }
      isDragging := false;
      dragStart := None;
      dragCurrent := None;
    }

    /** Clicking a box opens it in the editor. */
    method Open(id: string)
      requires Valid()
      modifies this
      ensures Valid() && editingEventId == Some(id) && editingText == EditorText()
      ensures events == old(events) && isDragging == old(isDragging)
      ensures dragStart == old(dragStart) && dragCurrent == old(dragCurrent)
    {
      editingEventId := Some(id);
      editingText := EditorText();
    }

    /** Typing in the editor. */
    method Type(text: string)
      requires Valid()
      modifies this
      ensures Valid() && editingText == text
      ensures events == old(events) && editingEventId == old(editingEventId)
      ensures isDragging == old(isDragging) && dragStart == old(dragStart) && dragCurrent == old(dragCurrent)
    {
      editingText := text;
    }

    /** Closing the editor without saving (backdrop or close button). */
    method Close()
      requires Valid()
      modifies this
      ensures Valid() && editingEventId == None && editingText == ""
      ensures events == old(events)
      ensures isDragging == old(isDragging) && dragStart == old(dragStart) && dragCurrent == old(dragCurrent)
    {
      editingEventId := None;
      editingText := "";
    }

    /** `deleteEvent` (the box's delete button or the editor's): drop every event with the
        id and close the editor. */
    method Delete(id: string)
      requires Valid()
      modifies this
      ensures Valid() && events == DeleteEvent(old(events), id)
      ensures editingEventId == None && editingText == ""
      ensures isDragging == old(isDragging) && dragStart == old(dragStart) && dragCurrent == old(dragCurrent)
    {
      events := DeleteEvent(events, id);
      editingEventId := None;
      editingText := "";
    }

    /** "Save & Close": store the edited text on the edited event and close the editor. */
    method SaveAndClose()
      requires Valid() && Truthy(editingEventId)
      modifies this
      ensures Valid() && events == UpdateEventText(old(events), old(editingEventId).value, old(editingText))
      ensures editingEventId == None && editingText == ""
      ensures isDragging == old(isDragging) && dragStart == old(dragStart) && dragCurrent == old(dragCurrent)
    {
      events := UpdateEventText(events, editingEventId.value, editingText);
      editingEventId := None;
      editingText := "";
    }

    /** A successful calendar sync: the merged list is saved, and the editor's text is
        refreshed from it. */
    method Sync(fetched: seq<ExternalEvent>, formatTime: string -> string)
      requires Valid()
      modifies this
      ensures Valid() && events == Merge(old(events), fetched, formatTime)
      ensures forall e :: e in old(events) && IsLocal(e) ==> e in events
      ensures editingEventId == old(editingEventId) && editingText == EditorText()
      ensures isDragging == old(isDragging) && dragStart == old(dragStart) && dragCurrent == old(dragCurrent)
    {
      forall e | e in events && IsLocal(e) ensures e in Merge(events, fetched, formatTime) {
        MergeKeepsCreated(events, fetched, formatTime, e);
      }
      events := Merge(events, fetched, formatTime);
      editingText := EditorText();
    }
  }
}
