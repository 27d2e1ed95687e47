/**
 * The editing state hook: which event is being edited, and whether the
 * edit applies to that single occurrence only.
 */
module Editing {
  import opened Wrappers
  import opened Types

  class EditingState {
    var editingEvent: Option<Event>
    var isSingleEdit: bool

    /** A single-occurrence edit always has an event to edit. */
    predicate Valid()
      reads this
    {
      isSingleEdit ==> editingEvent.Some?
    }

    /** `isEditing`: an event is being edited. */
    function IsEditing(): (editing: bool)
      reads this
      ensures editing <==> editingEvent != None
    {
      editingEvent.Some?
    }

    /** Nothing is being edited at first. */
    constructor()
      ensures Valid() && !IsEditing()
      ensures editingEvent == None && !isSingleEdit
    {
      editingEvent := None;
      isSingleEdit := false;
    }

    /** `startEdit(event)`: edit the whole series of `event`. */
    method StartEdit(event: Event)
      modifies this
      ensures Valid() && IsEditing()
      ensures editingEvent == Some(event) && !isSingleEdit
    {
      editingEvent := Some(event);
      isSingleEdit := false;
    }

    /** `startEditing(event)`: another name for `startEdit`. */
    method StartEditing(event: Event)
      modifies this
      ensures Valid() && IsEditing()
      ensures editingEvent == Some(event) && !isSingleEdit
    {
      StartEdit(event);
    }

    /** `startSingleEdit(event)`: edit only this occurrence, from any prior mode. */
    method StartSingleEdit(event: Event)
      modifies this
      ensures Valid() && IsEditing()
      ensures editingEvent == Some(event) && isSingleEdit
    {
      editingEvent := Some(event);
      isSingleEdit := true;
    }

    /** `stopEditing`: back to the initial state, from any prior mode. */
    method StopEditing()
      modifies this
      ensures Valid() && !IsEditing()
      ensures editingEvent == None && !isSingleEdit
    {
      editingEvent := None;
      isSingleEdit := false;
    }

    /**
     * The raw `setEditingEvent` setter the hook also returns: it replaces
     * the event and leaves the mode as it was, so clearing the event during
     * a single edit breaks `Valid()`.
     */
    method SetEditingEvent(event: Option<Event>)
      modifies this
      ensures editingEvent == event && isSingleEdit == old(isSingleEdit)
      ensures Valid() <==> !isSingleEdit || event.Some?
    {
      editingEvent := event;
    }
  }

  /** A single edit followed by `setEditingEvent(null)` leaves the flag set and no event. */
  method RawSetterBreaksValid(event: Event) returns (state: EditingState)
    ensures state.isSingleEdit && state.editingEvent == None && !state.Valid()
  {
    state := new EditingState();
    state.StartSingleEdit(event);
    state.SetEditingEvent(None);
  }
}
