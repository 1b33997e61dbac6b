/**
 * The notes page: a create dialog and an inline editor that share the `title`
 * and `content` fields. Each submit returns the store call it issues.
 */
module NotesView {
  import opened Wrappers
  import opened Strings
  import opened Records

  /** What `handleCreate` passes to `addNote`: nothing for a blank title, else both fields trimmed. */
  function CreateCall(title: string, content: string): (r: Option<NoteFields>)
    ensures r.None? <==> IsBlank(title)
    ensures r.Some? ==> r.value == NoteFields(Trim(title), Trim(content)) && !IsBlank(r.value.title)
  {
    TrimIdempotent(title);
    if IsBlank(title) then None else Some(NoteFields(Trim(title), Trim(content)))
  }

  /** `!editingId`: no note is being edited when the id is `null` or the (falsy) empty string. */
  predicate NoneEditing(editingId: Option<string>) {
    editingId.None? || editingId.value == ""
  }

  /** The patch `handleUpdate` sends: the two trimmed fields and nothing else. */
  function EditPatch(title: string, content: string): NotePatch {
    NotePatch(None, Some(Trim(title)), Some(Trim(content)), None, None)
  }

  /** What `handleUpdate` passes to `updateNote`: nothing without an edited note or with a blank title. */
  function UpdateCall(editingId: Option<string>, title: string, content: string): (r: Option<(string, NotePatch)>)
    ensures r.None? <==> NoneEditing(editingId) || IsBlank(title)
    ensures r.Some? ==> r.value == (editingId.value, EditPatch(title, content)) && r.value.0 != ""
  {
    if NoneEditing(editingId) || IsBlank(title) then None
    else Some((editingId.value, EditPatch(title, content)))
  }

  /**
   * Saving a note from the editor untouched keeps it, refreshing only
   * `updatedAt`, when its title and content are already trimmed.
   */
  lemma EditUnchangedOnlyStamps(n: Note, today: string)
    requires Trim(n.title) == n.title && Trim(n.content) == n.content
    ensures MergeNote(n, EditPatch(n.title, n.content), today) == n.(updatedAt := today)
  {
  }

  /** The page's own state. */
  class NoteForm {
    var createOpen: bool
    var editingId: Option<string>
    var title: string
    var content: string

    constructor ()
      ensures !createOpen && editingId == None && title == "" && content == ""
    {
      createOpen := false;
      editingId := None;
      title := "";
      content := "";
    }

    /** The create dialog's `onOpenChange`: opening or closing it keeps the fields. */
    method SetCreateOpen(b: bool)
      modifies this`createOpen
      ensures createOpen == b
    {
      createOpen := b;
    }

    /** `handleCreate`: a blank title changes nothing; otherwise add, clear the fields, close the dialog. */
    method HandleCreate() returns (call: Option<NoteFields>)
      modifies this
      ensures call == CreateCall(old(title), old(content))
      ensures call.None? ==> unchanged(this)
      ensures call.Some? ==> title == "" && content == "" && !createOpen && editingId == old(editingId)
    {
      call := CreateCall(title, content);
      if call.None? {
        return;
      }
      title := "";
      content := "";
      createOpen := false;
    }

    /** `handleUpdate`: without an edited note or with a blank title nothing happens; otherwise update and leave edit mode. */
    method HandleUpdate() returns (call: Option<(string, NotePatch)>)
      modifies this
      ensures call == UpdateCall(old(editingId), old(title), old(content))
      ensures call.None? ==> unchanged(this)
      ensures call.Some? ==> editingId == None && title == "" && content == "" && createOpen == old(createOpen)
    {
      if NoneEditing(editingId) || IsBlank(title) {
        return None;
      }
      call := Some((editingId.value, EditPatch(title, content)));
      editingId := None;
      title := "";
      content := "";
    }

    /** `startEdit`: the editor takes the note's id, title and content. */
    method StartEdit(n: Note)
      modifies this
      ensures editingId == Some(n.id) && title == n.title && content == n.content
      ensures createOpen == old(createOpen)
    {
      editingId := Some(n.id);
      title := n.title;
      content := n.content;
    }

    /** `cancelEdit`: leave edit mode with empty fields. */
    method CancelEdit()
      modifies this
      ensures editingId == None && title == "" && content == ""
      ensures createOpen == old(createOpen)
    {
      editingId := None;
      title := "";
      content := "";
    }
  }
}
