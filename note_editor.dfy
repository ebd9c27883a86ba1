/**
 * The editor pane (frontend/src/NoteEditor.jsx): the editable fields of the
 * selected note, the busy flags, and the save, delete and new-note handlers.
 * A handler's network call is represented by two parameters: the request it
 * issues is an out-parameter, and the outcome the network delivers for it is
 * an in-parameter, read only when a request is issued.
 */
module NoteEditorView {
  import opened Common
  import opened Text
  import opened Api

  /** The callbacks the root component hands to the editor. */
  datatype Callback =
    | NoteSaved(note: Option<ClientNote>)
    | NoteDeleted
    | NewNote

  /** The field values the reset effect loads for a selection (`note.title || ""`). */
  function ShownTitle(selection: Option<ClientNote>): (r: string)
    ensures selection.None? ==> r == ""
    ensures selection.Some? && selection.value.title.Some? ==> r == selection.value.title.value
    ensures selection.Some? && selection.value.title.None? ==> r == ""
  {
    if selection.Some? then selection.value.title.GetOr("") else ""
  }

  function ShownContent(selection: Option<ClientNote>): (r: string)
    ensures selection.None? ==> r == ""
    ensures selection.Some? && selection.value.content.Some? ==> r == selection.value.content.value
    ensures selection.Some? && selection.value.content.None? ==> r == ""
  {
    if selection.Some? then selection.value.content.GetOr("") else ""
  }

  /** The request a save issues: an update of the selected note, or a create. */
  function SaveRequest(selection: Option<ClientNote>, title: string, content: string): (r: Request)
    ensures r.UpdateNote? <==> selection.Some?
    ensures r.UpdateNote? ==> r == UpdateNote(selection.value.noteId, title, content)
    ensures r.CreateNote? ==> r == CreateNote(title, content)
  {
    if selection.Some? then UpdateNote(selection.value.noteId, title, content)
    else CreateNote(title, content)
  }

  class NoteEditor {
    /** The `selectedNote` prop. */
    var selected: Option<ClientNote>
    var title: string
    var content: string
    var saving: bool
    var deleting: bool

    /** The fields hold what the reset effect loads for the current selection. */
    ghost predicate ShowsSelection()
      reads this
    {
      title == ShownTitle(selected) && content == ShownContent(selected)
    }

    /** Mounting: empty and idle fields, then the reset effect for the first selection. */
    constructor (selectedNote: Option<ClientNote>)
      ensures selected == selectedNote && ShowsSelection()
      ensures !saving && !deleting
    {
      selected := selectedNote;
      title, content := "", "";
      saving, deleting := false, false;
      if selectedNote.Some? {
        title := selectedNote.value.title.GetOr("");
        content := selectedNote.value.content.GetOr("");
      }
    }

    /** The reset effect, run when the `selectedNote` prop changes. */
    method SelectedNoteChanged(note: Option<ClientNote>)
      modifies this
      ensures selected == note && ShowsSelection()
      ensures saving == old(saving) && deleting == old(deleting)
    {
      selected := note;
      if note.Some? {
        title := note.value.title.GetOr("");
        content := note.value.content.GetOr("");
      } else {
        title := "";
        content := "";
      }
    }

    /** Typing in the title input. */
    method EditTitle(text: string)
      modifies this
      ensures title == text
      ensures content == old(content) && selected == old(selected)
      ensures saving == old(saving) && deleting == old(deleting)
    {
      title := text;
    }

    /** Typing in the content area. */
    method EditContent(text: string)
      modifies this
      ensures content == text
      ensures title == old(title) && selected == old(selected)
      ensures saving == old(saving) && deleting == old(deleting)
    {
      content := text;
    }

    /** The Save button is enabled: not saving, and something other than whitespace typed. */
    predicate SaveEnabled()
      reads this
    {
      !saving && !(Trim(title) == "" && Trim(content) == "")
    }

    /** handleSave. */
    method Save(response: Outcome<Option<ClientNote>>) returns (sent: Option<Request>, called: Option<Callback>)
      modifies this
      ensures title == old(title) && content == old(content)
      ensures selected == old(selected) && deleting == old(deleting)
      ensures IsBlank(title) && IsBlank(content) ==>
                sent == None && called == None && saving == old(saving)
      ensures !(IsBlank(title) && IsBlank(content)) ==>
                && sent == Some(SaveRequest(selected, title, content))
                && !saving
                && called == (if response.Succeeded? then Some(NoteSaved(response.value)) else None)
    {
      TrimEmptyIffBlank(title);
      TrimEmptyIffBlank(content);
      if Trim(title) == "" && Trim(content) == "" {
        return None, None;
      }
      saving := true;
      if selected.Some? {
        sent := Some(UpdateNote(selected.value.noteId, title, content));
      } else {
        sent := Some(CreateNote(title, content));
      }
      if response.Succeeded? {
        called := Some(NoteSaved(response.value));
      } else {
        called := None;
      }
      saving := false;
    }

    /** handleDelete; `confirmed` is the user's answer to the confirmation dialog. */
    method Delete(confirmed: bool, response: Outcome<()>) returns (sent: Option<Request>, called: Option<Callback>)
      modifies this
      ensures title == old(title) && content == old(content)
      ensures selected == old(selected) && saving == old(saving)
      ensures selected.None? || !confirmed ==>
                sent == None && called == None && deleting == old(deleting)
      ensures selected.Some? && confirmed ==>
                && sent == Some(DeleteNote(selected.value.noteId))
                && !deleting
                && called == (if response.Succeeded? then Some(NoteDeleted) else None)
    {
      if selected.None? {
        return None, None;
      }
      if !confirmed {
        return None, None;
      }
      deleting := true;
      sent := Some(DeleteNote(selected.value.noteId));
      if response.Succeeded? {
        called := Some(NoteDeleted);
      } else {
        called := None;
      }
      deleting := false;
    }

    /** handleNewNote: clears the fields and notifies, without a request. */
    method NewNote() returns (called: Callback)
      modifies this
      ensures title == "" && content == ""
      ensures called == Callback.NewNote
      ensures selected == old(selected) && saving == old(saving) && deleting == old(deleting)
    {
      title := "";
      content := "";
      called := Callback.NewNote;
    }
  }

  /** An enabled Save button always leads to a request. */
  lemma SaveEnabledSends(e: NoteEditor)
    requires e.SaveEnabled()
    ensures !(IsBlank(e.title) && IsBlank(e.content))
  {
    TrimEmptyIffBlank(e.title);
    TrimEmptyIffBlank(e.content);
  }
}
