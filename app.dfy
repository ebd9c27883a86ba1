/**
 * The root component (frontend/src/App.jsx): the selected note and the
 * refresh counter, the four handlers that change them, and the page they
 * render: the list, re-created whenever the counter changes (its `key`),
 * beside the editor, which receives the selection.
 */
module RootView {
  import opened Common
  import opened Text
  import opened Api
  import opened NoteEditorView
  import opened NotesListView

  class App {
    var selectedNote: Option<ClientNote>
    var refreshKey: nat

    constructor ()
      ensures selectedNote == None && refreshKey == 0
    {
      selectedNote := None;
      refreshKey := 0;
    }

    /** handleSelectNote: a row was clicked. */
    method HandleSelectNote(note: ClientNote)
      modifies this
      ensures selectedNote == Some(note)
      ensures refreshKey == old(refreshKey)
    {
      selectedNote := Some(note);
    }

    /** handleNoteSaved: select the saved note when there is one; refresh the list in any case. */
    method HandleNoteSaved(savedNote: Option<ClientNote>)
      modifies this
      ensures selectedNote == (if savedNote.Some? then savedNote else old(selectedNote))
      ensures refreshKey == old(refreshKey) + 1
    {
      if savedNote.Some? {
        selectedNote := savedNote;
      }
      refreshKey := refreshKey + 1;
    }

    /** handleNoteDeleted: clear the selection and refresh the list. */
    method HandleNoteDeleted()
      modifies this
      ensures selectedNote == None
      ensures refreshKey == old(refreshKey) + 1
    {
      selectedNote := None;
      refreshKey := refreshKey + 1;
    }

    /** handleNewNote: clear the selection; the list is left as it is. */
    method HandleNewNote()
      modifies this
      ensures selectedNote == None
      ensures refreshKey == old(refreshKey)
    {
      selectedNote := None;
    }

    /** `selectedNote?.noteId`: the id the list highlights. */
    function SelectedNoteId(): (r: Option<string>)
      reads this
      ensures r.Some? <==> selectedNote.Some?
      ensures r.Some? ==> r.value == selectedNote.value.noteId
    {
      if selectedNote.Some? then Some(selectedNote.value.noteId) else None
    }
  }

  /**
   * The rendered page. Valid() is what rendering maintains: the editor's prop
   * is App's selection, the list was mounted with the current `refreshKey`,
   * and no editor request is in flight between user actions.
   */
  class Screen {
    const app: App
    const editor: NoteEditor
    var list: NotesList
    var listKey: nat

    ghost predicate Valid()
      reads this, app, editor
    {
      && editor.selected == app.selectedNote
      && listKey == app.refreshKey
      && !editor.saving && !editor.deleting
    }

    constructor ()
      ensures Valid() && fresh(app) && fresh(editor) && fresh(list)
      ensures app.selectedNote == None && app.refreshKey == 0
      ensures editor.title == "" && editor.content == ""
      ensures list.notes == [] && list.searchTerm == "" && list.loading
    {
      app := new App();
      editor := new NoteEditor(None);
      list := new NotesList();
      listKey := 0;
    }

    /** The highlighted rows are exactly those of the selected note. */
    function ListPane(): (p: Pane)
      reads this, app, list
      ensures p.Rows? ==> forall i :: 0 <= i < |p.rows| ==>
                (p.rows[i].highlighted <==>
                   app.selectedNote.Some? && p.rows[i].note.noteId == app.selectedNote.value.noteId)
    {
      list.View(app.SelectedNoteId())
    }

    /** The list's mount effect: on page load it sends the unfiltered list call. */
    method MountList() returns (fetch: Request)
      modifies list
      ensures list.loading
      ensures list.notes == old(list.notes) && list.searchTerm == old(list.searchTerm)
      ensures fetch == GetAllNotes(SearchArgument(list.searchTerm))
      ensures old(list.searchTerm) == "" ==> fetch == GetAllNotes(None)
    {
      fetch := list.StartFetch();
    }

    /** `key={refreshKey}`: a changed key replaces the list by a fresh one, whose mount effect fetches. */
    method RemountList() returns (fetch: Request)
      modifies this
      ensures fresh(list) && listKey == app.refreshKey
      ensures list.notes == [] && list.searchTerm == "" && list.loading
      ensures fetch == GetAllNotes(None)
    {
      list := new NotesList();
      listKey := app.refreshKey;
      fetch := MountList();
    }

    /** The editor's Save button, and what follows from its outcome. */
    method Save(response: Outcome<Option<ClientNote>>) returns (sent: Option<Request>, fetch: Option<Request>)
      requires Valid()
      modifies this, app, editor
      ensures Valid()
      ensures IsBlank(old(editor.title)) && IsBlank(old(editor.content)) ==> sent == None
      ensures !(IsBlank(old(editor.title)) && IsBlank(old(editor.content))) ==> sent.Some?
      ensures sent.Some? ==> sent.value == SaveRequest(old(app.selectedNote), old(editor.title), old(editor.content))
      // a save that went through: the list is refreshed once, the returned note is selected and shown
      ensures sent.Some? && response.Succeeded? ==>
                && app.refreshKey == old(app.refreshKey) + 1
                && fresh(list) && list.searchTerm == "" && fetch == Some(GetAllNotes(None))
                && app.selectedNote == (if response.value.Some? then response.value else old(app.selectedNote))
                && (response.value.Some? ==> editor.ShowsSelection())
                && (response.value.None? ==> editor.title == old(editor.title) && editor.content == old(editor.content))
      // otherwise nothing changes
      ensures !(sent.Some? && response.Succeeded?) ==>
                && fetch == None && list == old(list)
                && app.selectedNote == old(app.selectedNote) && app.refreshKey == old(app.refreshKey)
                && editor.title == old(editor.title) && editor.content == old(editor.content)
    {
      var called;
      sent, called := editor.Save(response);
      fetch := None;
      if called.Some? {
        var saved := called.value.note;
        app.HandleNoteSaved(saved);
        if saved.Some? {
          // the parsed response is a new object, so the reset effect runs
          editor.SelectedNoteChanged(app.selectedNote);
        }
        var request := RemountList();
        fetch := Some(request);
      }
    }

    /** The editor's Delete button; `confirmed` is the answer to the dialog. */
    method Delete(confirmed: bool, response: Outcome<()>) returns (sent: Option<Request>, fetch: Option<Request>)
      requires Valid()
      modifies this, app, editor
      ensures Valid()
      ensures old(app.selectedNote).None? || !confirmed ==> sent == None
      ensures old(app.selectedNote).Some? && confirmed ==> sent.Some?
      ensures sent.Some? ==> sent.value == DeleteNote(old(app.selectedNote).value.noteId)
      ensures sent.Some? && response.Succeeded? ==>
                && app.selectedNote == None
                && editor.title == "" && editor.content == ""
                && app.refreshKey == old(app.refreshKey) + 1
                && fresh(list) && list.searchTerm == "" && fetch == Some(GetAllNotes(None))
      ensures !(sent.Some? && response.Succeeded?) ==>
                && fetch == None && list == old(list)
                && app.selectedNote == old(app.selectedNote) && app.refreshKey == old(app.refreshKey)
                && editor.title == old(editor.title) && editor.content == old(editor.content)
    {
      var called;
      sent, called := editor.Delete(confirmed, response);
      fetch := None;
      if called.Some? {
        app.HandleNoteDeleted();
        // the selection went from a note to null, so the reset effect runs
        editor.SelectedNoteChanged(app.selectedNote);
        var request := RemountList();
        fetch := Some(request);
      }
    }

    /** The editor's New Note button. */
    method NewNote()
      requires Valid()
      modifies this, app, editor
      ensures Valid()
      ensures app.selectedNote == None && app.refreshKey == old(app.refreshKey)
      ensures editor.title == "" && editor.content == ""
      ensures list == old(list)
    {
      var hadSelection := app.selectedNote.Some?;
      var called := editor.NewNote();
      if called == Callback.NewNote {
        app.HandleNewNote();
        if hadSelection {
          // the selection went from a note to null, so the reset effect runs
          editor.SelectedNoteChanged(app.selectedNote);
        }
      }
    }

    /** A click on row `i` of the list. */
    method SelectRow(i: nat)
      requires Valid()
      requires ListPane().Rows? && i < |ListPane().rows|
      modifies this, app, editor
      ensures Valid()
      ensures app.selectedNote == Some(old(list.notes)[i])
      ensures app.refreshKey == old(app.refreshKey) && list == old(list)
      ensures old(app.selectedNote) != app.selectedNote ==> editor.ShowsSelection()
    {
      var note := list.ClickRow(i, app.SelectedNoteId());
      var before := app.selectedNote;
      app.HandleSelectNote(note);
      if before != app.selectedNote {
        editor.SelectedNoteChanged(app.selectedNote);
      }
    }
  }
}
