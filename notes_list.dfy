/**
 * The list pane (frontend/src/NotesList.jsx): the fetched notes, the search
 * term, the loading flag, and the rule that picks what the pane shows.
 * `fetchNotes` awaits its call, so it is split at the `await`: StartFetch runs
 * up to the request, FinishFetch from the settled outcome on.
 */
module NotesListView {
  import opened Common
  import opened Api

  const NO_MATCHES: string := "No notes found"
  const NO_NOTES: string := "No notes yet"
  const UNTITLED: string := "Untitled"

  /** One selectable row: its caption, whether it is highlighted, and the note a click reports. */
  datatype Row = Row(caption: string, highlighted: bool, note: ClientNote)

  /** The three things the pane can show. */
  datatype Pane = LoadingIndicator | EmptyMessage(text: string) | Rows(rows: seq<Row>)

  /** `searchTerm || null`: the argument of the list call. */
  function SearchArgument(searchTerm: string): (r: Option<string>)
    ensures r.None? <==> searchTerm == ""
    ensures r.Some? ==> r.value == searchTerm
  {
    if searchTerm == "" then None else Some(searchTerm)
  }

  /** `note.title || "Untitled"`. */
  function RowLabel(note: ClientNote): (r: string)
    ensures r != ""
    ensures note.title.Some? && note.title.value != "" ==> r == note.title.value
    ensures note.title.None? || note.title.value == "" ==> r == UNTITLED
  {
    if note.title.Some? && note.title.value != "" then note.title.value else UNTITLED
  }

  /** `selectedNoteId === note.noteId`; an absent id matches no note. */
  predicate IsHighlighted(note: ClientNote, selectedNoteId: Option<string>)
  {
    selectedNoteId == Some(note.noteId)
  }

  function RenderRows(notes: seq<ClientNote>, selectedNoteId: Option<string>): (rows: seq<Row>)
    ensures |rows| == |notes|
    ensures forall i :: 0 <= i < |rows| ==> rows[i].note == notes[i]
    ensures forall i :: 0 <= i < |rows| ==> rows[i].caption == RowLabel(notes[i])
    ensures forall i :: 0 <= i < |rows| ==> (rows[i].highlighted <==> selectedNoteId == Some(notes[i].noteId))
  {
    seq(|notes|, i requires 0 <= i < |notes| =>
      Row(RowLabel(notes[i]), IsHighlighted(notes[i], selectedNoteId), notes[i]))
  }

  /** The render branch: loading first, then the empty message, then the rows. */
  function Render(loading: bool, notes: seq<ClientNote>, searchTerm: string, selectedNoteId: Option<string>): (p: Pane)
    ensures p.LoadingIndicator? <==> loading
    ensures p.EmptyMessage? <==> !loading && notes == []
    ensures p.EmptyMessage? ==> (p.text == NO_MATCHES <==> searchTerm != "")
    ensures p.EmptyMessage? ==> (p.text == NO_NOTES <==> searchTerm == "")
    ensures p.Rows? ==> p.rows == RenderRows(notes, selectedNoteId)
  {
    if loading then LoadingIndicator
    else if |notes| == 0 then EmptyMessage(if searchTerm != "" then NO_MATCHES else NO_NOTES)
    else Rows(RenderRows(notes, selectedNoteId))
  }

  predicate DistinctNoteIds(notes: seq<ClientNote>)
  {
    forall i, j :: 0 <= i < j < |notes| ==> notes[i].noteId != notes[j].noteId
  }

  /** With distinct ids, at most one row is highlighted. */
  lemma AtMostOneHighlighted(notes: seq<ClientNote>, selectedNoteId: Option<string>, i: nat, j: nat)
    requires DistinctNoteIds(notes)
    requires i < |notes| && j < |notes|
    requires RenderRows(notes, selectedNoteId)[i].highlighted
    requires RenderRows(notes, selectedNoteId)[j].highlighted
    ensures i == j
  {
  }

  class NotesList {
    var notes: seq<ClientNote>
    var searchTerm: string
    var loading: bool

    /** Mounting: no notes, no search term, and the loading indicator up. */
    constructor ()
      ensures notes == [] && searchTerm == "" && loading
    {
      notes := [];
      searchTerm := "";
      loading := true;
    }

    /** fetchNotes up to its `await`: raises `loading` and issues the list call. */
    method StartFetch() returns (sent: Request)
      modifies this
      ensures loading
      ensures notes == old(notes) && searchTerm == old(searchTerm)
      ensures sent == GetAllNotes(SearchArgument(searchTerm))
    {
      loading := true;
      sent := GetAllNotes(if searchTerm == "" then None else Some(searchTerm));
    }

    /** fetchNotes after its `await`: keeps the old notes on failure, lowers `loading` either way. */
    method FinishFetch(response: Outcome<seq<ClientNote>>)
      modifies this
      ensures !loading
      ensures searchTerm == old(searchTerm)
      ensures notes == (if response.Succeeded? then response.value else old(notes))
    {
      if response.Succeeded? {
        notes := response.value;
      }
      loading := false;
    }

    /** Typing in the search box; the effect on `searchTerm` refetches when the term changed. */
    method ChangeSearchTerm(term: string) returns (sent: Option<Request>)
      modifies this
      ensures searchTerm == term && notes == old(notes)
      ensures term == old(searchTerm) ==> sent == None && loading == old(loading)
      ensures term != old(searchTerm) ==> loading && sent == Some(GetAllNotes(SearchArgument(term)))
    {
      var changed := term != searchTerm;
      searchTerm := term;
      sent := None;
      if changed {
        var request := StartFetch();
        sent := Some(request);
      }
    }

    /** What the pane shows, given the id the root passes for highlighting. */
    function View(selectedNoteId: Option<string>): Pane
      reads this
    {
      Render(loading, notes, searchTerm, selectedNoteId)
    }

    /** A click on row `i` reports that row's own note object. */
    method ClickRow(i: nat, selectedNoteId: Option<string>) returns (note: ClientNote)
      requires View(selectedNoteId).Rows? && i < |View(selectedNoteId).rows|
      ensures note == notes[i]
      ensures note == View(selectedNoteId).rows[i].note
    {
      note := View(selectedNoteId).rows[i].note;
    }
  }
}
