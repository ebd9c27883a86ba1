/**
 * The client's view of the notes API (frontend/src/api.js) as values: the
 * requests the components issue and the outcome a call settles with.
 */
module Api {
  import opened Common

  /** A note as the client holds it: parsed JSON, whose `title` and `content` may be missing. */
  datatype ClientNote = ClientNote(
    noteId: string,
    title: Option<string>,
    content: Option<string>,
    createdAt: string)

  /** One HTTP request, by the api.js function that sends it. */
  datatype Request =
    | GetAllNotes(search: Option<string>)
    | CreateNote(title: string, content: string)
    | UpdateNote(noteId: string, title: string, content: string)
    | DeleteNote(noteId: string)

  /** A call resolves with the parsed body, or rejects (any non-2xx status or a network error). */
  datatype Outcome<T> = Succeeded(value: T) | Failed
}
