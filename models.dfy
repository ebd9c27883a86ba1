/** The request and response shapes of the notes API (backend/models.py). */
module Models {
  import opened Common

  /** Body of `POST /notes`: both fields required. */
  datatype NoteCreate = NoteCreate(title: string, content: string)

  /** Body of `PUT /notes/{id}`: a field left out (`None`) is not changed. */
  datatype NoteUpdate = NoteUpdate(title: Option<string>, content: Option<string>)

  /** A stored note, as the table holds it and as every endpoint returns it. */
  datatype NoteItem = NoteItem(
    userId: string,
    noteId: string,
    title: string,
    content: string,
    createdAt: string,
    updatedAt: string)

  /** The table's primary key: partition key `userId`, sort key `noteId`. */
  datatype Key = Key(userId: string, noteId: string)

  function KeyOf(n: NoteItem): Key
  {
    Key(n.userId, n.noteId)
  }
}
