/**
 * The five note handlers of the backend (backend/routes.py) over an abstract
 * DynamoDB table: a map from primary key to stored item. The item id and the
 * clock reading, which the handlers draw from `uuid4` and `utcnow`, are
 * parameters.
 */
module Routes {
  import opened Common
  import opened Text
  import opened Models

  /** Every request acts for this one user; there is no authentication. */
  const FIXED_USER_ID: string := "user123"

  /** The body `delete_note` answers with. */
  const DELETED_MESSAGE: string := "Note deleted successfully"

  /** The HTTP errors the handlers raise themselves (404 "Note not found"). */
  datatype HttpError = NotFound

  datatype Result<T> = Ok(value: T) | Err(error: HttpError)

  // ---------------------------------------------------------------------------
  // Listing: filter and sort
  // ---------------------------------------------------------------------------

  /** `search_lower` occurs in the lower-cased title or the lower-cased content. */
  predicate Matches(note: NoteItem, searchLower: string)
  {
    Contains(Lower(note.title), searchLower) || Contains(Lower(note.content), searchLower)
  }

  /** The list comprehension that keeps the matching notes, in their order. */
  function Filter(notes: seq<NoteItem>, searchLower: string): (r: seq<NoteItem>)
    ensures forall n :: n in r <==> n in notes && Matches(n, searchLower)
    ensures |r| <= |notes|
  {
    if notes == [] then []
    else if Matches(notes[0], searchLower) then [notes[0]] + Filter(notes[1..], searchLower)
    else Filter(notes[1..], searchLower)
  }

  /** An empty term matches every note, so skipping the filter for it changes nothing. */
  lemma {:induction false} FilterEmptyKeepsAll(notes: seq<NoteItem>)
    ensures Filter(notes, "") == notes
  {
    if notes != [] {
      assert Matches(notes[0], "");
      FilterEmptyKeepsAll(notes[1..]);
    }
  }

  /** Newest first: no note is followed by one with a later `updatedAt`. */
  predicate SortedByUpdatedDesc(notes: seq<NoteItem>)
  {
    forall i, j :: 0 <= i < j < |notes| ==> LexLe(notes[j].updatedAt, notes[i].updatedAt)
  }

  predicate DistinctIds(notes: seq<NoteItem>)
  {
    forall i, j :: 0 <= i < j < |notes| ==> notes[i].noteId != notes[j].noteId
  }

  /** Places `x` before the first note that is not newer than it. */
  function InsertByUpdatedDesc(x: NoteItem, notes: seq<NoteItem>): (r: seq<NoteItem>)
    ensures multiset(r) == multiset(notes) + multiset{x}
  {
    if notes == [] then [x]
    else if LexLe(notes[0].updatedAt, x.updatedAt) then [x] + notes
    else
      assert notes == [notes[0]] + notes[1..];
      [notes[0]] + InsertByUpdatedDesc(x, notes[1..])
  }

  lemma {:induction false} InsertKeepsOrder(x: NoteItem, notes: seq<NoteItem>)
    requires SortedByUpdatedDesc(notes)
    ensures SortedByUpdatedDesc(InsertByUpdatedDesc(x, notes))
  {
    if notes != [] {
      if LexLe(notes[0].updatedAt, x.updatedAt) {
        InsertInFront(x, notes);
      } else {
        LexLeTotal(notes[0].updatedAt, x.updatedAt);
        InsertKeepsOrder(x, notes[1..]);
        InsertBehind(x, notes);
      }
    }
  }

  lemma InsertInFront(x: NoteItem, notes: seq<NoteItem>)
    requires SortedByUpdatedDesc(notes) && notes != []
    requires LexLe(notes[0].updatedAt, x.updatedAt)
    ensures SortedByUpdatedDesc([x] + notes)
  {
    forall j | 0 <= j < |notes| ensures LexLe(notes[j].updatedAt, x.updatedAt) {
      if j > 0 {
        LexLeTransitive(notes[j].updatedAt, notes[0].updatedAt, x.updatedAt);
      }
    }
    PrependKeepsOrder(x, notes);
  }

  lemma InsertBehind(x: NoteItem, notes: seq<NoteItem>)
    requires SortedByUpdatedDesc(notes) && notes != []
    requires LexLe(x.updatedAt, notes[0].updatedAt)
    requires SortedByUpdatedDesc(InsertByUpdatedDesc(x, notes[1..]))
    ensures SortedByUpdatedDesc([notes[0]] + InsertByUpdatedDesc(x, notes[1..]))
  {
    var rest := InsertByUpdatedDesc(x, notes[1..]);
    forall j | 0 <= j < |rest| ensures LexLe(rest[j].updatedAt, notes[0].updatedAt) {
      var y := rest[j];
      assert y in multiset(rest);
      if y != x {
        assert y in multiset(notes[1..]);
        var k :| 0 <= k < |notes[1..]| && notes[1..][k] == y;
        assert y == notes[k + 1];
      }
    }
    PrependKeepsOrder(notes[0], rest);
  }

  /** A note no older than every note of a sorted list can go in front of it. */
  lemma PrependKeepsOrder(y: NoteItem, notes: seq<NoteItem>)
    requires SortedByUpdatedDesc(notes)
    requires forall j :: 0 <= j < |notes| ==> LexLe(notes[j].updatedAt, y.updatedAt)
    ensures SortedByUpdatedDesc([y] + notes)
  {
    var r := [y] + notes;
    forall i, j | 0 <= i < j < |r| ensures LexLe(r[j].updatedAt, r[i].updatedAt) {
      assert r[j] == notes[j - 1];
      if i > 0 {
        assert r[i] == notes[i - 1];
      }
    }
  }

  /** `notes.sort(key=updatedAt, reverse=True)`: a stable insertion sort. */
  function SortByUpdatedDesc(notes: seq<NoteItem>): (r: seq<NoteItem>)
    ensures multiset(r) == multiset(notes)
    ensures SortedByUpdatedDesc(r)
  {
    if notes == [] then []
    else
      var rest := SortByUpdatedDesc(notes[1..]);
      InsertKeepsOrder(notes[0], rest);
      assert notes == [notes[0]] + notes[1..];
      InsertByUpdatedDesc(notes[0], rest)
  }

  lemma SortKeepsMembers(notes: seq<NoteItem>)
    ensures forall n :: n in SortByUpdatedDesc(notes) <==> n in notes
  {
    var r := SortByUpdatedDesc(notes);
    forall n ensures n in r <==> n in notes {
      assert n in r <==> n in multiset(r);
    }
  }

  lemma {:induction false} FilterKeepsIdsDistinct(notes: seq<NoteItem>, searchLower: string)
    requires DistinctIds(notes)
    ensures DistinctIds(Filter(notes, searchLower))
  {
    if notes != [] {
      FilterKeepsIdsDistinct(notes[1..], searchLower);
      var rest := Filter(notes[1..], searchLower);
      forall j | 0 <= j < |rest| ensures rest[j].noteId != notes[0].noteId {
        assert rest[j] in notes[1..];
      }
    }
  }

  lemma {:induction false} SortKeepsIdsDistinct(notes: seq<NoteItem>)
    requires DistinctIds(notes)
    ensures DistinctIds(SortByUpdatedDesc(notes))
  {
    if notes != [] {
      SortKeepsIdsDistinct(notes[1..]);
      var rest := SortByUpdatedDesc(notes[1..]);
      forall j | 0 <= j < |rest| ensures rest[j].noteId != notes[0].noteId {
        assert rest[j] in multiset(notes[1..]);
      }
      InsertKeepsIdsDistinct(notes[0], rest);
    }
  }

  lemma {:induction false} InsertKeepsIdsDistinct(x: NoteItem, notes: seq<NoteItem>)
    requires DistinctIds(notes)
    requires forall j :: 0 <= j < |notes| ==> notes[j].noteId != x.noteId
    ensures DistinctIds(InsertByUpdatedDesc(x, notes))
  {
    if notes != [] && !LexLe(notes[0].updatedAt, x.updatedAt) {
      InsertKeepsIdsDistinct(x, notes[1..]);
      var rest := InsertByUpdatedDesc(x, notes[1..]);
      forall j | 0 <= j < |rest| ensures rest[j].noteId != notes[0].noteId {
        assert rest[j] in multiset(rest);
        if rest[j] != x {
          assert rest[j] in notes[1..];
        }
      }
    }
  }

  // ---------------------------------------------------------------------------
  // Update expressions (`SET a = :a, b = :b`)
  // ---------------------------------------------------------------------------

  datatype Attribute = UpdatedAt | Title | Content

  /** One `attr = :value` clause of a SET update expression. */
  datatype Assignment = Set(attr: Attribute, value: string)

  function AttributeValue(item: NoteItem, a: Attribute): string
  {
    match a
    case UpdatedAt => item.updatedAt
    case Title => item.title
    case Content => item.content
  }

  /** The store's effect of one clause on an item. */
  function Assign(item: NoteItem, s: Assignment): (r: NoteItem)
    ensures AttributeValue(r, s.attr) == s.value
    ensures forall a :: a != s.attr ==> AttributeValue(r, a) == AttributeValue(item, a)
    ensures KeyOf(r) == KeyOf(item) && r.createdAt == item.createdAt
  {
    match s.attr
    case UpdatedAt => item.(updatedAt := s.value)
    case Title => item.(title := s.value)
    case Content => item.(content := s.value)
  }

  /** The store's effect of a whole SET expression, clause by clause. */
  function ApplyAll(item: NoteItem, expr: seq<Assignment>): (r: NoteItem)
    ensures KeyOf(r) == KeyOf(item) && r.createdAt == item.createdAt
    decreases expr
  {
    if expr == [] then item else ApplyAll(Assign(item, expr[0]), expr[1..])
  }

  /** DynamoDB refuses an expression that names an attribute twice. */
  predicate DistinctAttributes(expr: seq<Assignment>)
  {
    forall i, j :: 0 <= i < j < |expr| ==> expr[i].attr != expr[j].attr
  }

  /** The value the expression gives `a`, if it names `a`. */
  function Assigned(expr: seq<Assignment>, a: Attribute): Option<string>
  {
    if expr == [] then None
    else if expr[0].attr == a then Some(expr[0].value)
    else Assigned(expr[1..], a)
  }

  lemma {:induction false} ApplyAllValue(item: NoteItem, expr: seq<Assignment>, a: Attribute)
    requires DistinctAttributes(expr)
    ensures AttributeValue(ApplyAll(item, expr), a) == Assigned(expr, a).GetOr(AttributeValue(item, a))
    decreases expr
  {
    if expr != [] {
      ApplyAllValue(Assign(item, expr[0]), expr[1..], a);
      if expr[0].attr == a {
        NotAssigned(expr[1..], a);
      }
    }
  }

  lemma {:induction false} NotAssigned(expr: seq<Assignment>, a: Attribute)
    requires forall i :: 0 <= i < |expr| ==> expr[i].attr != a
    ensures Assigned(expr, a) == None
  {
    if expr != [] {
      NotAssigned(expr[1..], a);
    }
  }

  /** Appending a clause only matters for an attribute not yet named. */
  lemma {:induction false} AssignedAppend(expr: seq<Assignment>, s: Assignment, a: Attribute)
    ensures Assigned(expr + [s], a) ==
      if Assigned(expr, a).Some? then Assigned(expr, a)
      else if s.attr == a then Some(s.value)
      else None
  {
    if expr != [] {
      assert (expr + [s])[1..] == expr[1..] + [s];
      AssignedAppend(expr[1..], s, a);
    }
  }

  /**
   * Builds the SET expression of `update_note`: always a fresh `updatedAt`,
   * then `title` and `content` for the fields the request supplies.
   */
  method BuildUpdate(note: NoteUpdate, now: string) returns (expr: seq<Assignment>)
    ensures DistinctAttributes(expr)
    ensures |expr| >= 1 && expr[0] == Set(UpdatedAt, now)
    ensures Assigned(expr, UpdatedAt) == Some(now)
    ensures Assigned(expr, Title) == note.title
    ensures Assigned(expr, Content) == note.content
  {
    expr := [Set(UpdatedAt, now)];
    NotAssigned(expr, Title);
    NotAssigned(expr, Content);
    if note.title.Some? {
      AssignedAppend(expr, Set(Title, note.title.value), UpdatedAt);
      AssignedAppend(expr, Set(Title, note.title.value), Title);
      AssignedAppend(expr, Set(Title, note.title.value), Content);
      expr := expr + [Set(Title, note.title.value)];
    }
    if note.content.Some? {
      AssignedAppend(expr, Set(Content, note.content.value), UpdatedAt);
      AssignedAppend(expr, Set(Content, note.content.value), Title);
      AssignedAppend(expr, Set(Content, note.content.value), Content);
      expr := expr + [Set(Content, note.content.value)];
    }
  }

  // ---------------------------------------------------------------------------
  // The table and the handlers
  // ---------------------------------------------------------------------------

  class NoteTable {
    var items: map<Key, NoteItem>

    /** Every item is stored under its own key. */
    ghost predicate Valid()
      reads this
    {
      forall k :: k in items ==> KeyOf(items[k]) == k
    }

    /** The item is the one stored under its key. */
    ghost predicate Stored(n: NoteItem)
      reads this
    {
      KeyOf(n) in items && items[KeyOf(n)] == n
    }

    /** The keys of the partition `userId`. */
    ghost function Partition(userId: string): set<Key>
      reads this
    {
      set k | k in items && k.userId == userId
    }

    constructor (initial: map<Key, NoteItem>)
      requires forall k :: k in initial ==> KeyOf(initial[k]) == k
      ensures Valid() && items == initial
    {
      items := initial;
    }

    /** `POST /notes` (create_note). */
    method CreateNote(note: NoteCreate, noteId: string, now: string) returns (r: NoteItem)
      requires Valid()
      modifies this
      ensures Valid()
      ensures r == NoteItem(FIXED_USER_ID, noteId, note.title, note.content, now, now)
      ensures r.createdAt == r.updatedAt
      ensures items == old(items)[KeyOf(r) := r]
      ensures KeyOf(r) !in old(items) ==> |items| == |old(items)| + 1
      ensures forall k :: k in old(items) && k != KeyOf(r) ==> k in items && items[k] == old(items)[k]
    {
      r := NoteItem(FIXED_USER_ID, noteId, note.title, note.content, now, now);
      items := items[KeyOf(r) := r];
    }

    /** The stand-in for the key-condition query on the partition `userId`:
        every item of the partition once, in an order left open. */
    method Query(userId: string) returns (r: seq<NoteItem>)
      requires Valid()
      ensures forall i :: 0 <= i < |r| ==> r[i].userId == userId && Stored(r[i])
      ensures forall k :: k in items && k.userId == userId ==> items[k] in r
      ensures DistinctIds(r)
      ensures |r| == |Partition(userId)|
    {
      ghost var partition := Partition(userId);
      var pending := set k | k in items && k.userId == userId;
      r := [];
      while pending != {}
        invariant pending <= partition
        invariant |r| + |pending| == |partition|
        invariant forall i :: 0 <= i < |r| ==> r[i].userId == userId && Stored(r[i]) && KeyOf(r[i]) !in pending
        invariant forall k :: k in partition ==> k in pending || items[k] in r
        invariant DistinctIds(r)
        decreases pending
      {
        var k :| k in pending;
        r := r + [items[k]];
        pending := pending - {k};
      }
    }

    /** `GET /notes` and `GET /notes?search=term` (get_all_notes). */
    method GetAllNotes(search: Option<string>) returns (r: seq<NoteItem>)
      requires Valid()
      ensures forall i :: 0 <= i < |r| ==> r[i].userId == FIXED_USER_ID && Stored(r[i])
      ensures search.Some? && search.value != "" ==>
                forall i :: 0 <= i < |r| ==> Matches(r[i], Lower(search.value))
      ensures forall k :: k in items && k.userId == FIXED_USER_ID &&
                (search.Some? && search.value != "" ==> Matches(items[k], Lower(search.value)))
                ==> items[k] in r
      ensures (search.None? || search.value == "") ==>
                |r| == |Partition(FIXED_USER_ID)|
      ensures SortedByUpdatedDesc(r)
      ensures DistinctIds(r)
    {
      var notes := Query(FIXED_USER_ID);
      ghost var partition := notes;
      if search.Some? && search.value != "" {
        var searchLower := Lower(search.value);
        FilterKeepsIdsDistinct(notes, searchLower);
        notes := Filter(notes, searchLower);
      }
      SortKeepsIdsDistinct(notes);
      SortKeepsMembers(notes);
      r := SortByUpdatedDesc(notes);
      forall i | 0 <= i < |r| ensures r[i].userId == FIXED_USER_ID && Stored(r[i]) {
        assert r[i] in notes;
        assert r[i] in partition;
      }
      assert |r| == |notes| by {
        assert |multiset(r)| == |multiset(notes)|;
      }
    }

    /** `GET /notes/{id}` (get_note_by_id). */
    method GetNote(noteId: string) returns (r: Result<NoteItem>)
      requires Valid()
      ensures r.Ok? <==> Key(FIXED_USER_ID, noteId) in items
      ensures r.Ok? ==> r.value == items[Key(FIXED_USER_ID, noteId)]
      ensures r.Ok? ==> r.value.userId == FIXED_USER_ID && r.value.noteId == noteId
      ensures r.Err? ==> r.error == NotFound
    {
      var k := Key(FIXED_USER_ID, noteId);
      if k !in items {
        return Err(NotFound);
      }
      r := Ok(items[k]);
    }

    /** `PUT /notes/{id}` (update_note): a partial update. */
    method UpdateNote(noteId: string, note: NoteUpdate, now: string) returns (r: Result<NoteItem>)
      requires Valid()
      modifies this
      ensures Valid()
      ensures Key(FIXED_USER_ID, noteId) !in old(items) ==> r == Err(NotFound) && items == old(items)
      ensures Key(FIXED_USER_ID, noteId) in old(items) ==>
        var before := old(items)[Key(FIXED_USER_ID, noteId)];
        && r.Ok?
        && items == old(items)[Key(FIXED_USER_ID, noteId) := r.value]
        && r.value.userId == FIXED_USER_ID && r.value.noteId == noteId
        && r.value.createdAt == before.createdAt
        && r.value.updatedAt == now
        && r.value.title == note.title.GetOr(before.title)
        && r.value.content == note.content.GetOr(before.content)
    {
      var k := Key(FIXED_USER_ID, noteId);
      if k !in items {
        return Err(NotFound);
      }
      var expr := BuildUpdate(note, now);
      var updated := ApplyAll(items[k], expr);
      ApplyAllValue(items[k], expr, UpdatedAt);
      ApplyAllValue(items[k], expr, Title);
      ApplyAllValue(items[k], expr, Content);
      items := items[k := updated];
      r := Ok(items[k]);
    }

    /** `DELETE /notes/{id}` (delete_note). */
    method DeleteNote(noteId: string) returns (r: Result<string>)
      requires Valid()
      modifies this
      ensures Valid()
      ensures Key(FIXED_USER_ID, noteId) !in old(items) ==> r == Err(NotFound) && items == old(items)
      ensures Key(FIXED_USER_ID, noteId) in old(items) ==>
        && r == Ok(DELETED_MESSAGE)
        && items == old(items) - {Key(FIXED_USER_ID, noteId)}
        && |items| == |old(items)| - 1
    {
      var k := Key(FIXED_USER_ID, noteId);
      if k !in items {
        return Err(NotFound);
      }
      items := items - {k};
      r := Ok(DELETED_MESSAGE);
    }
  }
}
