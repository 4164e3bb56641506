/**
 The note store of `NoteStorage`: the ordered collection held in the backing JSON file,
 and its read, list, search, add, update and delete operations as pure functions from the
 collection (plus arguments) to the new collection and the operation's result.
 */
module Storage {
  import opened Wrappers
  import opened Text
  import opened Seqs
  import opened Notes

  /** The notes in the backing file, in insertion order. */
  type Store = seq<Note>

  /** Some note in `s` carries `id`. */
  predicate HasId(s: Store, id: string) {
    exists i :: 0 <= i < |s| && s[i].id == id
  }

  /** No two notes of `s` share an id: the store's invariant. */
  ghost predicate UniqueIds(s: Store) {
    forall i, j :: 0 <= i < j < |s| ==> s[i].id != s[j].id
  }

  /** `i` is the position of the first note of `s` carrying `id`. */
  ghost predicate IsFirstWithId(s: Store, id: string, i: int) {
    0 <= i < |s| && s[i].id == id && forall j :: 0 <= j < i ==> s[j].id != id
  }

  /** `tags or []`: an absent tag list stands for no tags. */
  function TagsOrEmpty(tags: Option<seq<string>>): seq<string> {
    match tags
    case None => []
    case Some(ts) => ts
  }

  /** `_read`: the parsed backing file, where a parse failure (`None`) reads as no notes. */
  function Read(parsed: Option<Store>): Store {
    match parsed
    case None => []
    case Some(notes) => notes
  }

  /** The test `list_notes` applies for a non-empty tag filter. */
  function TagTest(tag: string): Note -> bool {
    n => HasTag(n, tag)
  }

  /** The test `search` applies. */
  function KeywordTest(keyword: string): Note -> bool {
    n => MatchesKeyword(n, keyword)
  }

  /** `list_notes(tag)`: without a filter (or with the empty one) the whole store; otherwise
      the notes carrying the tag up to case, each as often as stored, in storage order. */
  function ListNotes(s: Store, tag: Option<string>): (r: Store)
    ensures tag.None? || tag.value == "" ==> r == s
    ensures tag.Some? && tag.value != "" ==>
      forall n :: n in r <==> n in s && HasTag(n, tag.value)
    ensures tag.Some? && tag.value != "" ==>
      forall n :: multiset(r)[n] == if HasTag(n, tag.value) then multiset(s)[n] else 0
    ensures IsSubsequence(r, s)
  {
    if tag.None? || tag.value == "" then
      SubsequenceReflexive(s);
      s
    else
      FilterIsSubsequence(s, TagTest(tag.value));
      Filter(s, TagTest(tag.value))
  }

  /** `search(keyword)`: the notes of the unfiltered listing that match the keyword,
      each as often as stored, in storage order. */
  function Search(s: Store, keyword: string): (r: Store)
    ensures forall n :: n in r <==> n in s && MatchesKeyword(n, keyword)
    ensures forall n :: multiset(r)[n] == if MatchesKeyword(n, keyword) then multiset(s)[n] else 0
    ensures IsSubsequence(r, s)
  {
    var all := ListNotes(s, None);
    FilterIsSubsequence(all, KeywordTest(keyword));
    Filter(all, KeywordTest(keyword))
  }

  /** `add_note(title, body, tags)` with the generated id and creation time passed in:
      appends the new note after every stored one and returns it. */
  function AddNote(s: Store, freshId: string, createdAt: string,
                   title: string, body: string, tags: Option<seq<string>>): (r: (Store, Note))
    ensures r.1.id == freshId && r.1.createdAt == createdAt
    ensures r.1.title == title && r.1.body == body
    ensures r.1.tags == (if tags.None? then [] else tags.value)
    ensures |r.0| == |s| + 1 && r.0[..|s|] == s && r.0[|s|] == r.1
    ensures UniqueIds(s) && !HasId(s, freshId) ==> UniqueIds(r.0)
  {
    var note := Note(freshId, title, body, TagsOrEmpty(tags), createdAt);
    (s + [note], note)
  }

  /** An exception an operation raises instead of returning. */
  datatype Raised = AttributeError(attribute: string)

  /** `note.__dict__` for a note. `Note` is a dataclass declared with `slots=True`, so its
      instances carry no attribute dictionary and the lookup raises. */
  function InstanceDict(n: Note): Result<Note, Raised> {
    Failure(AttributeError("__dict__"))
  }

  /** `add_note` as written, returning the store left in the file and the call's outcome:
      normalise the tags, build the note, read the file, take the note's attribute
      dictionary to append it, and write the file only once that succeeded. */
  function AddNoteAsWritten(s: Store, freshId: string, createdAt: string,
                            title: string, body: string, tags: Option<seq<string>>)
    : (r: (Store, Result<Note, Raised>))
    ensures r.0 == s
    ensures r.1.Failure?
  {
    var note := Note(freshId, title, body, TagsOrEmpty(tags), createdAt);
    var notes := s;
    match InstanceDict(note)
    case Failure(e) => (s, Failure(e))
    case Success(record) => (notes + [record], Success(note))
  }

  /** Position of the first note carrying `id`, or `None` when no note does. */
  function FirstIndexOf(s: Store, id: string): (r: Option<nat>)
    ensures r.None? <==> !HasId(s, id)
    ensures r.Some? ==> IsFirstWithId(s, id, r.value)
  {
    if s == [] then None
    else if s[0].id == id then Some(0)
    else
      match FirstIndexOf(s[1..], id)
      case None =>
        assert forall i :: 1 <= i < |s| ==> s[i] == s[1..][i - 1];
        None
      case Some(i) => Some(i + 1)
  }

  /** `update_note(note_id, title, body, tags)`: rewrites title, body and tags of the first
      note carrying `id` and returns it; `None` and an untouched store when none does. */
  function UpdateNote(s: Store, id: string, title: string, body: string,
                      tags: Option<seq<string>>): (r: (Store, Option<Note>))
    ensures |r.0| == |s|
    ensures forall i :: 0 <= i < |s| ==> r.0[i].id == s[i].id && r.0[i].createdAt == s[i].createdAt
    ensures r.1.None? <==> !HasId(s, id)
    ensures r.1.None? ==> r.0 == s
    ensures forall i :: IsFirstWithId(s, id, i) ==>
      && r.1 == Some(r.0[i])
      && r.0[i].title == title && r.0[i].body == body
      && r.0[i].tags == (if tags.None? then [] else tags.value)
      && forall j :: 0 <= j < |s| && j != i ==> r.0[j] == s[j]
    ensures UniqueIds(s) ==> UniqueIds(r.0)
  {
    match FirstIndexOf(s, id)
    case None => (s, None)
    case Some(i) =>
      var note := s[i].(title := title, body := body, tags := TagsOrEmpty(tags));
      (s[i := note], Some(note))
  }

  /** `HasId` seen through membership rather than positions. */
  lemma HasIdIffMember(s: Store, id: string)
    ensures HasId(s, id) <==> exists n :: n in s && n.id == id
  {
  }

  /** The test `delete` keeps a note by. */
  function OtherId(id: string): Note -> bool {
    (n: Note) => n.id != id
  }

  /** `delete(note_id)`: drops every note carrying `id`; reports whether any was dropped,
      and leaves the store untouched when none was. */
  function Delete(s: Store, id: string): (r: (Store, bool))
    ensures r.1 <==> HasId(s, id)
    ensures !r.1 ==> r.0 == s
    ensures r.1 ==> |r.0| < |s|
    ensures forall n :: n in r.0 <==> n in s && n.id != id
    ensures forall n :: multiset(r.0)[n] == if n.id != id then multiset(s)[n] else 0
    ensures IsSubsequence(r.0, s)
  {
    var filtered := Filter(s, OtherId(id));
    FilterIsSubsequence(s, OtherId(id));
    assert forall n :: OtherId(id)(n) == (n.id != id);
    HasIdIffMember(s, id);
    if |filtered| == |s| then
      SubsequenceReflexive(s);
      (s, false)
    else
      (filtered, true)
  }
}
