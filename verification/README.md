# SmartNotes note store in Dafny

A model of `NoteStorage`, the persistence layer of SmartNotes: a JSON file holding an
ordered array of notes (`id`, `title`, `body`, `tags`, `created_at`), with operations to
list (optionally filtered by tag), search by keyword, add, update and delete.

Every operation re-reads the whole file. Listing and searching never write it. Adding
would rewrite the whole file, but as written it raises before writing (see Findings);
updating and deleting rewrite it only when they change something (a note was found, a
note was removed). The model drops the file and keeps the
list: the store is a `seq<Note>` in insertion order, and each operation is a pure function
from the store (plus its arguments) to the new store and the operation's result.

- `wrappers.dfy`: `Option` (Python's `None`/value) and `Result` (value or raised exception).
- `text.dfy`: `Lower` (`str.lower`) and `Contains` (a reference scan with the same answer as the `in` operator on strings), with
  `IsSubstring` as an independent reference definition.
- `seqs.dfy`: `Filter` (list comprehension with an `if`) and the subsequence relation.
- `notes.dfy`: the `Note` record, `MatchesKeyword` (`Note.matches_keyword`) and `HasTag`
  (the tag test of `list_notes`).
- `storage.dfy`: `Read`, `ListNotes`, `Search`, `AddNote`, `UpdateNote`, `Delete`.
- `storage_props.dfy`: properties relating several operations, including id uniqueness
  kept across any run of adds, updates and deletes.
- `scenario.dfy`: the walk-through of adding a shopping note and a work note, then searching.

The generated id (`uuid.uuid4()`) and timestamp (`datetime.utcnow()`) are parameters of
`AddNote`. The parsed file is an `Option<seq<Note>>`, where `None` is a JSON decode failure.

Behaviour of the code worth noting:
- `delete` removes every note with the id, not only one.
- `list_notes("")` lists everything, like no filter at all.
- Only a JSON decode failure reads as an empty store. A record lacking `id`, `title` or
  `body`, or carrying an extra key, makes `Note(**entry)` raise `TypeError`; a record
  lacking `tags` or `created_at` is read with that field's default instead.

## Model

| member | source | states |
|---|---|---|
| Text.ContainsIffSubstring | smartnotes/storage.py:32-34 | a reference scan that gives the same answer as `pattern in text` succeeds exactly when the pattern occurs at some position of the text |
| Text.LowerIdempotent | smartnotes/storage.py:30-34 | folding a folded string changes nothing, so the folded pattern and the raw one match alike |
| Text.MissingCharNotContained | smartnotes/storage.py:32-34 | a pattern holding a character the text lacks is not found in it |
| Seqs.Filter | smartnotes/storage.py:93 | a comprehension with a test keeps exactly the elements passing the test, each with its full multiplicity; it keeps everything exactly when everything passes |
| Seqs.FilterIsSubsequence | smartnotes/storage.py:62 | the comprehension's result is a subsequence of its input: original relative order, nothing invented |
| Seqs.FilterCongruent | smartnotes/storage.py:62 | two tests that agree on every element select the same sequence |
| Notes.MatchesKeywordIffSubstring | smartnotes/storage.py:29-35 | a keyword matches exactly when its folded form is a substring of the folded title, body or some folded tag |
| Notes.EmptyKeywordMatchesEveryNote | smartnotes/storage.py:29-35 | the empty keyword matches every note |
| Notes.MatchesKeywordIgnoresCase | smartnotes/storage.py:29-35 | keywords that fold alike match the same notes |
| Notes.HasTagIgnoresCase | smartnotes/storage.py:60-62 | a tag filter and its folded form select the same notes |
| Storage.ListNotes | smartnotes/storage.py:58-63 | no filter or the empty one lists the whole store in order; otherwise exactly the notes with a tag equal up to case, with multiplicities, as a subsequence of the store |
| Storage.Search | smartnotes/storage.py:88-89 | exactly the matching notes, with multiplicities, as a subsequence of the store; nothing outside the store |
| Storage.AddNote | smartnotes/storage.py:65-71 | the corrected add (see Findings): the new note carries the given id, time, title and body, absent tags become the empty list; it is appended after the unchanged old notes and returned; a fresh id keeps ids unique |
| Storage.AddNoteAsWritten | smartnotes/storage.py:65-71 | as written every call raises AttributeError on `note.__dict__` and the file keeps the old store (see Findings) |
| Storage.FirstIndexOf | smartnotes/storage.py:77-78 | the scan finds the first note carrying the id, or reports none exactly when no note carries it |
| Storage.UpdateNote | smartnotes/storage.py:73-86 | not found exactly when no note has the id, then the store is unchanged; otherwise only the first such note gets the new title, body and tags, the length and every id and timestamp are kept, and the returned note is the updated entry; ids stay unique |
| Storage.Delete | smartnotes/storage.py:91-97 | true exactly when some note has the id; false leaves the store unchanged; true drops every such note, keeps the rest in order with multiplicities, and shortens the store |
| StorageProperties.ReadFailureFindsNothing | smartnotes/storage.py:46-52 | after a failed parse, listing with any filter and searching any keyword return nothing |
| StorageProperties.ListNotesIgnoresCase | smartnotes/storage.py:60-62 | tag filters that fold alike list the same notes in the same order |
| StorageProperties.SearchIgnoresCase | smartnotes/storage.py:88-89 | keywords that fold alike return the same notes in the same order |
| StorageProperties.SearchEmptyKeywordIsWholeStore | smartnotes/storage.py:88-89 | searching the empty keyword returns the whole store in order |
| StorageProperties.DeleteTwiceReportsFalse | smartnotes/storage.py:91-97 | a second delete of the same id reports false and changes nothing |
| StorageProperties.DeleteTrueThenFalse | smartnotes/storage.py:91-97 | deleting a stored id reports true, then false |
| StorageProperties.DeleteKeepsUniqueIds | smartnotes/storage.py:91-97 | deleting keeps ids unique |
| StorageProperties.AddThenListHasExactlyOne | smartnotes/storage.py:65-71 | with the corrected add: after adding under a fresh id, the full listing holds exactly one note with that id, the returned one, at the end |
| StorageProperties.AddAsWrittenNeverAppends | smartnotes/storage.py:65-71 | as written, adding raises for every input and the store does not grow by the new note |
| StorageProperties.ApplyKeepsUniqueIds | smartnotes/storage.py:65-97 | with the corrected add: one add (with a fresh id), update or delete keeps ids unique |
| StorageProperties.RunKeepsUniqueIds | smartnotes/storage.py:65-97 | with the corrected add: any run of adds, updates and deletes whose generated ids are new keeps ids unique |
| Scenario.ShoppingAndWork | smartnotes/storage.py:65-89 | with the corrected add: after adding "Shopping"/"Buy milk" and "Work"/"Write report", searching "milk" or "MILK" returns only the shopping note and "bread" returns nothing |
| Scenario.TagFilterIgnoresCase | smartnotes/storage.py:58-63 | a note tagged "Work" is listed by the filter "work", and "WORK" lists the same notes as "work" |

## Left out

- File I/O, JSON encoding and decoding, and creating the data directory and the empty file
  (`DATA_DIR`, `__init__`, `_write`). Only the outcome of the parse is modelled, as an
  `Option<seq<Note>>`.
- `uuid.uuid4()` and `datetime.utcnow()`: foreign, nondeterministic calls. Their results
  are parameters, and freshness of the id is a hypothesis of the uniqueness lemmas.
- Text.LowerChar: folds ASCII `A`-`Z`, the Cyrillic capitals U+0400-U+042F and `Ґ` only.
  Python's full Unicode `str.lower` (other scripts, and characters whose lower case is
  longer than one character) is not modelled.
- Records lacking `id`, `title` or `body`, or carrying an extra key, for which
  `Note(**entry)` raises `TypeError`, and JSON that parses to something other than an
  array of records: the model's parsed store holds complete notes only.
- Records lacking `tags` or `created_at`: `Note(**entry)` fills in `[]` and the current
  time (a fresh timestamp on every read, since the default calls `datetime.utcnow()`);
  the model's notes always carry both fields.
- The truth test `if updated:` in `update_note`: a `Note` is always truthy, so it reduces to
  "a note was found".
- Concurrent writers: each call is a single read-modify-write with no locking.
- The command-line front end, the desktop front end, the Kanban chart script and the report
  converter: they only call the store and format its results.

## Findings

| source | as written | input that shows it | evidently intended | confidence | as-written member | corrected member |
|---|---|---|---|---|---|---|
| smartnotes/storage.py:69 | `add_note` appends `note.__dict__`, but `Note` is declared `@dataclass(slots=True)` (line 19), whose instances have no `__dict__` | any call, e.g. `add_note("Shopping", "Buy milk", ["errands"])` raises AttributeError before the file is written | append the note's fields as one record and return the note | not executed; high (a slots dataclass deriving from `object` has no instance dictionary) | Storage.AddNoteAsWritten, StorageProperties.AddAsWrittenNeverAppends | Storage.AddNote, StorageProperties.AddThenListHasExactlyOne |
