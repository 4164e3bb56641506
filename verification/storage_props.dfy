/**
 Properties of the note store that relate several operations: case-insensitive matching,
 repeated deletes, a parse failure, and id uniqueness kept across any run of mutations.
 */
module StorageProperties {
  import opened Wrappers
  import opened Text
  import opened Seqs
  import opened Notes
  import opened Storage

  /** A parse failure reads as the empty store, on which listing and searching find nothing. */
  lemma ReadFailureFindsNothing(tag: Option<string>, keyword: string)
    ensures Read(None) == []
    ensures ListNotes(Read(None), tag) == []
    ensures Search(Read(None), keyword) == []
  {
  }

  /** Tag filters that fold alike list the same notes in the same order. */
  lemma ListNotesIgnoresCase(s: Store, a: string, b: string)
    requires Lower(a) == Lower(b)
    ensures ListNotes(s, Some(a)) == ListNotes(s, Some(b))
  {
    if a != "" {
      assert b != "";
      FilterCongruent(s, TagTest(a), TagTest(b));
    }
  }

  /** Keywords that fold alike find the same notes in the same order. */
  lemma SearchIgnoresCase(s: Store, a: string, b: string)
    requires Lower(a) == Lower(b)
    ensures Search(s, a) == Search(s, b)
  {
    forall n | n in s
      ensures KeywordTest(a)(n) == KeywordTest(b)(n)
    {
      MatchesKeywordIgnoresCase(n, a, b);
    }
    FilterCongruent(s, KeywordTest(a), KeywordTest(b));
  }

  /** Searching for the empty keyword returns the whole store in order. */
  lemma SearchEmptyKeywordIsWholeStore(s: Store)
    ensures Search(s, "") == s
  {
    forall n | n in s
      ensures KeywordTest("")(n)
    {
      EmptyKeywordMatchesEveryNote(n);
    }
  }

  /** Deleting an id twice: the second delete reports nothing removed and changes nothing. */
  lemma DeleteTwiceReportsFalse(s: Store, id: string)
    ensures Delete(Delete(s, id).0, id) == (Delete(s, id).0, false)
  {
  }

  /** Deleting an id that is present reports true, and then reports false. */
  lemma DeleteTrueThenFalse(s: Store, id: string)
    requires HasId(s, id)
    ensures Delete(s, id).1 && !Delete(Delete(s, id).0, id).1
  {
  }

  /** A subsequence of a store with unique ids has unique ids. */
  lemma SubsequenceKeepsUniqueIds(r: Store, s: Store)
    requires IsSubsequence(r, s)
    requires UniqueIds(s)
    ensures UniqueIds(r)
  {
    var idx :| Embeds(idx, r, s);
    forall i, j | 0 <= i < j < |r|
      ensures r[i].id != r[j].id
    {
      assert idx[i] < idx[j];
    }
  }

  /** Deleting keeps ids unique. */
  lemma DeleteKeepsUniqueIds(s: Store, id: string)
    requires UniqueIds(s)
    ensures UniqueIds(Delete(s, id).0)
  {
    SubsequenceKeepsUniqueIds(Delete(s, id).0, s);
  }

  /** After adding a note under an id not yet stored, the full listing holds exactly one
      note with that id: the one returned, at the end, with the given fields. */
  lemma AddThenListHasExactlyOne(s: Store, freshId: string, createdAt: string,
                                 title: string, body: string, tags: Option<seq<string>>)
    requires !HasId(s, freshId)
    ensures var (s', note) := AddNote(s, freshId, createdAt, title, body, tags);
      var listed := ListNotes(s', None);
      && |listed| == |s| + 1
      && listed[|s|] == note
      && note.title == title && note.body == body && note.id == freshId
      && forall i :: 0 <= i < |listed| && listed[i].id == freshId ==> i == |s|
  {
  }

  /** As written, `add_note` never stores anything: for every store and argument it raises,
      and the file keeps the old store instead of growing by the new note. */
  lemma AddAsWrittenNeverAppends(s: Store, freshId: string, createdAt: string,
                                 title: string, body: string, tags: Option<seq<string>>)
    ensures AddNoteAsWritten(s, freshId, createdAt, title, body, tags).1.Failure?
    ensures AddNoteAsWritten(s, freshId, createdAt, title, body, tags).0
      != AddNote(s, freshId, createdAt, title, body, tags).0
  {
  }

  /** One mutating call of the store, with the id and timestamp of an add supplied. */
  datatype Command =
    | AddCmd(freshId: string, createdAt: string, title: string, body: string, tags: Option<seq<string>>)
    | UpdateCmd(id: string, title: string, body: string, tags: Option<seq<string>>)
    | DeleteCmd(id: string)

  /** The store after one command. */
  function Apply(s: Store, c: Command): Store {
    match c
    case AddCmd(freshId, createdAt, title, body, tags) => AddNote(s, freshId, createdAt, title, body, tags).0
    case UpdateCmd(id, title, body, tags) => UpdateNote(s, id, title, body, tags).0
    case DeleteCmd(id) => Delete(s, id).0
  }

  /** The store after a run of commands, first to last. */
  function Run(s: Store, cs: seq<Command>): Store
    decreases |cs|
  {
    if cs == [] then s else Run(Apply(s, cs[0]), cs[1..])
  }

  /** A command stores no id other than the ones already stored and the one it adds. */
  lemma ApplyIntroducesOnlyAddedId(s: Store, c: Command, x: string)
    requires HasId(Apply(s, c), x)
    ensures HasId(s, x) || (c.AddCmd? && x == c.freshId)
  {
    var r := Apply(s, c);
    var i :| 0 <= i < |r| && r[i].id == x;
    match c
    case AddCmd(freshId, _, _, _, _) =>
      if i < |s| {
        assert r[i] == s[i];
      }
    case UpdateCmd(_, _, _, _) =>
      assert s[i].id == x;
    case DeleteCmd(id) =>
      assert r[i] in s;
      var j :| 0 <= j < |s| && s[j] == r[i];
      assert s[j].id == x;
  }

  /** One command keeps ids unique, provided an add brings an id not yet stored. */
  lemma ApplyKeepsUniqueIds(s: Store, c: Command)
    requires UniqueIds(s)
    requires c.AddCmd? ==> !HasId(s, c.freshId)
    ensures UniqueIds(Apply(s, c))
  {
    if c.DeleteCmd? {
      DeleteKeepsUniqueIds(s, c.id);
    }
  }

  /** Every add in `cs` brings an id that is neither stored in `s` nor brought by another add. */
  ghost predicate FreshAddIds(s: Store, cs: seq<Command>) {
    && (forall k :: 0 <= k < |cs| && cs[k].AddCmd? ==> !HasId(s, cs[k].freshId))
    && (forall k, l :: 0 <= k < l < |cs| && cs[k].AddCmd? && cs[l].AddCmd? ==>
          cs[k].freshId != cs[l].freshId)
  }

  /** Id uniqueness is an invariant of the store: any run of adds, updates and deletes keeps
      it, as long as each add's generated id is new. */
  lemma {:induction false} RunKeepsUniqueIds(s: Store, cs: seq<Command>)
    requires UniqueIds(s)
    requires FreshAddIds(s, cs)
    ensures UniqueIds(Run(s, cs))
    decreases |cs|
  {
    if cs != [] {
      var s1 := Apply(s, cs[0]);
      ApplyKeepsUniqueIds(s, cs[0]);
      var rest := cs[1..];
      forall k | 0 <= k < |rest| && rest[k].AddCmd?
        ensures !HasId(s1, rest[k].freshId)
      {
        assert rest[k] == cs[k + 1];
        if HasId(s1, rest[k].freshId) {
          ApplyIntroducesOnlyAddedId(s, cs[0], rest[k].freshId);
        }
      }
      forall k, l | 0 <= k < l < |rest| && rest[k].AddCmd? && rest[l].AddCmd?
        ensures rest[k].freshId != rest[l].freshId
      {
        assert rest[k] == cs[k + 1] && rest[l] == cs[l + 1];
      }
      RunKeepsUniqueIds(s1, rest);
    }
  }
}
