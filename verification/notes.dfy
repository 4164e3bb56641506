/** The note record and the keyword and tag tests run against one note. */
module Notes {
  import opened Text

  /** One stored note. `createdAt` is the ISO-8601 text written once at creation. */
  datatype Note = Note(id: string, title: string, body: string, tags: seq<string>, createdAt: string)

  /** `note.matches_keyword(keyword)`: the folded keyword is found in the folded
      title, the folded body, or some folded tag. */
  predicate MatchesKeyword(n: Note, keyword: string) {
    var pattern := Lower(keyword);
    || Contains(pattern, Lower(n.title))
    || Contains(pattern, Lower(n.body))
    || exists t :: t in n.tags && Contains(pattern, Lower(t))
  }

  /** The tag test of `list_notes`: some tag of `n` folds to the same text as `tag`. */
  predicate HasTag(n: Note, tag: string) {
    exists t :: t in n.tags && Lower(t) == Lower(tag)
  }

  /** A keyword matches exactly when, after folding, it is a substring of the title,
      of the body, or of one of the tags. */
  lemma MatchesKeywordIffSubstring(n: Note, keyword: string)
    ensures MatchesKeyword(n, keyword) <==>
      || IsSubstring(Lower(keyword), Lower(n.title))
      || IsSubstring(Lower(keyword), Lower(n.body))
      || exists t :: t in n.tags && IsSubstring(Lower(keyword), Lower(t))
  {
    var pattern := Lower(keyword);
    ContainsIffSubstring(pattern, Lower(n.title));
    ContainsIffSubstring(pattern, Lower(n.body));
    forall t | t in n.tags
      ensures Contains(pattern, Lower(t)) <==> IsSubstring(pattern, Lower(t))
    {
      ContainsIffSubstring(pattern, Lower(t));
    }
  }

  /** The empty keyword matches every note, including one whose fields are all empty. */
  lemma EmptyKeywordMatchesEveryNote(n: Note)
    ensures MatchesKeyword(n, "")
  {
    EmptyContainedEverywhere(Lower(n.title));
  }

  /** Keyword matching ignores case: keywords that fold alike match the same notes. */
  lemma MatchesKeywordIgnoresCase(n: Note, k1: string, k2: string)
    requires Lower(k1) == Lower(k2)
    ensures MatchesKeyword(n, k1) == MatchesKeyword(n, k2)
  {
  }

  /** Tag matching ignores case on both sides: a folded filter selects what the raw one does. */
  lemma HasTagIgnoresCase(n: Note, tag: string)
    ensures HasTag(n, Lower(tag)) == HasTag(n, tag)
  {
    LowerIdempotent(tag);
  }
}
