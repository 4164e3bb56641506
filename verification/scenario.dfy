/** The two-note walk-through of the store: add a shopping note and a work note, then search. */
module Scenario {
  import opened Wrappers
  import opened Text
  import opened Notes
  import opened Storage
  import opened StorageProperties

  /** The shopping note as `add_note("Shopping", "Buy milk", ["errands"])` creates it. */
  function Shopping(id: string, t: string): Note {
    Note(id, "Shopping", "Buy milk", ["errands"], t)
  }

  /** The work note as `add_note("Work", "Write report", ["office"])` creates it. */
  function Work(id: string, t: string): Note {
    Note(id, "Work", "Write report", ["office"], t)
  }

  /** "milk" is found in the folded body "buy milk". */
  lemma ShoppingMatchesMilk(id: string, t: string)
    ensures MatchesKeyword(Shopping(id, t), "milk")
  {
    assert Lower("Buy milk") == "buy milk";
    assert Lower("milk") == "milk";
    assert Contains("milk", "buy milk");
  }

  /** `keyword` is not found in `field` after folding both, because the folded keyword
      holds the letter `d`, which `field` lacks in either case. */
  lemma FoldedMiss(keyword: string, field: string, d: char, k: nat)
    requires 'a' <= d <= 'z' && k < |keyword| && LowerChar(keyword[k]) == d
    requires d !in field && (d as int - 32) as char !in field
    ensures !Contains(Lower(keyword), Lower(field))
  {
    assert Lower(keyword)[k] == d;
    LowerLacksLetter(field, d);
    MissingCharNotContained(Lower(keyword), Lower(field), d);
  }

  /** No field of the work note holds an `m`, `M`, `b` or `B`, so neither keyword matches. */
  lemma WorkMissesMilkAndBread(id: string, t: string)
    ensures !MatchesKeyword(Work(id, t), "milk")
    ensures !MatchesKeyword(Work(id, t), "bread")
  {
    FoldedMiss("milk", "Work", 'm', 0);
    FoldedMiss("milk", "Write report", 'm', 0);
    FoldedMiss("milk", "office", 'm', 0);
    FoldedMiss("bread", "Work", 'b', 0);
    FoldedMiss("bread", "Write report", 'b', 0);
    FoldedMiss("bread", "office", 'b', 0);
  }

  /** The shopping note's title and tag lack `b`, its body lacks `r`. */
  lemma ShoppingMissesBread(id: string, t: string)
    ensures !MatchesKeyword(Shopping(id, t), "bread")
  {
    FoldedMiss("bread", "Shopping", 'b', 0);
    FoldedMiss("bread", "Buy milk", 'r', 1);
    FoldedMiss("bread", "errands", 'b', 0);
  }

  /** Searching a two-note store tests each note in turn and keeps the order. */
  lemma SearchOfTwo(a: Note, b: Note, keyword: string)
    ensures Search([a, b], keyword) ==
      (if MatchesKeyword(a, keyword) then [a] else []) + (if MatchesKeyword(b, keyword) then [b] else [])
  {
    assert [a, b][..1] == [a];
    assert [a][..0] == [];
  }

  /** The two adds store the shopping note and then the work note. */
  lemma TwoAddsStoreBoth(id1: string, id2: string, t1: string, t2: string)
    ensures var s1 := AddNote([], id1, t1, "Shopping", "Buy milk", Some(["errands"])).0;
      AddNote(s1, id2, t2, "Work", "Write report", Some(["office"])).0 == [Shopping(id1, t1), Work(id2, t2)]
  {
  }

  /** Of the two notes only the shopping note matches "milk". */
  lemma SearchMilkFindsShopping(id1: string, id2: string, t1: string, t2: string)
    ensures Search([Shopping(id1, t1), Work(id2, t2)], "milk") == [Shopping(id1, t1)]
  {
    ShoppingMatchesMilk(id1, t1);
    WorkMissesMilkAndBread(id2, t2);
    SearchOfTwo(Shopping(id1, t1), Work(id2, t2), "milk");
  }

  /** Neither note matches "bread". */
  lemma SearchBreadFindsNothing(id1: string, id2: string, t1: string, t2: string)
    ensures Search([Shopping(id1, t1), Work(id2, t2)], "bread") == []
  {
    ShoppingMissesBread(id1, t1);
    WorkMissesMilkAndBread(id2, t2);
    SearchOfTwo(Shopping(id1, t1), Work(id2, t2), "bread");
  }

  /** "MILK" folds to "milk", so both searches agree on any store. */
  lemma UpperMilkIsMilk(s: Store)
    ensures Search(s, "MILK") == Search(s, "milk")
  {
    assert Lower("MILK") == Lower("milk");
    SearchIgnoresCase(s, "MILK", "milk");
  }

  /** Adding "Shopping"/"Buy milk" and then "Work"/"Write report", a search for "milk" (in
      any case) returns the shopping note alone, and a search for "bread" returns nothing. */
  lemma ShoppingAndWork(id1: string, id2: string, t1: string, t2: string)
    ensures var s1 := AddNote([], id1, t1, "Shopping", "Buy milk", Some(["errands"])).0;
      var s2 := AddNote(s1, id2, t2, "Work", "Write report", Some(["office"])).0;
      && Search(s2, "milk") == [Shopping(id1, t1)]
      && Search(s2, "MILK") == [Shopping(id1, t1)]
      && Search(s2, "bread") == []
  {
    TwoAddsStoreBoth(id1, id2, t1, t2);
    SearchMilkFindsShopping(id1, id2, t1, t2);
    SearchBreadFindsNothing(id1, id2, t1, t2);
    UpperMilkIsMilk([Shopping(id1, t1), Work(id2, t2)]);
  }

  /** A note tagged "Work" is listed by the filter "work", and the filter "WORK" lists the
      same notes as "work". */
  lemma TagFilterIgnoresCase(s: Store, n: Note)
    requires n in s && "Work" in n.tags
    ensures n in ListNotes(s, Some("work"))
    ensures ListNotes(s, Some("WORK")) == ListNotes(s, Some("work"))
  {
    assert Lower("Work") == Lower("work");
    assert HasTag(n, "work");
    assert Lower("WORK") == Lower("work");
    ListNotesIgnoresCase(s, "WORK", "work");
  }
}
