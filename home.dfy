/** pages/home.tsx: the note list, its search filter and its delete confirmation. */
module Home {
  import opened Wrappers
  import opened Text
  import opened Collections
  import opened Formatting
  import opened NoteStore

  /** `externalSearchQuery || localSearchQuery`: a non-empty query from the top navigation
      wins; an absent or empty one falls back to the page's own query. */
  function SearchQuery(external: Option<string>, local: string): (q: string)
    ensures external.Some? && external.value != "" ==> q == external.value
    ensures external.None? || external.value == "" ==> q == local
    ensures q == local || (external.Some? && q == external.value)
  {
    if external.Some? && external.value != "" then external.value else local
  }

  /** The lower-cased query occurs in the lower-cased title. */
  predicate TitleMatches(note: Note, query: string) {
    Contains(Lower(note.title), Lower(query))
  }

  /** The lower-cased query occurs in the content with its markup stripped, lower-cased. */
  predicate ContentMatches(note: Note, query: string) {
    Contains(Lower(StripHtmlTags(note.content)), Lower(query))
  }

  /** `note.tags?.some(tag => tag.toLowerCase().includes(query)) || false` */
  predicate TagMatches(note: Note, query: string) {
    note.tags.Some? && exists i :: 0 <= i < |note.tags.value| && Contains(Lower(note.tags.value[i]), Lower(query))
  }

  /** The filter callback: a query that trims to empty lets every note through; otherwise the
      query, lower-cased but NOT trimmed, must occur in the title, the stripped content or a tag.
      In particular a query that starts the lower-cased title, and one that is a whole tag, pass. */
  predicate Passes(note: Note, query: string)
    ensures query == "" ==> Passes(note, query)
    ensures Lower(query) <= Lower(note.title) ==> Passes(note, query)
    ensures note.tags.Some? && query in note.tags.value ==> Passes(note, query)
    ensures Trim(query) != "" ==>
      (Passes(note, query) <==> TitleMatches(note, query) || ContentMatches(note, query) || TagMatches(note, query))
  {
    assert Lower(note.title)[0..] == Lower(note.title);
    assert note.tags.Some? ==> forall i :: 0 <= i < |note.tags.value| ==>
      Lower(note.tags.value[i])[0..] == Lower(note.tags.value[i]);
    Trim(query) == "" || TitleMatches(note, query) || ContentMatches(note, query) || TagMatches(note, query)
  }

  /** `notes.filter(...)`: the notes that pass, in their original order, each as often as
      it occurs in the list. */
  function FilteredNotes(notes: seq<Note>, query: string): (r: seq<Note>)
    ensures forall i :: 0 <= i < |r| ==> r[i] in notes && Passes(r[i], query)
    ensures forall i :: 0 <= i < |notes| && Passes(notes[i], query) ==> notes[i] in r
    ensures forall n :: multiset(r)[n] == if Passes(n, query) then multiset(notes)[n] else 0
    ensures IsSubsequence(r, notes)
  {
    FilterIsSubsequence(notes, n => Passes(n, query));
    Filter(notes, n => Passes(n, query))
  }

  /** A query that trims to empty shows the whole list. */
  lemma BlankQueryKeepsAll(notes: seq<Note>, query: string)
    requires Trim(query) == ""
    ensures FilteredNotes(notes, query) == notes
  {
    FilterKeepsAll(notes, n => Passes(n, query));
  }

  /** For a non-blank query a note is listed exactly when the query matches its title, its
      stripped content or one of its tags. */
  lemma NonBlankQueryMatchesFields(notes: seq<Note>, query: string, note: Note)
    requires Trim(query) != "" && note in notes
    ensures note in FilteredNotes(notes, query) <==>
      TitleMatches(note, query) || ContentMatches(note, query) || TagMatches(note, query)
  {
    var r := FilteredNotes(notes, query);
    if note in r {
      var i :| 0 <= i < |r| && r[i] == note;
    } else {
      var i :| 0 <= i < |notes| && notes[i] == note;
    }
  }

  /** A note without tags can only be found through its title or its content. */
  lemma AbsentTagsMatchOnlyTitleOrContent(note: Note, query: string)
    requires note.tags.None? && Trim(query) != ""
    ensures Passes(note, query) <==> TitleMatches(note, query) || ContentMatches(note, query)
  {
  }

  /** The query is matched untrimmed: blankness is judged on the trimmed query, but its
      surrounding spaces take part in the match, so " work" misses a note titled "work"... */
  lemma PaddedQueryMisses()
    ensures var note := Note("1", "work", "", None, 0, 0);
      Trim(" work") != "" && !Passes(note, " work")
  {
    var note := Note("1", "work", "", None, 0, 0);
    TrimOfWork();
    assert |Lower(" work")| > |Lower(note.title)|;
    assert |Lower(StripHtmlTags(note.content))| == 0;
  }

  /** ... that "work" finds. */
  lemma UnpaddedQueryFinds()
    ensures var note := Note("1", "work", "", None, 0, 0);
      Passes(note, "work")
  {
    var note := Note("1", "work", "", None, 0, 0);
    assert Lower("work") <= Lower(note.title);
  }

  lemma TrimOfWork()
    ensures Trim(" work") == "work"
  {
    assert !IsWhitespace('w') && !IsWhitespace('k');
    assert TrimStart("work") == "work";
    assert " work"[1..] == "work";
    assert TrimStart(" work") == "work";
    assert TrimEnd("work") == "work";
  }

  /** The home page's state: the list it shows, the page's own query and the note waiting
      for delete confirmation; the query from the top navigation is a property. */
  class HomePage {
    const store: Store
    const externalSearchQuery: Option<string>
    var localSearchQuery: string
    var notes: seq<Note>
    var deleteModalNote: Option<Note>

    /** `useState("")`, `useState(mockNotes)`, `useState(null)` */
    constructor (store: Store, externalSearchQuery: Option<string>)
      ensures this.store == store && this.externalSearchQuery == externalSearchQuery
      ensures localSearchQuery == "" && notes == store.notes && deleteModalNote == None
    {
      this.store := store;
      this.externalSearchQuery := externalSearchQuery;
      localSearchQuery := "";
      notes := store.notes;
      deleteModalNote := None;
    }

    /** The cards on screen. */
    function Shown(): (r: seq<Note>)
      reads this
      ensures IsSubsequence(r, notes)
      ensures Trim(SearchQuery(externalSearchQuery, localSearchQuery)) == "" ==> r == notes
      ensures forall i :: 0 <= i < |r| ==> Passes(r[i], SearchQuery(externalSearchQuery, localSearchQuery))
      ensures forall n :: multiset(r)[n] == (if Passes(n, SearchQuery(externalSearchQuery, localSearchQuery))
                                               then multiset(notes)[n] else 0)
    {
      var query := SearchQuery(externalSearchQuery, localSearchQuery);
      if Trim(query) == "" then BlankQueryKeepsAll(notes, query); FilteredNotes(notes, query)
      else FilteredNotes(notes, query)
    }

    /** The mobile search box's `onChange`. */
    method SetLocalSearchQuery(query: string)
      modifies this`localSearchQuery
      ensures localSearchQuery == query
    {
      localSearchQuery := query;
    }

    /** `handleDeleteNote`: asks for confirmation before deleting `note`. */
    method HandleDeleteNote(note: Note)
      modifies this`deleteModalNote
      ensures deleteModalNote == Some(note)
    {
      deleteModalNote := Some(note);
    }

    /** `cancelDelete` */
    method CancelDelete()
      modifies this`deleteModalNote
      ensures deleteModalNote == None
    {
      deleteModalNote := None;
    }

    /** `confirmDelete`: with a note pending, deletes its id from the store, shows a copy of
      the store and closes the dialog; with none pending, does nothing. */
    method ConfirmDelete()
      modifies this, store
      ensures old(deleteModalNote).None? ==>
        store.notes == old(store.notes) && notes == old(notes) && deleteModalNote == None
      ensures old(deleteModalNote).Some? ==>
        && store.notes == Deleted(old(store.notes), old(deleteModalNote).value.id)
        && notes == store.notes
        && deleteModalNote == None
      ensures localSearchQuery == old(localSearchQuery)
    {
      if deleteModalNote.Some? {
        store.Delete(deleteModalNote.value.id);
        notes := store.notes;
        deleteModalNote := None;
      }
    }
  }
}
