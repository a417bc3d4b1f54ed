/** lib/mock-data.ts: the in-memory note store. The source keeps one module-level array
    that every view mutates in place; here it is one `Store` object shared by the views. */
module NoteStore {
  import opened Wrappers
  import opened Text

  /** A note; `tags` may be absent, and instants are milliseconds since the epoch. */
  datatype Note = Note(
    id: string,
    title: string,
    content: string,
    tags: Option<seq<string>>,
    createdAt: int,
    updatedAt: int)

  /** What `addNote` is given: a note without id and timestamps. */
  datatype Draft = Draft(title: string, content: string, tags: Option<seq<string>>)

  /** `Partial<Note>`: each present field overwrites the stored one. */
  datatype Patch = Patch(
    id: Option<string>,
    title: Option<string>,
    content: Option<string>,
    tags: Option<seq<string>>,
    createdAt: Option<int>,
    updatedAt: Option<int>)

  /** `Date.now().toString()`: the id is the clock reading in decimal. */
  function IdFromClock(now: nat): string {
    DecimalString(now)
  }

  /** The record `addNote` builds from a draft and one clock reading. */
  function NewNote(draft: Draft, now: nat): Note {
    Note(IdFromClock(now), draft.title, draft.content, Some(draft.tags.GetOr([])), now, now)
  }

  /** `{ ...note, ...updates, updatedAt: new Date() }`: the spread is applied field by field,
      and the clock reading is written last. */
  function Merge(note: Note, updates: Patch, now: int): Note {
    Note(
      updates.id.GetOr(note.id),
      updates.title.GetOr(note.title),
      updates.content.GetOr(note.content),
      if updates.tags.Some? then updates.tags else note.tags,
      updates.createdAt.GetOr(note.createdAt),
      now)
  }

  /** `notes.findIndex(note => note.id === id)`, with `None` for -1: the first position
      holding the id, if any. */
  function FirstMatch(notes: seq<Note>, id: string): (r: Option<nat>)
    ensures r.Some? ==> r.value < |notes| && notes[r.value].id == id
    ensures r.Some? ==> forall k :: 0 <= k < r.value ==> notes[k].id != id
    ensures r.None? ==> forall k :: 0 <= k < |notes| ==> notes[k].id != id
  {
    if notes == [] then None
    else if notes[0].id == id then Some(0)
    else match FirstMatch(notes[1..], id)
      case None => None
      case Some(k) => Some(k + 1)
  }

  /** `notes.find(n => n.id === id)` */
  function Lookup(notes: seq<Note>, id: string): Option<Note> {
    match FirstMatch(notes, id)
    case None => None
    case Some(i) => Some(notes[i])
  }

  /** The array after `updateNote(id, updates)`. */
  function Updated(notes: seq<Note>, id: string, updates: Patch, now: int): seq<Note> {
    match FirstMatch(notes, id)
    case None => notes
    case Some(i) => notes[i := Merge(notes[i], updates, now)]
  }

  /** The array after `deleteNote(id)`. */
  function Deleted(notes: seq<Note>, id: string): seq<Note> {
    match FirstMatch(notes, id)
    case None => notes
    case Some(i) => notes[..i] + notes[i + 1..]
  }

  /** How many records carry the id. */
  function CountId(notes: seq<Note>, id: string): nat {
    if notes == [] then 0 else (if notes[0].id == id then 1 else 0) + CountId(notes[1..], id)
  }

  predicate DistinctIds(notes: seq<Note>) {
    forall i, j :: 0 <= i < j < |notes| ==> notes[i].id != notes[j].id
  }

  // ---------------------------------------------------------------- the store object

  class Store {
    var notes: seq<Note>

    /** `let mockNotes: Note[] = []` */
    constructor ()
      ensures notes == []
    {
      notes := [];
    }

    /** `mockNotes.findIndex(note => note.id === id)`: -1, or the first index holding the id. */
    method FindIndex(id: string) returns (index: int)
      ensures -1 <= index < |notes|
      ensures index == -1 <==> FirstMatch(notes, id).None?
      ensures index != -1 ==> FirstMatch(notes, id) == Some(index)
    {
      index := 0;
      while index < |notes|
        invariant 0 <= index <= |notes|
        invariant forall k :: 0 <= k < index ==> notes[k].id != id
      {
        if notes[index].id == id {
          return;
        }
        index := index + 1;
      }
      index := -1;
    }

    /** `mockNotes.find(n => n.id === id)` */
    method Find(id: string) returns (found: Option<Note>)
      ensures found.Some? ==> found.value in notes && found.value.id == id
      ensures found.None? <==> forall k :: 0 <= k < |notes| ==> notes[k].id != id
      ensures found == Lookup(notes, id)
    {
      var index := FindIndex(id);
      found := if index == -1 then None else Some(notes[index]);
    }

    /** `updateNote(id, updates)` with the clock reading `now`. */
    method Update(id: string, updates: Patch, now: int)
      modifies this
      ensures notes == Updated(old(notes), id, updates, now)
    {
      var index := FindIndex(id);
      if index != -1 {
        notes := notes[index := Merge(notes[index], updates, now)];
      }
    }

    /** `deleteNote(id)`: splices out the first record holding the id. */
    method Delete(id: string)
      modifies this
      ensures notes == Deleted(old(notes), id)
    {
      var index := FindIndex(id);
      if index != -1 {
        notes := notes[..index] + notes[index + 1..];
      }
    }

    /** `addNote(note)` with the clock reading `now`: unshifts the new record and returns it. */
    method Add(draft: Draft, now: nat) returns (newNote: Note)
      modifies this
      ensures newNote == NewNote(draft, now)
      ensures notes == [newNote] + old(notes)
      ensures |notes| == |old(notes)| + 1 && notes[0] == newNote
      ensures forall k :: 0 <= k < |old(notes)| ==> notes[k + 1] == old(notes)[k]
    {
      newNote := NewNote(draft, now);
      notes := [newNote] + notes;
    }
  }

  // ---------------------------------------------------------------- addNote

  /** The new record takes its id and both timestamps from the one clock reading, keeps the
      draft's fields, and has `[]` for absent tags. */
  lemma NewNoteFields(draft: Draft, now: nat)
    ensures NewNote(draft, now).id == IdFromClock(now)
    ensures NewNote(draft, now).createdAt == NewNote(draft, now).updatedAt == now
    ensures NewNote(draft, now).title == draft.title && NewNote(draft, now).content == draft.content
    ensures draft.tags.None? ==> NewNote(draft, now).tags == Some([])
    ensures draft.tags.Some? ==> NewNote(draft, now).tags == draft.tags
  {
  }

  /** Two records made from the same clock reading share their id; readings that differ give
      ids that differ. */
  lemma ClockDeterminesId(d1: Draft, d2: Draft, now1: nat, now2: nat)
    ensures NewNote(d1, now1).id == NewNote(d2, now2).id <==> now1 == now2
  {
    DecimalStringInjective(now1, now2);
  }

  /** The record just added is the one a lookup of its id finds, even when an older record
      carries the same id. */
  lemma AddedNoteIsFound(notes: seq<Note>, draft: Draft, now: nat)
    ensures Lookup([NewNote(draft, now)] + notes, IdFromClock(now)) == Some(NewNote(draft, now))
  {
  }

  /** Ids stay distinct across an add when the clock reading is not already an id. */
  lemma AddKeepsIdsDistinct(notes: seq<Note>, draft: Draft, now: nat)
    requires DistinctIds(notes)
    requires forall k :: 0 <= k < |notes| ==> notes[k].id != IdFromClock(now)
    ensures DistinctIds([NewNote(draft, now)] + notes)
  {
  }

  // ---------------------------------------------------------------- updateNote

  /** The merge overwrites with every field the patch supplies, keeps every field it omits,
      and always takes the clock reading as `updatedAt`, whatever the patch says. */
  lemma MergeFields(note: Note, updates: Patch, now: int)
    ensures Merge(note, updates, now).updatedAt == now
    ensures updates.title.Some? ==> Merge(note, updates, now).title == updates.title.value
    ensures updates.title.None? ==> Merge(note, updates, now).title == note.title
    ensures updates.content.Some? ==> Merge(note, updates, now).content == updates.content.value
    ensures updates.content.None? ==> Merge(note, updates, now).content == note.content
    ensures updates.tags.Some? ==> Merge(note, updates, now).tags == updates.tags
    ensures updates.tags.None? ==> Merge(note, updates, now).tags == note.tags
    ensures updates.id.Some? ==> Merge(note, updates, now).id == updates.id.value
    ensures updates.id.None? ==> Merge(note, updates, now).id == note.id
    ensures updates.createdAt.Some? ==> Merge(note, updates, now).createdAt == updates.createdAt.value
    ensures updates.createdAt.None? ==> Merge(note, updates, now).createdAt == note.createdAt
  {
  }

  /** An update touches only the first record holding the id, and is a no-op when no record
      holds it. */
  lemma UpdateChangesOnlyFirstMatch(notes: seq<Note>, id: string, updates: Patch, now: int)
    ensures |Updated(notes, id, updates, now)| == |notes|
    ensures FirstMatch(notes, id).None? ==> Updated(notes, id, updates, now) == notes
    ensures FirstMatch(notes, id).Some? ==>
      var i := FirstMatch(notes, id).value;
      && Updated(notes, id, updates, now)[i] == Merge(notes[i], updates, now)
      && forall k :: 0 <= k < |notes| && k != i ==> Updated(notes, id, updates, now)[k] == notes[k]
  {
  }

  // ---------------------------------------------------------------- deleteNote

  lemma {:induction false} CountIdConcat(a: seq<Note>, b: seq<Note>, id: string)
    ensures CountId(a + b, id) == CountId(a, id) + CountId(b, id)
  {
    if a == [] {
      assert a + b == b;
    } else {
      CountIdConcat(a[1..], b, id);
      assert (a + b)[1..] == a[1..] + b;
    }
  }

  lemma {:induction false} CountIdZeroIffAbsent(notes: seq<Note>, id: string)
    ensures CountId(notes, id) == 0 <==> FirstMatch(notes, id).None?
  {
    if notes != [] {
      CountIdZeroIffAbsent(notes[1..], id);
    }
  }

  lemma {:induction false} DistinctIdsCountAtMostOne(notes: seq<Note>, id: string)
    requires DistinctIds(notes)
    ensures CountId(notes, id) <= 1
  {
    if notes != [] {
      DistinctIdsCountAtMostOne(notes[1..], id);
      if notes[0].id == id {
        assert forall k :: 0 <= k < |notes[1..]| ==> notes[1..][k].id != id by {
          forall k | 0 <= k < |notes[1..]| ensures notes[1..][k].id != id {
            assert notes[1..][k] == notes[k + 1];
          }
        }
        CountIdZeroIffAbsent(notes[1..], id);
      }
    }
  }

  /** Splicing out one record with the id leaves one fewer record with it. */
  lemma SpliceCountsOneFewer(notes: seq<Note>, i: nat, id: string)
    requires i < |notes| && notes[i].id == id
    ensures CountId(notes[..i] + notes[i + 1..], id) == CountId(notes, id) - 1
  {
    var pre, post := notes[..i], notes[i + 1..];
    assert notes == (pre + [notes[i]]) + post;
    CountIdConcat(pre + [notes[i]], post, id);
    CountIdConcat(pre, [notes[i]], id);
    CountIdConcat(pre, post, id);
    assert CountId([notes[i]], id) == 1;
  }

  /** A delete removes exactly the first record holding the id: the others keep their order,
      later records with the same id survive, and a missing id leaves the array as it was. */
  lemma DeleteRemovesFirstMatch(notes: seq<Note>, id: string)
    ensures FirstMatch(notes, id).None? ==> Deleted(notes, id) == notes
    ensures FirstMatch(notes, id).Some? ==>
      var i := FirstMatch(notes, id).value;
      && |Deleted(notes, id)| == |notes| - 1
      && (forall k :: 0 <= k < i ==> Deleted(notes, id)[k] == notes[k])
      && (forall k :: i <= k < |notes| - 1 ==> Deleted(notes, id)[k] == notes[k + 1])
      && CountId(Deleted(notes, id), id) == CountId(notes, id) - 1
  {
    if FirstMatch(notes, id).Some? {
      SpliceCountsOneFewer(notes, FirstMatch(notes, id).value, id);
    }
  }

  /** With distinct ids, a deleted id is no longer found. */
  lemma DeleteWithDistinctIdsRemovesId(notes: seq<Note>, id: string)
    requires DistinctIds(notes)
    ensures Lookup(Deleted(notes, id), id).None?
  {
    DistinctIdsCountAtMostOne(notes, id);
    DeleteRemovesFirstMatch(notes, id);
    CountIdZeroIffAbsent(notes, id);
    CountIdZeroIffAbsent(Deleted(notes, id), id);
  }

  /** Without distinct ids a deleted id can still be found: two records made in the same
      millisecond share an id, and deleting it removes only the newer one. */
  lemma DuplicateIdSurvivesDelete(a: Draft, b: Draft, now: nat)
    ensures Lookup(Deleted([NewNote(a, now), NewNote(b, now)], IdFromClock(now)), IdFromClock(now))
            == Some(NewNote(b, now))
  {
    var notes := [NewNote(a, now), NewNote(b, now)];
    assert Deleted(notes, IdFromClock(now)) == [NewNote(b, now)];
  }
}
