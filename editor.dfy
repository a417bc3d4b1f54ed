/** pages/editor.tsx: the draft a single note is edited in, and how it is loaded from,
    saved to and deleted from the store. */
module Editor {
  import opened Wrappers
  import opened Text
  import opened Collections
  import opened Formatting
  import opened NoteStore

  // ---------------------------------------------------------------- tags

  /** `newTag.trim() && !tags.includes(newTag.trim())`: the trimmed input is non-empty and
      not already a tag (exact, case-sensitive comparison). */
  predicate TagAccepted(tags: seq<string>, input: string) {
    Trim(input) != "" && Trim(input) !in tags
  }

  /** The tag list after `handleAddTag` with `input` in the tag box. */
  function TagsAfterAdd(tags: seq<string>, input: string): (r: seq<string>)
    ensures |r| <= |tags| + 1 && tags <= r
    ensures NoDuplicates(tags) ==> NoDuplicates(r)
    ensures |r| == |tags| + 1 ==> Trim(input) != "" && r[|tags|] == Trim(input) && Trim(input) !in tags
  {
    if TagAccepted(tags, input) then tags + [Trim(input)] else tags
  }

  /** An accepted tag is appended trimmed at the end; a blank or present one changes nothing. */
  lemma AddTagAppendsTrimmed(tags: seq<string>, input: string)
    ensures TagAccepted(tags, input) ==>
      && TagsAfterAdd(tags, input) == tags + [Trim(input)]
      && Trim(input) != ""
      && Trim(TagsAfterAdd(tags, input)[|tags|]) == TagsAfterAdd(tags, input)[|tags|]
    ensures !TagAccepted(tags, input) ==> TagsAfterAdd(tags, input) == tags
    ensures (forall i :: 0 <= i < |input| ==> IsWhitespace(input[i])) ==> TagsAfterAdd(tags, input) == tags
  {
    TrimIdempotent(input);
    TrimEmptyIffBlank(input);
  }

  /** Adding a tag never introduces a duplicate. */
  lemma AddTagKeepsNoDuplicates(tags: seq<string>, input: string)
    requires NoDuplicates(tags)
    ensures NoDuplicates(TagsAfterAdd(tags, input))
  {
  }

  /** Adding the same input twice has the effect of adding it once. */
  lemma AddTagTwiceIsOnce(tags: seq<string>, input: string)
    ensures TagsAfterAdd(TagsAfterAdd(tags, input), input) == TagsAfterAdd(tags, input)
  {
    if TagAccepted(tags, input) {
      assert Trim(input) in tags + [Trim(input)];
    }
  }

  /** The tag list after `handleRemoveTag(tag)`: `tags.filter(t => t !== tag)`. */
  function TagsAfterRemove(tags: seq<string>, tag: string): (r: seq<string>)
    ensures tag !in r
    ensures forall t :: t != tag ==> multiset(r)[t] == multiset(tags)[t]
  {
    Filter(tags, t => t != tag)
  }

  /** Removing deletes every copy of the tag and keeps the other tags in order; removing a
      tag that is not there changes nothing. */
  lemma RemoveTagDeletesEveryCopy(tags: seq<string>, tag: string)
    ensures tag !in TagsAfterRemove(tags, tag)
    ensures forall i :: 0 <= i < |tags| && tags[i] != tag ==> tags[i] in TagsAfterRemove(tags, tag)
    ensures forall t :: multiset(TagsAfterRemove(tags, tag))[t] == if t == tag then 0 else multiset(tags)[t]
    ensures IsSubsequence(TagsAfterRemove(tags, tag), tags)
    ensures tag !in tags ==> TagsAfterRemove(tags, tag) == tags
    ensures NoDuplicates(tags) ==> NoDuplicates(TagsAfterRemove(tags, tag))
  {
    FilterIsSubsequence(tags, t => t != tag);
    if tag !in tags {
      FilterKeepsAll(tags, t => t != tag);
    }
    if NoDuplicates(tags) {
      FilterKeepsNoDuplicates(tags, t => t != tag);
    }
  }

  // ---------------------------------------------------------------- formatLastSaved

  /** `formatLastSaved(date)` with the clock reading `nowMs` passed in: minutes below an hour,
      then whole hours below a day, then the locale date. */
  function FormatLastSaved(nowMs: int, dateMs: int): (r: Relative)
    ensures r.JustNow? <==> nowMs - dateMs < MsPerMinute
    ensures r.Ago? ==> r.unit == Minute || r.unit == Hour
    ensures r.Ago? && r.unit == Minute ==> 1 <= r.count < 60 && r.count == (nowMs - dateMs) / MsPerMinute
    ensures r.Ago? && r.unit == Hour ==> 1 <= r.count < 24 && r.count == (nowMs - dateMs) / MsPerHour
    ensures r.LocaleDate? <==> nowMs - dateMs >= MsPerDay
    ensures r.LocaleDate? ==> r.dateMs == dateMs
  {
    MinutesToHours(nowMs - dateMs);
    var diffInMinutes := (nowMs - dateMs) / MsPerMinute;
    if diffInMinutes < 1 then JustNow
    else if diffInMinutes < 60 then Ago(diffInMinutes, Minute)
    else
      var diffInHours := diffInMinutes / 60;
      if diffInHours < 24 then Ago(diffInHours, Hour) else LocaleDate(dateMs)
  }

  /** Whole hours counted from whole minutes are the whole hours of the elapsed time. */
  lemma MinutesToHours(ms: int)
    ensures ms / MsPerMinute / 60 == ms / MsPerHour
  {
    var m := ms / MsPerMinute;
    assert ms == MsPerMinute * m + ms % MsPerMinute;
    assert m == 60 * (m / 60) + m % 60;
    assert ms == MsPerHour * (m / 60) + (MsPerMinute * (m % 60) + ms % MsPerMinute);
  }

  /** The editor's footer and the list's relative time agree for anything under a day; from
      a day on, the footer shows the locale date where the other still counts days and weeks. */
  lemma LastSavedAgreesWithDistance(nowMs: int, dateMs: int)
    ensures nowMs - dateMs < MsPerDay ==> FormatLastSaved(nowMs, dateMs) == FormatDistanceToNow(nowMs, dateMs)
    ensures nowMs - dateMs >= MsPerDay ==> FormatLastSaved(nowMs, dateMs) == LocaleDate(dateMs)
  {
  }

  /** The footer's phrase: unlike `formatDistanceToNow`, the unit is always plural. */
  function RenderLastSaved(r: Relative, toLocaleDateString: int -> string): (s: string)
    ensures r.JustNow? ==> s == "just now"
    ensures r.Ago? ==> EndsWith(s, "s ago") && DecimalString(r.count) <= s
    ensures r.Ago? ==> DecimalString(r.count) + " " + UnitWord(r.unit) <= s
    ensures r.LocaleDate? ==> s == toLocaleDateString(r.dateMs)
  {
    match r
    case JustNow => "just now"
    case Ago(n, u) => DecimalString(n) + " " + UnitWord(u) + "s ago"
    case LocaleDate(ms) => toLocaleDateString(ms)
  }

  /** One minute after a save the footer reads "1 minutes ago", where the list's wording
      would read "1 minute ago". */
  lemma LastSavedPluralAfterOneMinute(savedMs: int, toLocaleDateString: int -> string)
    ensures FormatLastSaved(savedMs + MsPerMinute, savedMs) == Ago(1, Minute)
    ensures RenderLastSaved(Ago(1, Minute), toLocaleDateString) == "1 minutes ago"
    ensures RenderDistance(Ago(1, Minute), toLocaleDateString) == "1 minute ago"
  {
  }

  // ---------------------------------------------------------------- the editor page

  /** The editor page's state. `id` is the route parameter (absent on the new-note route),
      `note` the record the draft is bound to, and `title`, `content` and `tags` the draft. */
  class EditorPage {
    const store: Store
    var id: Option<string>
    var note: Option<Note>
    var title: string
    var content: string
    var tags: seq<string>
    var newTag: string
    var showTagInput: bool
    var hasUnsavedChanges: bool
    var lastSaved: int
    var deleteModalNote: Option<Note>

    /** `if (id)`: a route parameter that is present and non-empty. */
    predicate HasId()
      reads this
    {
      id.Some? && id.value != ""
    }

    /** The initial `useState` values, `new Date()` being the clock reading `now`. */
    constructor (store: Store, id: Option<string>, now: int)
      ensures this.store == store && this.id == id
      ensures note == None && title == "" && content == "" && tags == []
      ensures newTag == "" && !showTagInput && !hasUnsavedChanges && lastSaved == now
      ensures deleteModalNote == None
    {
      this.store := store;
      this.id := id;
      note := None;
      title, content, tags := "", "", [];
      newTag, showTagInput := "", false;
      hasUnsavedChanges, lastSaved := false, now;
      deleteModalNote := None;
    }

    /** The effect that runs whenever `id` changes. With an id that the store holds, the
        draft is hydrated from that record (absent tags as `[]`) and `lastSaved` is its
        `updatedAt`; with an id the store does not hold, the draft is left as it was; with no
        id, the draft is blank. Every run clears the unsaved flag. */
    method Load(now: int)
      modifies this
      ensures HasId() && Lookup(store.notes, id.value).Some? ==>
        var n := Lookup(store.notes, id.value).value;
        && note == Some(n) && title == n.title && content == n.content
        && tags == n.tags.GetOr([]) && lastSaved == n.updatedAt
      ensures HasId() && Lookup(store.notes, id.value).None? ==>
        && note == old(note) && title == old(title) && content == old(content)
        && tags == old(tags) && lastSaved == old(lastSaved)
      ensures !HasId() ==>
        note == None && title == "" && content == "" && tags == [] && lastSaved == now
      ensures !hasUnsavedChanges
      ensures id == old(id) && newTag == old(newTag) && showTagInput == old(showTagInput)
      ensures deleteModalNote == old(deleteModalNote)
    {
      if HasId() {
        var foundNote := store.Find(id.value);
        if foundNote.Some? {
          note := foundNote;
          title := foundNote.value.title;
          content := foundNote.value.content;
          tags := foundNote.value.tags.GetOr([]);
          lastSaved := foundNote.value.updatedAt;
        }
      } else {
        note := None;
        title := "";
        content := "";
        tags := [];
        lastSaved := now;
      }
      hasUnsavedChanges := false;
    }

    /** `handleTitleChange` */
    method HandleTitleChange(newTitle: string)
      modifies this`title, this`hasUnsavedChanges
      ensures title == newTitle && hasUnsavedChanges
    {
      title := newTitle;
      hasUnsavedChanges := true;
    }

    /** `handleContentChange` */
    method HandleContentChange(newContent: string)
      modifies this`content, this`hasUnsavedChanges
      ensures content == newContent && hasUnsavedChanges
    {
      content := newContent;
      hasUnsavedChanges := true;
    }

    /** The "Add tag" button: opens the tag box. */
    method OpenTagInput()
      modifies this`showTagInput
      ensures showTagInput
    {
      showTagInput := true;
    }

    /** The tag box's `onChange`. */
    method SetNewTag(input: string)
      modifies this`newTag
      ensures newTag == input
    {
      newTag := input;
    }

    /** `handleAddTag`: an accepted tag is appended and the box is cleared and closed, marking
        the draft unsaved; otherwise nothing at all changes. */
    method HandleAddTag()
      modifies this`tags, this`newTag, this`showTagInput, this`hasUnsavedChanges
      ensures tags == TagsAfterAdd(old(tags), old(newTag))
      ensures TagAccepted(old(tags), old(newTag)) ==> newTag == "" && !showTagInput && hasUnsavedChanges
      ensures !TagAccepted(old(tags), old(newTag)) ==>
        newTag == old(newTag) && showTagInput == old(showTagInput) && hasUnsavedChanges == old(hasUnsavedChanges)
      ensures NoDuplicates(old(tags)) ==> NoDuplicates(tags)
    {
      var trimmed := Trim(newTag);
      if trimmed != "" && trimmed !in tags {
        tags := tags + [trimmed];
        newTag := "";
        showTagInput := false;
        hasUnsavedChanges := true;
      }
    }

    /** The tag box's `onBlur`: adds a non-blank input, closes the box on a blank one. */
    method HandleTagInputBlur()
      modifies this`tags, this`newTag, this`showTagInput, this`hasUnsavedChanges
      ensures Trim(old(newTag)) == "" ==>
        tags == old(tags) && newTag == old(newTag) && !showTagInput && hasUnsavedChanges == old(hasUnsavedChanges)
      ensures Trim(old(newTag)) != "" ==> tags == TagsAfterAdd(old(tags), old(newTag))
      ensures Trim(old(newTag)) != "" && TagAccepted(old(tags), old(newTag)) ==>
        newTag == "" && !showTagInput && hasUnsavedChanges
      ensures Trim(old(newTag)) != "" && !TagAccepted(old(tags), old(newTag)) ==>
        newTag == old(newTag) && showTagInput == old(showTagInput) && hasUnsavedChanges == old(hasUnsavedChanges)
    {
      if Trim(newTag) != "" {
        HandleAddTag();
      } else {
        showTagInput := false;
      }
    }

    /** `handleRemoveTag(tag)`: marks the draft unsaved even when the tag was not there. */
    method HandleRemoveTag(tagToRemove: string)
      modifies this`tags, this`hasUnsavedChanges
      ensures tags == TagsAfterRemove(old(tags), tagToRemove)
      ensures hasUnsavedChanges
    {
      tags := TagsAfterRemove(tags, tagToRemove);
      hasUnsavedChanges := true;
    }

    /** `handleSave` with the clock reading `now`. With an id and a bound note, the store's
        record for the id is updated with the draft and the store keeps its length; otherwise
        the draft is added as a new record at the head of the store and the route is rebound
        to its id. Either way the draft counts as saved at `now`. */
    method HandleSave(now: nat)
      modifies this, store
      ensures old(HasId() && note.Some?) ==>
        && store.notes == Updated(old(store.notes), old(id.value),
                                  Patch(None, Some(title), Some(content), Some(tags), None, None), now)
        && note == Some(old(note.value).(title := title, content := content, tags := Some(tags), updatedAt := now))
        && id == old(id)
      ensures !old(HasId() && note.Some?) ==>
        && store.notes == [NewNote(Draft(title, content, Some(tags)), now)] + old(store.notes)
        && note == Some(store.notes[0])
        && id == Some(store.notes[0].id)
      ensures |store.notes| == |old(store.notes)| + (if old(HasId() && note.Some?) then 0 else 1)
      ensures title == old(title) && content == old(content) && tags == old(tags)
      ensures newTag == old(newTag) && showTagInput == old(showTagInput) && deleteModalNote == old(deleteModalNote)
      ensures lastSaved == now && !hasUnsavedChanges
    {
      if HasId() && note.Some? {
        store.Update(id.value, Patch(None, Some(title), Some(content), Some(tags), None, None), now);
        UpdateChangesOnlyFirstMatch(old(store.notes), id.value,
                                    Patch(None, Some(title), Some(content), Some(tags), None, None), now);
        note := Some(note.value.(title := title, content := content, tags := Some(tags), updatedAt := now));
      } else {
        var newNote := store.Add(Draft(title, content, Some(tags)), now);
        note := Some(newNote);
        id := Some(newNote.id);
      }
      lastSaved := now;
      hasUnsavedChanges := false;
    }

    /** `handleDelete`: asks for confirmation when a note is bound. */
    method HandleDelete()
      modifies this`deleteModalNote
      ensures deleteModalNote == (if note.Some? then note else old(deleteModalNote))
    {
      if note.Some? {
        deleteModalNote := note;
      }
    }

    /** `cancelDelete` */
    method CancelDelete()
      modifies this`deleteModalNote
      ensures deleteModalNote == None
    {
      deleteModalNote := None;
    }

    /** `confirmDelete`: deletes the route's id from the store and leaves the page only when
        a deletion is pending and there is an id; always closes the dialog. */
    method ConfirmDelete() returns (leave: bool)
      modifies this`deleteModalNote, store
      ensures leave <==> old(deleteModalNote).Some? && HasId()
      ensures leave ==> store.notes == Deleted(old(store.notes), id.value)
      ensures !leave ==> store.notes == old(store.notes)
      ensures deleteModalNote == None
    {
      leave := deleteModalNote.Some? && HasId();
      if leave {
        store.Delete(id.value);
      }
      deleteModalNote := None;
    }

    /** `handleClose`: `userConfirms` is the answer `window.confirm` would give, asked only
        when there are unsaved changes; the page is left unless that answer is no. */
    method HandleClose(userConfirms: bool) returns (leave: bool)
      ensures leave <==> !hasUnsavedChanges || userConfirms
    {
      if hasUnsavedChanges && !userConfirms {
        return false;
      }
      leave := true;
    }
  }

  /** A new note's session: the first save adds a record and rebinds the route to its id, the
      route change reloads the draft from that record, and the second save updates the same
      record instead of adding another. */
  method NewNoteSavedTwice(store: Store, draftTitle: string, now1: nat, now2: nat) returns (editor: EditorPage)
    modifies store
    ensures |store.notes| == |old(store.notes)| + 1
    ensures store.notes[0].id == IdFromClock(now1) && store.notes[0].title == draftTitle
    ensures store.notes[0].createdAt == now1 && store.notes[0].updatedAt == now2
    ensures store.notes[1..] == old(store.notes)
    ensures editor.id == Some(IdFromClock(now1)) && !editor.hasUnsavedChanges
  {
    editor := new EditorPage(store, None, now1);
    editor.Load(now1);
    editor.HandleTitleChange(draftTitle);
    editor.HandleSave(now1);
    ghost var afterAdd := store.notes;
    editor.Load(now1);
    editor.HandleSave(now2);
    assert FirstMatch(afterAdd, IdFromClock(now1)) == Some(0);
  }
}
