/** components/note-card.tsx: what a card in the list shows for one note. */
module NoteCard {
  import opened Wrappers
  import opened Formatting

  const PreviewLength: nat := 150
  const MaxShownTags: nat := 3
  const UntitledNote: string := "Untitled Note"

  /** The badge classes, used in turn. */
  const TagColours: seq<string> := [
    "bg-blue-100 text-blue-800 border-blue-200",
    "bg-pink-100 text-pink-800 border-pink-200",
    "bg-green-100 text-green-800 border-green-200",
    "bg-purple-100 text-purple-800 border-purple-200",
    "bg-yellow-100 text-yellow-800 border-yellow-200",
    "bg-indigo-100 text-indigo-800 border-indigo-200"
  ]

  /** `getPreviewText(content)`: the content without markup, cut to 150 characters plus "..."
      when it is longer. */
  function PreviewText(content: string): (r: string)
    ensures |r| <= PreviewLength + 3
    ensures |StripHtmlTags(content)| <= PreviewLength ==> r == StripHtmlTags(content)
    ensures |StripHtmlTags(content)| > PreviewLength ==>
      |r| == PreviewLength + 3 && r[..PreviewLength] == StripHtmlTags(content)[..PreviewLength] && r[PreviewLength..] == "..."
    ensures HasNoTag(r)
  {
    var plainText := StripHtmlTags(content);
    StripLeavesNoTag(content);
    if |plainText| > PreviewLength then plainText[..PreviewLength] + "..." else plainText
  }

  /** The card's preview is `truncateText` applied to `stripHtmlTags`, at the default length. */
  lemma PreviewIsTruncatedStrip(content: string)
    ensures PreviewText(content) == TruncateText(StripHtmlTags(content))
  {
  }

  datatype TagBadge = TagBadge(text: string, colour: string)

  /** The tag row: a badge for each shown tag, and the count on the "+k" badge if there is one. */
  datatype TagRow = TagRow(badges: seq<TagBadge>, overflow: Option<nat>)

  /** The tag block: absent for absent or empty tags; otherwise the first three tags, tag i
      coloured with class i mod 6, and a "+k" badge for the k tags not shown. */
  function TagDisplay(tags: Option<seq<string>>): (r: Option<TagRow>)
    ensures r.None? <==> tags.None? || tags.value == []
    ensures r.Some? ==> |r.value.badges| == if |tags.value| > MaxShownTags then MaxShownTags else |tags.value|
    ensures r.Some? ==> forall i :: 0 <= i < |r.value.badges| ==>
      r.value.badges[i].text == tags.value[i] && r.value.badges[i].colour == TagColours[i % |TagColours|]
    ensures r.Some? ==> (r.value.overflow.Some? <==> |tags.value| > MaxShownTags)
    ensures r.Some? && |tags.value| > MaxShownTags ==> r.value.overflow == Some(|tags.value| - MaxShownTags)
    ensures r.Some? ==> |r.value.badges| + r.value.overflow.GetOr(0) == |tags.value|
  {
    if tags.None? || tags.value == [] then None
    else
      var shown := if |tags.value| > MaxShownTags then tags.value[..MaxShownTags] else tags.value;
      var badges := seq(|shown|, i requires 0 <= i < |shown| => TagBadge(shown[i], TagColours[i % |TagColours|]));
      Some(TagRow(badges, if |tags.value| > MaxShownTags then Some(|tags.value| - MaxShownTags) else None))
  }

  /** `note.title || "Untitled Note"`: never empty, and the title itself whenever it is not. */
  function DisplayTitle(title: string): (r: string)
    ensures r != ""
    ensures title != "" ==> r == title
    ensures title == "" ==> r == UntitledNote
  {
    if title == "" then UntitledNote else title
  }
}
