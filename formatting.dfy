/** lib/formatting.ts: relative-time phrases, truncation and markup stripping. */
module Formatting {
  import opened Wrappers
  import opened Text
  import opened Collections

  // ---------------------------------------------------------------- stripHtmlTags

  /** `html.replace(/<[^>]*>/g, '')`, as the left-to-right scan the regular expression
      performs: a '<' that has a '>' somewhere after it starts a match running to the
      first such '>', and the whole match is removed; a '<' with no '>' after it cannot
      start a match, and then nothing after it can either, so the rest is kept as is. */
  function StripHtmlTags(html: string): (r: string)
    ensures |r| <= |html|
    decreases |html|
  {
    if html == [] then []
    else if html[0] != '<' then [html[0]] + StripHtmlTags(html[1..])
    else match IndexOf(html[1..], '>')
      case Some(k) => StripHtmlTags(html[k + 2..])
      case None => html
  }

  /** No '<' is followed, anywhere later, by a '>': the regular expression finds no match. */
  predicate HasNoTag(s: string) {
    forall i, j :: 0 <= i < j < |s| && s[i] == '<' ==> s[j] != '>'
  }

  /** What is left after stripping contains no further tag. */
  lemma {:induction false} StripLeavesNoTag(html: string)
    ensures HasNoTag(StripHtmlTags(html))
    decreases |html|
  {
    if html != [] {
      if html[0] != '<' {
        StripLeavesNoTag(html[1..]);
        var r := StripHtmlTags(html);
        assert r == [html[0]] + StripHtmlTags(html[1..]);
        forall i, j | 0 <= i < j < |r| && r[i] == '<' ensures r[j] != '>' {
          assert i > 0;
          assert r[i] == StripHtmlTags(html[1..])[i - 1];
          assert r[j] == StripHtmlTags(html[1..])[j - 1];
        }
      } else {
        match IndexOf(html[1..], '>')
        case Some(k) =>
          StripLeavesNoTag(html[k + 2..]);
        case None =>
          forall i, j | 0 <= i < j < |html| && html[i] == '<' ensures html[j] != '>' {
            assert html[j] == html[1..][j - 1];
          }
      }
    }
  }

  /** A string with no tag in it is returned unchanged. */
  lemma {:induction false} StripKeepsTagless(s: string)
    requires HasNoTag(s)
    ensures StripHtmlTags(s) == s
    decreases |s|
  {
    if s != [] {
      if s[0] != '<' {
        assert HasNoTag(s[1..]) by {
          forall i, j | 0 <= i < j < |s[1..]| && s[1..][i] == '<' ensures s[1..][j] != '>' {
            assert s[1..][i] == s[i + 1] && s[1..][j] == s[j + 1];
          }
        }
        StripKeepsTagless(s[1..]);
        assert s == [s[0]] + s[1..];
      } else {
        assert '>' !in s[1..] by {
          forall j | 0 <= j < |s[1..]| ensures s[1..][j] != '>' {
            assert s[1..][j] == s[j + 1];
          }
        }
      }
    }
  }

  /** Stripping only deletes characters: the result is a subsequence of the input, in order. */
  lemma {:induction false} StripIsSubsequence(html: string)
    ensures IsSubsequence(StripHtmlTags(html), html)
    decreases |html|
  {
    if html != [] {
      if html[0] != '<' {
        StripIsSubsequence(html[1..]);
        assert StripHtmlTags(html)[1..] == StripHtmlTags(html[1..]);
      } else {
        match IndexOf(html[1..], '>')
        case Some(k) =>
          StripIsSubsequence(html[k + 2..]);
          SubsequenceOfSuffix(StripHtmlTags(html[k + 2..]), html, k + 2);
        case None =>
          SubsequenceReflexive(html);
      }
    }
  }

  /** Text outside tags survives: text free of '<' before a tag is kept, the tag itself
      (a '<', text free of '>', then a '>') is removed, and stripping carries on after it. */
  lemma {:induction false} StripRemovesOneTag(a: string, t: string, b: string)
    requires '<' !in a && '>' !in t
    ensures StripHtmlTags(a + ['<'] + t + ['>'] + b) == a + StripHtmlTags(b)
    decreases |a|
  {
    var html := a + ['<'] + t + ['>'] + b;
    if a == [] {
      assert html == ['<'] + t + ['>'] + b;
      assert html[1..] == t + ['>'] + b;
      assert html[1..][|t|] == '>' && html[1..][..|t|] == t;
      assert IndexOf(html[1..], '>') == Some(|t|);
      assert html[|t| + 2..] == b;
    } else {
      assert html[0] == a[0] && html[1..] == a[1..] + ['<'] + t + ['>'] + b;
      StripRemovesOneTag(a[1..], t, b);
      assert a == [a[0]] + a[1..];
    }
  }

  /** A string with no '<' at all is returned unchanged. */
  lemma StripKeepsTextWithoutLt(s: string)
    requires '<' !in s
    ensures StripHtmlTags(s) == s
  {
    StripKeepsTagless(s);
  }

  /** Stripping twice is the same as stripping once. */
  lemma StripIdempotent(html: string)
    ensures StripHtmlTags(StripHtmlTags(html)) == StripHtmlTags(html)
  {
    StripLeavesNoTag(html);
    StripKeepsTagless(StripHtmlTags(html));
  }

  // ---------------------------------------------------------------- truncateText

  /** `truncateText(text, maxLength = 150)`: the text itself when it fits, otherwise its
      first `maxLength` characters followed by "...". */
  function TruncateText(text: string, maxLength: nat := 150): (r: string)
    ensures |text| <= maxLength ==> r == text
    ensures |text| > maxLength ==> |r| == maxLength + 3 && r[..maxLength] == text[..maxLength] && r[maxLength..] == "..."
    ensures |r| <= maxLength + 3
  {
    if |text| <= maxLength then text else text[..maxLength] + "..."
  }

  // ---------------------------------------------------------------- formatDistanceToNow

  const MsPerMinute: nat := 1000 * 60
  const MsPerHour: nat := 1000 * 60 * 60
  const MsPerDay: nat := 1000 * 60 * 60 * 24
  const MsPerWeek: nat := MsPerDay * 7

  datatype TimeUnit = Minute | Hour | Day | Week

  /** Milliseconds in one unit. */
  function UnitMs(u: TimeUnit): nat {
    match u
    case Minute => MsPerMinute
    case Hour => MsPerHour
    case Day => MsPerDay
    case Week => MsPerWeek
  }

  /** The count below which a unit is used. */
  function UnitLimit(u: TimeUnit): nat {
    match u
    case Minute => 60
    case Hour => 24
    case Day => 7
    case Week => 4
  }

  function UnitWord(u: TimeUnit): string {
    match u
    case Minute => "minute"
    case Hour => "hour"
    case Day => "day"
    case Week => "week"
  }

  /** A relative-time phrase before it is rendered; `LocaleDate` stands for the
      host's `toLocaleDateString()` of the date. */
  datatype Relative = JustNow | Ago(count: nat, unit: TimeUnit) | LocaleDate(dateMs: int)

  /** `formatDistanceToNow(date)` with the clock reading `nowMs` passed in and both instants
      as milliseconds. Every count is the floor of the elapsed time in that unit, and the
      first unit whose count is below its limit is chosen. */
  function FormatDistanceToNow(nowMs: int, dateMs: int): (r: Relative)
    ensures r.JustNow? <==> nowMs - dateMs < MsPerMinute
    ensures r.Ago? ==> 1 <= r.count < UnitLimit(r.unit)
    ensures r.Ago? ==> UnitMs(r.unit) <= nowMs - dateMs < UnitLimit(r.unit) * UnitMs(r.unit)
    ensures r.Ago? ==> r.count == (nowMs - dateMs) / UnitMs(r.unit)
    ensures r.LocaleDate? <==> nowMs - dateMs >= 4 * MsPerWeek
    ensures r.LocaleDate? ==> r.dateMs == dateMs
  {
    var diffInMs := nowMs - dateMs;
    var diffInMinutes := diffInMs / MsPerMinute;
    var diffInHours := diffInMs / MsPerHour;
    var diffInDays := diffInMs / MsPerDay;
    var diffInWeeks := diffInDays / 7;
    WeeksFromDays(diffInMs);
    if diffInMinutes < 1 then JustNow
    else if diffInMinutes < 60 then Ago(diffInMinutes, Minute)
    else if diffInHours < 24 then Ago(diffInHours, Hour)
    else if diffInDays < 7 then Ago(diffInDays, Day)
    else if diffInWeeks < 4 then Ago(diffInWeeks, Week)
    else LocaleDate(dateMs)
  }

  /** Whole weeks counted from whole days agree with whole weeks counted from milliseconds. */
  lemma WeeksFromDays(ms: int)
    ensures (ms / MsPerDay) / 7 == ms / MsPerWeek
  {
    var d, w := ms / MsPerDay, (ms / MsPerDay) / 7;
    assert ms == MsPerDay * d + ms % MsPerDay;
    assert d == 7 * w + d % 7;
    assert ms == MsPerWeek * w + (MsPerDay * (d % 7) + ms % MsPerDay);
  }

  /** The rendered phrase: "just now", "<n> <unit> ago" with the unit in the plural unless
      n is 1, or the host's locale date. */
  function RenderDistance(r: Relative, toLocaleDateString: int -> string): (s: string)
    ensures r.JustNow? ==> s == "just now"
    ensures r.Ago? ==> EndsWith(s, " ago") && DecimalString(r.count) <= s
    ensures r.Ago? ==> DecimalString(r.count) + " " + UnitWord(r.unit) <= s
    ensures r.LocaleDate? ==> s == toLocaleDateString(r.dateMs)
  {
    match r
    case JustNow => "just now"
    case Ago(n, u) => DecimalString(n) + " " + UnitWord(u) + (if n == 1 then "" else "s") + " ago"
    case LocaleDate(ms) => toLocaleDateString(ms)
  }

  predicate EndsWith(s: string, suffix: string) {
    |suffix| <= |s| && s[|s| - |suffix|..] == suffix
  }

  /** The unit word takes a plural "s" exactly when the count is not 1. */
  lemma PluralExactlyWhenNotOne(n: nat, u: TimeUnit, toLocaleDateString: int -> string)
    ensures EndsWith(RenderDistance(Ago(n, u), toLocaleDateString), "s ago") <==> n != 1
    ensures n == 1 ==> EndsWith(RenderDistance(Ago(n, u), toLocaleDateString), UnitWord(u) + " ago")
  {
    var s := RenderDistance(Ago(n, u), toLocaleDateString);
    var w := UnitWord(u);
    if n == 1 {
      assert s == "1 " + w + " ago";
      assert s[|s| - 5..] == [w[|w| - 1]] + " ago";
      assert w[|w| - 1] != 's' by {
        match u
        case Minute => assert w == "minute";
        case Hour => assert w == "hour";
        case Day => assert w == "day";
        case Week => assert w == "week";
      }
      assert s[|s| - 5] != "s ago"[0];
    } else {
      assert s == DecimalString(n) + " " + w + "s ago";
    }
  }
}
