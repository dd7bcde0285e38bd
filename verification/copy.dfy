/** The user-facing strings that depend on a count or an error
    (client/constants/copy.ts). Numbers are rendered as a template literal
    renders an integer. */
module Copy {
  import opened Wrappers
  import Text

  const Palette := "\U{1F3A8}"
  const Fire := "\U{1F525}"
  const Party := "\U{1F389}"

  // ---------------------------------------------------------------------------
  // Batch selection title

  const NoImagesSelected := "No images selected"
  const PhotosLoadedMax := " photos loaded! (max) " + Fire

  function SelectionTitle(count: int): string {
    if count == 0 then NoImagesSelected
    else if count == 1 then "1 photo loaded! " + Palette
    else if count >= 10 then Text.IntToString(count) + PhotosLoadedMax
    else Text.IntToString(count) + " photos loaded! " + Palette
  }

  /** The title names the count: an empty selection says so, and any positive
      count can be read back from the start of the title. */
  lemma SelectionTitleNamesCount(count: int)
    ensures count == 0 ==> SelectionTitle(count) == NoImagesSelected
    ensures count >= 1 ==> Text.LeadingNumber(SelectionTitle(count)) == count
  {
    if count == 1 {
      assert SelectionTitle(1) == Text.NatToString(1) + (" photo loaded! " + Palette);
      Text.LeadingNumberRoundTrip(1, " photo loaded! " + Palette);
    } else if count >= 10 {
      Text.LeadingNumberRoundTrip(count, PhotosLoadedMax);
    } else if count >= 2 {
      assert SelectionTitle(count) == Text.NatToString(count) + (" photos loaded! " + Palette);
      Text.LeadingNumberRoundTrip(count, " photos loaded! " + Palette);
    }
  }

  /** After the count, the title says "photo" for exactly one photo, "photos"
      with the palette for two to nine, and "photos ... (max)" with the fire
      from ten on. */
  lemma SelectionTitleWording(count: int)
    ensures count == 1 ==> SelectionTitle(count) == Text.NatToString(1) + " photo loaded! " + Palette
    ensures 2 <= count < 10 ==> SelectionTitle(count) == Text.NatToString(count) + " photos loaded! " + Palette
    ensures count >= 10 ==> SelectionTitle(count) == Text.NatToString(count) + " photos loaded! (max) " + Fire
  {
    assert Text.NatToString(1) == "1";
  }

  /** The "(max)" variant is shown exactly for ten or more photos. */
  lemma SelectionTitleMaxMarker(count: int)
    ensures Text.EndsWith(SelectionTitle(count), PhotosLoadedMax) <==> count >= 10
  {
    var t := SelectionTitle(count);
    assert PhotosLoadedMax[|PhotosLoadedMax| - 1] == Fire[0];
    if count == 0 {
      assert t[|t| - 1] == 'd';
    } else if count < 10 {
      assert t[|t| - 1] == Palette[0];
    }
  }

  // ---------------------------------------------------------------------------
  // Batch queue screen

  const ProcessedImagesPrefix := "Processed Images ("

  /** `Processed Images (current/total)`. */
  function ProcessedImages(current: int, total: int): string {
    ProcessedImagesPrefix + Text.IntToString(current) + "/" + Text.IntToString(total) + ")"
  }

  /** Reads `current/total)` from the start of `s`. */
  function ReadCounts(s: string): Option<(nat, nat)> {
    var d1 := Text.LeadingDigits(s);
    if |d1| == 0 || |d1| == |s| || s[|d1|] != '/' then None
    else
      var rest := s[|d1| + 1..];
      var d2 := Text.LeadingDigits(rest);
      if |d2| == 0 || rest[|d2|..] != ")" then None
      else Some((Text.DigitsValue(d1), Text.DigitsValue(d2)))
  }

  /** Reads `current` and `total` back from a processed-images heading. */
  function ReadProcessedImages(s: string): Option<(nat, nat)> {
    if ProcessedImagesPrefix <= s then ReadCounts(s[|ProcessedImagesPrefix|..]) else None
  }

  /** Where `c + "/" + r` splits. */
  lemma SplitAtSlash(c: string, r: string, s: string)
    requires s == c + "/" + r
    ensures |c| < |s| && s[|c|] == '/' && s[|c| + 1..] == r
  {
  }

  lemma CloseParenAt(t: string, r: string)
    requires r == t + ")"
    ensures |t| < |r| && r[|t|..] == ")" && !Text.IsDigit(r[|t|])
  {
  }

  lemma ReadCountsOfDigits(c: string, t: string)
    requires Text.AllDigits(c) && Text.AllDigits(t) && |c| > 0 && |t| > 0
    ensures ReadCounts(c + "/" + t + ")") == Some((Text.DigitsValue(c), Text.DigitsValue(t)))
  {
    var r := t + ")";
    var s := c + "/" + t + ")";
    Assoc(c + "/", t, ")");
    SplitAtSlash(c, r, s);
    Text.LeadingDigitsOfDigits(c, s[|c|..]);
    Assoc(c, "/", r);
    CloseParenAt(t, r);
    Text.LeadingDigitsOfDigits(t, r[|t|..]);
  }

  /** The heading with its fixed prefix dropped. */
  lemma DropPrefix(p: string, a: string, b: string, c: string, d: string, s: string)
    requires s == p + a + b + c + d
    ensures p <= s && s[|p|..] == a + b + c + d
  {
    assert s == p + (a + b + c + d);
  }

  lemma Assoc(a: string, b: string, c: string)
    ensures a + b + c == a + (b + c)
  {
  }

  /** The heading states both counts, recoverably. */
  lemma ProcessedImagesRoundTrip(current: nat, total: nat)
    ensures ReadProcessedImages(ProcessedImages(current, total)) == Some((current, total))
  {
    var c, t := Text.NatToString(current), Text.NatToString(total);
    var s := ProcessedImages(current, total);
    assert s == ProcessedImagesPrefix + c + "/" + t + ")";
    DropPrefix(ProcessedImagesPrefix, c, "/", t, ")", s);
    ReadCountsOfDigits(c, t);
    Text.NatToStringValue(current);
    Text.NatToStringValue(total);
  }

  const CompletionTitle := "Mission Complete! " + Party

  function AllSuccess(count: int): string {
    "Boom! All " + Text.IntToString(count) + " images are ready! You're on fire! " + Fire + Party
  }

  function WithFailures(success: int, failed: int): string {
    "Crushing it! " + Text.IntToString(success) + " images ready, " + Text.IntToString(failed) + " had issues."
  }

  const RetryFailedDefault := "Failed to process image. Please try again."

  /** `error || default`: the retry alert always has something to say. */
  function RetryFailedMessage(error: Option<string>): (m: string)
    ensures m != ""
    ensures error.Some? && error.value != "" ==> m == error.value
    ensures error.None? || error.value == "" ==> m == RetryFailedDefault
  {
    if error.Some? && error.value != "" then error.value else RetryFailedDefault
  }

  // ---------------------------------------------------------------------------
  // Milestones and counts

  datatype Milestone = Milestone(title: string, message: string)

  const MilestoneCopy: map<int, Milestone> := map[
    5 := Milestone("On a Roll! " + Fire, "5 images down! You're getting good at this!"),
    10 := Milestone("Double Digits! \U{1F3C6}", "10 images! You're a pro now!"),
    25 := Milestone("Quarter Century! \U{1F48E}", "25 images! You're unstoppable!"),
    50 := Milestone("Half Century! \U{1F680}", "50 images! You're absolutely crushing it!"),
    100 := Milestone("LEGENDARY! \U{1F451}", "100 images! You're a true master!")
  ]

  /** The counts `getMilestone` searches, in order. */
  const Milestones: seq<int> := [5, 10, 25, 50, 100]

  /** `list.find(m => m === count)`. */
  function Find(list: seq<int>, count: int): (r: Option<int>)
    ensures r.Some? <==> count in list
    ensures r.Some? ==> r.value == count
    decreases |list|
  {
    if |list| == 0 then None
    else if list[0] == count then Some(list[0])
    else Find(list[1..], count)
  }

  /** The milestone entry for `count`, if it is one of the milestone counts. */
  function GetMilestone(count: int): (r: Option<Milestone>)
    ensures r.Some? <==> count in MilestoneCopy
    ensures r.Some? ==> r.value == MilestoneCopy[count]
  {
    assert count in Milestones <==> count in MilestoneCopy;
    match Find(Milestones, count)
    case Some(m) => if m != 0 then Some(MilestoneCopy[m]) else None
    case None => None
  }

  function FormatCount(count: int, singular: string, plural: string): string {
    if count == 0 then "No " + plural
    else if count == 1 then "1 " + singular
    else Text.IntToString(count) + " " + plural
  }

  /** The formatted count ends with the word for the count (the singular only
      for one) and, when positive, starts with the count itself. */
  lemma FormatCountStatesCount(count: int, singular: string, plural: string)
    ensures count == 0 ==> FormatCount(count, singular, plural) == "No " + plural
    ensures count == 1 ==> Text.EndsWith(FormatCount(count, singular, plural), " " + singular)
    ensures count != 1 ==> Text.EndsWith(FormatCount(count, singular, plural), " " + plural)
    ensures count >= 1 ==> Text.LeadingNumber(FormatCount(count, singular, plural)) == count
  {
    var f := FormatCount(count, singular, plural);
    if count == 0 {
      assert f == "No" + (" " + plural);
    } else if count == 1 {
      assert f == Text.NatToString(1) + (" " + singular);
      Text.LeadingNumberRoundTrip(1, " " + singular);
    } else {
      assert f == Text.IntToString(count) + (" " + plural);
      if count > 1 {
        Text.LeadingNumberRoundTrip(count, " " + plural);
      }
    }
  }
}
