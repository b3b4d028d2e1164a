/**
 * The moderation rules applied to one submission: the screenshot rule, the
 * untagged rule, and the outcome they select, screenshot rule first.
 */
module Policy {

  import opened Optional
  import opened Calendar

  /**
   * A submission as the feed delivers it, reduced to the fields the rules read.
   * `approved` and `banned` stand for the truthiness of `approved_by` and
   * `banned_by`; `flair` is `link_flair_text`, `None` when the post has none.
   */
  datatype Submission = Submission(
    createdUtc: int,
    approved: bool,
    banned: bool,
    flair: Option<string>)

  /** The flair is truthy: present and not the empty string. */
  predicate HasFlair(s: Submission)
  {
    s.flair.Some? && s.flair.value != ""
  }

  /** A moderator has already dealt with the submission. */
  predicate Moderated(s: Submission)
  {
    s.approved || s.banned
  }

  const UPPER_ALPHABET := "ABCDEFGHIJKLMNOPQRSTUVWXYZ"
  const LOWER_ALPHABET := "abcdefghijklmnopqrstuvwxyz"

  predicate IsUpper(c: char)
  {
    'A' <= c <= 'Z'
  }

  /** Lower-case of one character, ASCII letters only. */
  function LowerChar(c: char): (r: char)
    ensures !IsUpper(r)
    ensures !IsUpper(c) ==> r == c
    ensures IsUpper(c) ==> UPPER_ALPHABET[c as int - 'A' as int] == c && r == LOWER_ALPHABET[c as int - 'A' as int]
  {
    if IsUpper(c) then (c as int - 'A' as int + 'a' as int) as char else c
  }

  /** `str.lower()`, restricted to ASCII letters. */
  function Lower(s: string): (r: string)
    ensures |r| == |s|
    ensures forall i :: 0 <= i < |s| ==> r[i] == LowerChar(s[i])
  {
    if s == [] then [] else [LowerChar(s[0])] + Lower(s[1..])
  }

  /** Lower-casing twice is lower-casing once. */
  lemma LowerIdempotent(s: string)
    ensures Lower(Lower(s)) == Lower(s)
  {
  }

  /**
   * Screenshot rule: a weekday post, untouched by moderators, whose flair
   * lower-cases into `linkFlairs`. The rule holds exactly when all four
   * conditions hold.
   */
  predicate CheckRemovalScreenshot(s: Submission, linkFlairs: seq<string>)
    ensures CheckRemovalScreenshot(s, linkFlairs) <==>
      && Weekday(s.createdUtc) != SATURDAY && Weekday(s.createdUtc) != SUNDAY
      && !s.approved && !s.banned
      && HasFlair(s) && Lower(s.flair.value) in linkFlairs
  {
    if !IsWeekend(Weekday(s.createdUtc)) then
      if !s.approved && !s.banned then
        HasFlair(s) && Lower(s.flair.value) in linkFlairs
      else
        false
    else
      false
  }

  /** Untagged rule: a post untouched by moderators and without flair, on any day. */
  predicate CheckRemovalUntagged(s: Submission)
    ensures CheckRemovalUntagged(s) <==> !s.approved && !s.banned && !HasFlair(s)
  {
    if !s.approved && !s.banned then
      !HasFlair(s)
    else
      false
  }

  /** What happens to a processed submission; each is counted by its own statistic. */
  datatype Outcome = RemovedScreenshot | RemovedUntagged | Ignored

  const SCREENSHOT_REMOVAL := "screenshot-removal"
  const UNTAGGED_REMOVAL := "untagged-removal"

  /** The comment template posted when a submission is removed with outcome `o`. */
  function Template(o: Outcome): (name: string)
    requires o != Ignored
    ensures name == SCREENSHOT_REMOVAL <==> o == RemovedScreenshot
    ensures o == RemovedUntagged ==> name == UNTAGGED_REMOVAL
  {
    if o == RemovedScreenshot then SCREENSHOT_REMOVAL else UNTAGGED_REMOVAL
  }

  /**
   * The outcome of one processed submission: the screenshot rule is consulted
   * first, then the untagged rule; otherwise the post is ignored.
   */
  function Classify(s: Submission, linkFlairs: seq<string>): (o: Outcome)
    ensures o == RemovedScreenshot <==> CheckRemovalScreenshot(s, linkFlairs)
    ensures o == RemovedUntagged <==> CheckRemovalUntagged(s)
    ensures Moderated(s) ==> o == Ignored
    ensures o == RemovedScreenshot ==> MONDAY <= Weekday(s.createdUtc) <= FRIDAY && HasFlair(s)
    ensures o == RemovedUntagged <==> !Moderated(s) && !HasFlair(s)
  {
    if CheckRemovalScreenshot(s, linkFlairs) then RemovedScreenshot
    else if CheckRemovalUntagged(s) then RemovedUntagged
    else Ignored
  }

  /** The two removal rules never both fire: one needs a flair, the other its absence. */
  lemma RulesExclusive(s: Submission, linkFlairs: seq<string>)
    ensures !(CheckRemovalScreenshot(s, linkFlairs) && CheckRemovalUntagged(s))
  {
  }

  /** Flair matching ignores ASCII case: two flairs equal up to case classify alike. */
  lemma FlairCaseInsensitive(s: Submission, f: string, linkFlairs: seq<string>)
    requires HasFlair(s) && f != "" && Lower(f) == Lower(s.flair.value)
    ensures Classify(s.(flair := Some(f)), linkFlairs) == Classify(s, linkFlairs)
  {
  }

  /** A weekend post whose flair is listed is not removed by the screenshot rule, and being flaired it is ignored. */
  lemma WeekendFlairedIgnored(s: Submission, linkFlairs: seq<string>)
    requires IsWeekend(Weekday(s.createdUtc)) && HasFlair(s)
    ensures Classify(s, linkFlairs) == Ignored
  {
  }

  /** Saturday 2023-11-18 00:00 UTC, flair "Meme" with "meme" listed: ignored. */
  lemma SaturdayMemeScenario()
    ensures Weekday(1700265600) == SATURDAY
    ensures Classify(Submission(1700265600, false, false, Some("Meme")), ["meme"]) == Ignored
  {
  }

  /** Friday 2023-11-17 12:00 UTC, same flair: removed under the screenshot rule. */
  lemma FridayMemeScenario()
    ensures Weekday(1700222400) == FRIDAY
    ensures Classify(Submission(1700222400, false, false, Some("Meme")), ["meme"]) == RemovedScreenshot
  {
    assert Lower("Meme") == "meme";
  }

  /** An unflaired, unmoderated post is removed as untagged whatever the day. */
  lemma UntaggedScenario(t: int, linkFlairs: seq<string>)
    ensures Classify(Submission(t, false, false, None), linkFlairs) == RemovedUntagged
    ensures Classify(Submission(t, false, false, Some("")), linkFlairs) == RemovedUntagged
  {
  }
}
