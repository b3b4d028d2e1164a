# pgo moderation loop, modelled in Dafny

pgo is a subreddit moderation bot. It repeatedly reads the newest
submissions of a subreddit and skips the ones younger than a backlog window
("fresh"). It stops at the first settled submission that is no newer than
its high-water mark `last_update`. Each submission in between gets exactly
one outcome:

- removed as a screenshot: a weekday post, not approved or banned, whose
  lower-cased flair is in the configured `link_flairs`;
- removed as untagged: not approved or banned, and with no flair;
- ignored: anything else.

A removal posts a distinguished comment rendered from a template named
`screenshot-removal` or `untagged-removal`. The `Statistics` counters
record every processed post. At the end of a cycle the high-water mark moves
to the newest processed creation time.

The model has six modules:

- `Optional` (`option.dfy`): an `Option` datatype.
- `Calendar` (`calendar.dfy`): the `WEEKDAY` constants and the weekday of a
  UTC instant, computed from whole seconds as
  `((t / 86400) + 3) % 7`. 1970-01-01 was a Thursday, and Python's `weekday()`
  numbers Monday as 0.
- `Policy` (`policy.dfy`): the `Submission` record, ASCII lower-casing, the
  two removal predicates, and `Classify`, which checks the screenshot rule
  before the untagged rule.
- `Stats` (`stats.dfy`): the `Statistics` class with its four counters and
  the invariant `allPosts == removedScreenshots + removedUntagged + ignoredPosts`.
- `Scan` (`scan.dfy`): what one cycle does, written as functions.
  - `Processed`: the submissions a cycle handles.
  - `StopIndex` and `Settled`: an independent description of the same sequence.
  - `NewUpdate`: the new high-water mark.
  - `Count`: the counter increments.
  - `Removals`: the removals issued.
  - Lemmas relating these functions.
- `Engine` (`engine.dfy`): the loop itself.
  - `RunCycle`: one cycle, a `while` loop with `continue` and `break` that
    updates a `Statistics` object in place. It is proved equal to the `Scan`
    functions.
  - `ProcessSubmissions`: the polling loop over a finite run of polls. It
    shows that the high-water mark never decreases, that no removal is of a
    post at or before an earlier mark, and what each counter adds up to.

Three details of pgo.py that the model keeps:

- The screenshot rule's weekend exemption uses the weekday of the post's
  creation time (pgo.py:79), not the current day.
- The untagged rule is always on. It has no enabling flag.
- The first window starts one hour before start-up (pgo.py:105).

## Model

| member | source | states |
|---|---|---|
| Calendar.Weekday | pgo.py:79 | the weekday of a creation instant is a number from MONDAY (0) to SUNDAY (6) |
| Calendar.WeekdayOfDay | pgo.py:79 | every instant of one UTC day has the same weekday as the day's first second |
| Calendar.NextDay | pgo.py:79 | one day later is the next weekday, with Sunday followed by Monday |
| Calendar.WeekPeriodic | pgo.py:79 | the weekday repeats every seven days, forwards and backwards in time |
| Policy.LowerChar | pgo.py:81 | lower-casing one character never leaves an upper-case ASCII letter; it maps `A`–`Z` to the matching `a`–`z` and leaves other characters alone |
| Policy.Lower | pgo.py:81 | `str.lower()` keeps the length and lower-cases each character in place |
| Policy.LowerIdempotent | pgo.py:81 | lower-casing an already lower-cased flair changes nothing |
| Policy.CheckRemovalScreenshot | pgo.py:78-83 | the screenshot rule holds exactly when the post is not from a Saturday or Sunday, is neither approved nor banned, has a non-empty flair, and that flair lower-cased is in `link_flairs` |
| Policy.CheckRemovalUntagged | pgo.py:85-89 | the untagged rule holds exactly when the post is neither approved nor banned and its flair is empty or missing |
| Policy.RulesExclusive | pgo.py:78-89 | no submission satisfies both removal rules |
| Policy.Template | pgo.py:97-101 | the comment template is `screenshot-removal` exactly for screenshot removals, and `untagged-removal` for untagged removals |
| Policy.Classify | pgo.py:130-140 | the outcome is a screenshot removal exactly when the screenshot rule holds, and an untagged removal exactly when the untagged rule holds (both are iff, which needs the rules to be exclusive); approved or banned posts are always ignored; screenshot removals happen only Monday to Friday and only to flaired posts |
| Policy.FlairCaseInsensitive | pgo.py:81 | two flairs that are equal up to ASCII case give the same outcome |
| Policy.WeekendFlairedIgnored | pgo.py:79-89 | a flaired post from a weekend is ignored, even when its flair is listed |
| Policy.SaturdayMemeScenario | pgo.py:79-83 | a post from Saturday 2023-11-18 with flair "Meme", with "meme" listed, is ignored |
| Policy.FridayMemeScenario | pgo.py:79-83 | the same post made on the Friday before is removed under the screenshot rule |
| Policy.UntaggedScenario | pgo.py:85-89 | a post that is not moderated and has no flair, or an empty one, is removed as untagged on any day |
| Stats.Statistics.constructor | pgo.py:17-23 | all four counters start at zero, which makes them balanced |
| Scan.Processed | pgo.py:116-126 | a cycle processes only submissions from the feed, and each one has `last_update < created <= threshold` |
| Scan.StopIndex | pgo.py:119-124 | the stop position is the first settled submission at or before `last_update`: none comes before it, and the one at that position is such a submission (or the position is the end of the feed) |
| Scan.Settled | pgo.py:119-121 | skipping fresh posts keeps exactly the posts that are not fresh |
| Scan.ProcessedIsSettledPrefix | pgo.py:116-124 | the processed posts are exactly the settled posts before the stop position, in feed order |
| Scan.LaterThresholdKeeps | pgo.py:115-126 | a post a cycle processes is still processed, from the same mark, by a cycle whose freshness threshold is later |
| Scan.ProcessedIgnoresTail | pgo.py:123-124 | once a stop position exists, anything appended after it changes nothing the cycle processes |
| Scan.FreshSkipped | pgo.py:119-121 | inserting a fresh submission anywhere in the feed leaves the processed posts unchanged, so neither the window nor any counter moves and scanning continues past it |
| Scan.AllFreshProcessesNothing | pgo.py:116-124 | a feed that is empty or all fresh processes nothing |
| Scan.BoundaryIsAlreadySeen | pgo.py:123-124 | a settled post created exactly at `last_update` stops the scan before anything is processed |
| Scan.Max | pgo.py:126 | `max` bounds both arguments and is one of them |
| Scan.NewUpdate | pgo.py:112 | the new high-water mark is never below `last_update` |
| Scan.NewUpdateIsMax | pgo.py:126 | the new high-water mark bounds every processed creation time and equals either `last_update` or one of them, so it is their maximum |
| Scan.Count | pgo.py:128-140 | a counter's increment never exceeds the number of processed posts |
| Scan.CountsPartition | pgo.py:128-140 | the increments of the three outcome counters add up to the increment of `all_posts` |
| Scan.Removals | pgo.py:130-137 | no more removals are issued than posts are processed |
| Scan.RemovalsSound | pgo.py:130-137 | every removal is of a processed post that a rule removes, with that rule's template, and every such post gets its removal |
| Scan.RemovalsCounted | pgo.py:130-137 | there are as many removals as the two removal counters went up |
| Scan.ProcessOneMore | pgo.py:126-140 | processing one more post takes the max of its creation time, adds one to the counter of its outcome only, and appends its removal if it has one |
| Scan.ScanStep | pgo.py:119-126 | at each position the scan skips a fresh post, stops at a post already seen, and otherwise processes the post and carries on |
| Scan.CycleWindow | pgo.py:112-147 | after a cycle, `last_update` has not decreased; if it moved, it is at most the freshness threshold; with nothing processed it is unchanged |
| Scan.QuietCycle | pgo.py:112-147 | with an empty or all-fresh feed the cycle leaves `last_update` and every counter unchanged and issues no removal |
| Scan.NoReprocessing | pgo.py:123-147 | after a completed cycle, every post the next cycle processes, whatever its feed and threshold, was created strictly later than every post the first cycle processed, so none is processed twice |
| Engine.HandleSubmission | pgo.py:128-140 | `all_posts` and the counter of the post's outcome each go up by one, the other counters stay, and a removal with the rule's template is issued exactly when a rule fires |
| Engine.RunCycle | pgo.py:112-147 | the loop returns the `NewUpdate` of the processed posts and their `Removals`, and adds the matching `Count` to each statistics counter; the new mark is at least the old one, and balanced counters stay balanced |
| Engine.Poll.Delivered | pgo.py:114-116 | the listing a poll iterates is a prefix of the feed: the whole feed when the poll completes, and exactly the fetched prefix when it is interrupted |
| Engine.Threshold | pgo.py:115-121 | a submission is settled (not skipped as fresh) exactly when it is at least `backlog_seconds` old at the poll's "now" |
| Engine.InterruptedPollRepeats | pgo.py:142-155 | an interrupted cycle keeps its removals but not its mark, so a later poll with a later or equal threshold that delivers the same listing repeats every removal, and exactly the same removals when the threshold is unchanged |
| Engine.PollRemovalsEligible | pgo.py:112-147 | one poll never moves the mark back, and each removal it issues is of a post created after the mark it started from and no later than its threshold |
| Engine.RunPoll | pgo.py:112-147 | one poll of the loop: it runs a cycle over the delivered listing, stores the new mark only when the poll completes, and adds the processed posts and the matching outcome counts to the counters |
| Engine.TotalsOneMore | pgo.py:110-147 | one more poll adds its processed posts and outcome counts to the run totals |
| Engine.TotalsPartition | pgo.py:128-140 | over any run of polls the three outcome totals add up to the number of processed posts |
| Engine.RunGuarantees | pgo.py:110-147 | across a whole run the mark never decreases, an interrupted poll leaves it unchanged, and every removal is of a post created after the mark of its own poll and of every earlier poll, and no later than its poll's threshold |
| Engine.ProcessSubmissions | pgo.py:105-155 | the first mark is start-up minus one hour; each poll moves the mark as one cycle would; the mark never decreases; an interrupted poll leaves it unchanged; every removal is of a settled post newer than the mark of its own poll and of every earlier poll; each counter ends at its start plus the run's totals over what each poll processed; balanced counters stay balanced |

## Left out

- praw client setup, login and its endless retry, and fetching the listing (pgo.py:62-76, pgo.py:113-114). The listing is an input: a sequence of submissions, newest first.
- The remove, comment and distinguish calls (pgo.py:91-95). A removal is recorded as a `Removal(submission, template)` value. The model does not capture the rendered comment text or the jinja2 `Views` cache (pgo.py:32-42).
- Reading and saving the configuration, and JSON-decoding `link_flairs` (pgo.py:50-60, pgo.py:106-108). `backlog_seconds` and `link_flairs` are parameters. The save is commented out in the source.
- Logging, `Statistics.dump`, and `time.sleep(refresh_seconds)` (pgo.py:25-29, pgo.py:148-153).
- `datetime.utcnow()` (pgo.py:105, pgo.py:115). The start-up instant and each poll's "now" are parameters.
- All instants are whole seconds. A fractional `created_utc` and the microseconds of `utcnow()` are not modelled.
- Policy.Lower: models `str.lower()` on ASCII letters only, not the full Unicode lower-casing Python applies.
- `approved_by` and `banned_by` are modelled only by their truthiness, and a submission's title is not modelled. The code reads the title only for logging.
- The endless `while True` is modelled by `ProcessSubmissions` over a finite sequence of polls.
- Of the failures the catch-all `except` (pgo.py:154-155) swallows, the model covers two: a failure while fetching, before the listing is read, and a failure while iterating the listing. Both are `Poll.Interrupted`: earlier effects are kept and the high-water mark is not stored. The model leaves out a failure inside `_remove_submission`. In that case `all_posts` has already been incremented while no outcome counter is, so the counters stop being balanced.
