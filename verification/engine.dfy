/**
 * The polling loop of the moderation agent: one scan cycle over a fetched
 * feed, and the run of cycles that carries the high-water mark from one poll
 * to the next.
 */
module Engine {

  import opened Policy
  import opened Scan
  import opened Stats

  /** How far back the first cycle looks: one hour before the agent started. */
  const INITIAL_LOOKBACK_SECONDS := 3600

  /**
   * Counting and acting on one processed submission: `allPosts` goes up by
   * one, and so does the counter of its outcome and no other; a removal is
   * issued with the template of the rule that fired.
   */
  method HandleSubmission(stats: Statistics, submission: Submission, linkFlairs: seq<string>)
    returns (issued: seq<Removal>)
    modifies stats
    ensures var o := Classify(submission, linkFlairs);
      && stats.allPosts == old(stats.allPosts) + 1
      && stats.removedScreenshots == old(stats.removedScreenshots) + (if o == RemovedScreenshot then 1 else 0)
      && stats.removedUntagged == old(stats.removedUntagged) + (if o == RemovedUntagged then 1 else 0)
      && stats.ignoredPosts == old(stats.ignoredPosts) + (if o == Ignored then 1 else 0)
      && issued == (if o == Ignored then [] else [Removal(submission, Template(o))])
  {
    stats.allPosts := stats.allPosts + 1;
    if CheckRemovalScreenshot(submission, linkFlairs) {
      issued := [Removal(submission, SCREENSHOT_REMOVAL)];
      stats.removedScreenshots := stats.removedScreenshots + 1;
    } else if CheckRemovalUntagged(submission) {
      issued := [Removal(submission, UNTAGGED_REMOVAL)];
      stats.removedUntagged := stats.removedUntagged + 1;
    } else {
      issued := [];
      stats.ignoredPosts := stats.ignoredPosts + 1;
    }
  }

  /**
   * One scan cycle. `feed` is the subreddit's newest-first listing and
   * `threshold` is "now" minus the backlog; the result is the new high-water
   * mark and the removals issued, and `stats` has been advanced by the
   * cycle's tally.
   */
  method RunCycle(stats: Statistics, feed: seq<Submission>, lastUpdate: int, threshold: int, linkFlairs: seq<string>)
    returns (newUpdate: int, removals: seq<Removal>)
    modifies stats
    ensures var ps := Processed(feed, lastUpdate, threshold);
      && newUpdate == NewUpdate(lastUpdate, ps)
      && removals == Removals(ps, linkFlairs)
      && stats.allPosts == old(stats.allPosts) + |ps|
      && stats.removedScreenshots == old(stats.removedScreenshots) + Count(ps, RemovedScreenshot, linkFlairs)
      && stats.removedUntagged == old(stats.removedUntagged) + Count(ps, RemovedUntagged, linkFlairs)
      && stats.ignoredPosts == old(stats.ignoredPosts) + Count(ps, Ignored, linkFlairs)
    ensures lastUpdate <= newUpdate
    ensures old(stats.Balanced()) ==> stats.Balanced()
  {
    newUpdate := lastUpdate;
    removals := [];
    ghost var done: seq<Submission> := [];
    var i := 0;
    while i < |feed|
      invariant 0 <= i <= |feed|
      invariant done + Processed(feed[i..], lastUpdate, threshold) == Processed(feed, lastUpdate, threshold)
      invariant newUpdate == NewUpdate(lastUpdate, done)
      invariant removals == Removals(done, linkFlairs)
      invariant stats.allPosts == old(stats.allPosts) + |done|
      invariant stats.removedScreenshots == old(stats.removedScreenshots) + Count(done, RemovedScreenshot, linkFlairs)
      invariant stats.removedUntagged == old(stats.removedUntagged) + Count(done, RemovedUntagged, linkFlairs)
      invariant stats.ignoredPosts == old(stats.ignoredPosts) + Count(done, Ignored, linkFlairs)
    {
      var submission := feed[i];
      ScanStep(feed, i, lastUpdate, threshold);
      if submission.createdUtc > threshold {
        i := i + 1;
        continue;
      }
      if submission.createdUtc <= lastUpdate {
        assert done == Processed(feed, lastUpdate, threshold);
        break;
      }
      newUpdate := Max(newUpdate, submission.createdUtc);
      var issued := HandleSubmission(stats, submission, linkFlairs);
      removals := removals + issued;
      ProcessOneMore(done, submission, lastUpdate, linkFlairs);
      done := done + [submission];
      i := i + 1;
    }
    assert i == |feed| ==> feed[i..] == [];
    assert done == Processed(feed, lastUpdate, threshold);
    CountsPartition(done, linkFlairs);
  }

  /**
   * One poll of the feed. `Completed` ran to the end of the cycle.
   * `Interrupted` raised while fetching the listing: only its first
   * `delivered` submissions were seen, and the cycle ended before the
   * high-water mark was stored. A `delivered` count beyond the stop position
   * cannot happen in the program, whose `break` ends the fetching; allowing
   * it is a harmless over-approximation, since nothing there is processed.
   */
  datatype Poll =
    | Completed(feed: seq<Submission>, now: int)
    | Interrupted(feed: seq<Submission>, now: int, delivered: nat)
  {
    /** The part of the listing the scan actually iterated over: a prefix of the feed. */
    function Delivered(): (r: seq<Submission>)
      ensures r <= feed
      ensures Completed? ==> r == feed
      ensures Interrupted? && delivered <= |feed| ==> |r| == delivered
    {
      if Completed? || delivered > |feed| then feed else feed[..delivered]
    }
  }

  /** The threshold of a poll: a submission is settled exactly when it is at least `backlogSeconds` old at `now`. */
  function Threshold(poll: Poll, backlogSeconds: int): (threshold: int)
    ensures forall s :: !Fresh(s, threshold) <==> poll.now - s.createdUtc >= backlogSeconds
  {
    poll.now - backlogSeconds
  }

  /** The submissions one poll processes when it starts from high-water mark `before`. */
  function PollProcessed(poll: Poll, before: int, backlogSeconds: int): (ps: seq<Submission>)
  {
    Processed(poll.Delivered(), before, Threshold(poll, backlogSeconds))
  }

  /**
   * One poll as the polling loop performs it: from high-water mark `before`
   * the poll leaves `after` and issues `issued`.
   */
  ghost predicate PollStep(poll: Poll, before: int, after: int, issued: seq<Removal>, backlogSeconds: int, linkFlairs: seq<string>)
  {
    var ps := PollProcessed(poll, before, backlogSeconds);
    && issued == Removals(ps, linkFlairs)
    && after == (if poll.Completed? then NewUpdate(before, ps) else before)
  }

  /**
   * The cost of an interrupted poll: its removals were carried out but the
   * high-water mark was not advanced, so a later poll that delivers the same
   * listing, with those posts still unmoderated, issues every one of those
   * removals again (and, if its clock has not moved, exactly those).
   */
  lemma InterruptedPollRepeats(first: Poll, second: Poll, before: int, middle: int, after: int,
                               done: seq<Removal>, again: seq<Removal>, backlogSeconds: int, linkFlairs: seq<string>)
    requires first.Interrupted?
    requires PollStep(first, before, middle, done, backlogSeconds, linkFlairs)
    requires PollStep(second, middle, after, again, backlogSeconds, linkFlairs)
    requires second.Delivered() == first.Delivered()
    requires Threshold(first, backlogSeconds) <= Threshold(second, backlogSeconds)
    ensures forall r :: r in done ==> r in again
    ensures Threshold(second, backlogSeconds) == Threshold(first, backlogSeconds) ==> again == done
  {
    var feed := first.Delivered();
    var ps1 := PollProcessed(first, before, backlogSeconds);
    var ps2 := PollProcessed(second, before, backlogSeconds);
    RemovalsSound(ps1, linkFlairs);
    RemovalsSound(ps2, linkFlairs);
    forall r | r in done
      ensures r in again
    {
      LaterThresholdKeeps(feed, before, Threshold(first, backlogSeconds), Threshold(second, backlogSeconds), r.submission);
    }
  }

  /** Every removal of a poll is of a settled submission newer than the mark the poll started from. */
  lemma PollRemovalsEligible(poll: Poll, before: int, after: int, issued: seq<Removal>, backlogSeconds: int, linkFlairs: seq<string>)
    requires PollStep(poll, before, after, issued, backlogSeconds, linkFlairs)
    ensures before <= after
    ensures forall r :: r in issued ==> before < r.submission.createdUtc <= Threshold(poll, backlogSeconds)
  {
    RemovalsSound(PollProcessed(poll, before, backlogSeconds), linkFlairs);
  }

  /**
   * One pass of the polling loop: a cycle over what the poll delivered. The
   * new mark is stored only when the cycle completed; an interrupted one
   * keeps its removals and counters but not its mark.
   */
  method RunPoll(stats: Statistics, poll: Poll, lastUpdate: int, backlogSeconds: int, linkFlairs: seq<string>)
    returns (after: int, issued: seq<Removal>)
    modifies stats
    ensures PollStep(poll, lastUpdate, after, issued, backlogSeconds, linkFlairs)
    ensures var ps := PollProcessed(poll, lastUpdate, backlogSeconds);
      && stats.allPosts == old(stats.allPosts) + |ps|
      && stats.removedScreenshots == old(stats.removedScreenshots) + Count(ps, RemovedScreenshot, linkFlairs)
      && stats.removedUntagged == old(stats.removedUntagged) + Count(ps, RemovedUntagged, linkFlairs)
      && stats.ignoredPosts == old(stats.ignoredPosts) + Count(ps, Ignored, linkFlairs)
  {
    var newUpdate;
    newUpdate, issued := RunCycle(stats, poll.Delivered(), lastUpdate, Threshold(poll, backlogSeconds), linkFlairs);
    after := if poll.Completed? then newUpdate else lastUpdate;
  }

  /** A sequence that never steps down is sorted: each earlier element is at most each later one. */
  lemma {:induction false} NonDecreasing(w: seq<int>)
    requires forall c :: 0 <= c < |w| - 1 ==> w[c] <= w[c + 1]
    ensures forall c, d :: 0 <= c <= d < |w| ==> w[c] <= w[d]
  {
    if |w| > 1 {
      NonDecreasing(w[1..]);
      forall c, d | 0 <= c <= d < |w|
        ensures w[c] <= w[d]
      {
        if 0 < c {
          assert w[c] == w[1..][c - 1] && w[d] == w[1..][d - 1];
        } else if 0 < d {
          assert w[1] == w[1..][0] && w[d] == w[1..][d - 1];
        }
      }
    }
  }

  /** Total of the lengths of `pss`: how many posts a run of polls processed. */
  function TotalPosts(pss: seq<seq<Submission>>): (n: nat)
  {
    if pss == [] then 0 else TotalPosts(pss[..|pss| - 1]) + |pss[|pss| - 1]|
  }

  /** How many posts with outcome `o` a run of polls processed. */
  function TotalCount(pss: seq<seq<Submission>>, o: Outcome, linkFlairs: seq<string>): (n: nat)
  {
    if pss == [] then 0 else TotalCount(pss[..|pss| - 1], o, linkFlairs) + Count(pss[|pss| - 1], o, linkFlairs)
  }

  /** One more poll adds its own processed posts and counts to the totals. */
  lemma TotalsOneMore(pss: seq<seq<Submission>>, ps: seq<Submission>, linkFlairs: seq<string>)
    ensures TotalPosts(pss + [ps]) == TotalPosts(pss) + |ps|
    ensures forall o :: (TotalCount(pss + [ps], o, linkFlairs) == TotalCount(pss, o, linkFlairs) + Count(ps, o, linkFlairs))
  {
    assert (pss + [ps])[..|pss|] == pss;
  }

  /** Over any run of polls the three outcome totals add up to the posts processed. */
  lemma {:induction false} TotalsPartition(pss: seq<seq<Submission>>, linkFlairs: seq<string>)
    ensures TotalCount(pss, RemovedScreenshot, linkFlairs) + TotalCount(pss, RemovedUntagged, linkFlairs)
          + TotalCount(pss, Ignored, linkFlairs) == TotalPosts(pss)
  {
    if pss != [] {
      TotalsPartition(pss[..|pss| - 1], linkFlairs);
      CountsPartition(pss[|pss| - 1], linkFlairs);
    }
  }

  /** The counters stand at the given starting values plus the totals of `pss`. */
  ghost predicate Tallied(stats: Statistics, all0: nat, screenshots0: nat, untagged0: nat, ignored0: nat,
                          pss: seq<seq<Submission>>, linkFlairs: seq<string>)
    reads stats
  {
    && stats.allPosts == all0 + TotalPosts(pss)
    && stats.removedScreenshots == screenshots0 + TotalCount(pss, RemovedScreenshot, linkFlairs)
    && stats.removedUntagged == untagged0 + TotalCount(pss, RemovedUntagged, linkFlairs)
    && stats.ignoredPosts == ignored0 + TotalCount(pss, Ignored, linkFlairs)
  }

  /** What each poll of a run processed, given the mark each poll started from. */
  function ProcessedPerPoll(polls: seq<Poll>, windows: seq<int>, backlogSeconds: int): (pss: seq<seq<Submission>>)
    requires |polls| <= |windows|
    ensures |pss| == |polls|
  {
    seq(|polls|, c requires 0 <= c < |polls| => PollProcessed(polls[c], windows[c], backlogSeconds))
  }

  /** One more poll appends what it processed to the per-poll record. */
  lemma PerPollOneMore(polls: seq<Poll>, windows: seq<int>, after: int, backlogSeconds: int)
    requires 0 < |windows| <= |polls|
    ensures var c := |windows| - 1;
      ProcessedPerPoll(polls[..c + 1], windows + [after], backlogSeconds)
      == ProcessedPerPoll(polls[..c], windows, backlogSeconds) + [PollProcessed(polls[c], windows[c], backlogSeconds)]
  {
  }

  /** Steps `0 .. c - 1` of a run are poll steps from each mark to the next. */
  ghost predicate StepsUpTo(polls: seq<Poll>, windows: seq<int>, removals: seq<seq<Removal>>, c: nat,
                            backlogSeconds: int, linkFlairs: seq<string>)
  {
    && c <= |polls| && |windows| == c + 1 && |removals| == c
    && forall d :: 0 <= d < c ==>
      PollStep(polls[d], windows[d], windows[d + 1], removals[d], backlogSeconds, linkFlairs)
  }

  /** A run's steps extend by one more poll step from its last mark. */
  lemma StepsOneMore(polls: seq<Poll>, windows: seq<int>, removals: seq<seq<Removal>>, c: nat,
                     after: int, issued: seq<Removal>, backlogSeconds: int, linkFlairs: seq<string>)
    requires StepsUpTo(polls, windows, removals, c, backlogSeconds, linkFlairs) && c < |polls|
    requires PollStep(polls[c], windows[c], after, issued, backlogSeconds, linkFlairs)
    ensures StepsUpTo(polls, windows + [after], removals + [issued], c + 1, backlogSeconds, linkFlairs)
  {
    var w, rs := windows + [after], removals + [issued];
    forall d | 0 <= d < c + 1
      ensures PollStep(polls[d], w[d], w[d + 1], rs[d], backlogSeconds, linkFlairs)
    {
      if d < c {
        assert w[d] == windows[d] && w[d + 1] == windows[d + 1] && rs[d] == removals[d];
      }
    }
  }

  /**
   * What any run of polls guarantees about the marks and the removals: the
   * mark never goes back, an interrupted poll leaves it where it was, and a
   * removal made by a poll is of a settled submission created after the mark
   * of that poll and of every earlier one, so a post at or before a mark is
   * never acted on again.
   */
  lemma RunGuarantees(polls: seq<Poll>, windows: seq<int>, removals: seq<seq<Removal>>, backlogSeconds: int, linkFlairs: seq<string>)
    requires |windows| == |polls| + 1 && |removals| == |polls|
    requires forall c :: 0 <= c < |polls| ==>
      PollStep(polls[c], windows[c], windows[c + 1], removals[c], backlogSeconds, linkFlairs)
    ensures forall c, d :: 0 <= c <= d <= |polls| ==> windows[c] <= windows[d]
    ensures forall c :: 0 <= c < |polls| && polls[c].Interrupted? ==> windows[c + 1] == windows[c]
    ensures forall c, r :: 0 <= c < |polls| && r in removals[c] ==>
      windows[c] < r.submission.createdUtc <= Threshold(polls[c], backlogSeconds)
    ensures forall c, d, r :: 0 <= c <= d < |polls| && r in removals[d] ==> windows[c] < r.submission.createdUtc
  {
    forall c | 0 <= c < |polls|
      ensures windows[c] <= windows[c + 1]
      ensures forall r :: r in removals[c] ==>
        windows[c] < r.submission.createdUtc <= Threshold(polls[c], backlogSeconds)
    {
      PollRemovalsEligible(polls[c], windows[c], windows[c + 1], removals[c], backlogSeconds, linkFlairs);
    }
    NonDecreasing(windows);
  }

  /**
   * The polling loop over a finite run of polls. `windows[c]` is the
   * high-water mark before poll `c` and `windows[c + 1]` after it;
   * `removals[c]` are the removals poll `c` issued. The mark never goes
   * back, an interrupted poll leaves it where it was, every removal is of a
   * settled submission newer than the mark of its own poll and of every
   * earlier one, and each counter has grown by what the polls processed.
   */
  method ProcessSubmissions(stats: Statistics, polls: seq<Poll>, startedAt: int, backlogSeconds: int, linkFlairs: seq<string>)
    returns (windows: seq<int>, removals: seq<seq<Removal>>)
    modifies stats
    ensures |windows| == |polls| + 1 && |removals| == |polls|
    ensures windows[0] == startedAt - INITIAL_LOOKBACK_SECONDS
    ensures forall c :: 0 <= c < |polls| ==>
      PollStep(polls[c], windows[c], windows[c + 1], removals[c], backlogSeconds, linkFlairs)
    ensures forall c, d :: 0 <= c <= d <= |polls| ==> windows[c] <= windows[d]
    ensures forall c :: 0 <= c < |polls| && polls[c].Interrupted? ==> windows[c + 1] == windows[c]
    ensures forall c, r :: 0 <= c < |polls| && r in removals[c] ==>
      windows[c] < r.submission.createdUtc <= Threshold(polls[c], backlogSeconds)
    ensures forall c, d, r :: 0 <= c <= d < |polls| && r in removals[d] ==> windows[c] < r.submission.createdUtc
    ensures var pss := ProcessedPerPoll(polls, windows, backlogSeconds);
      && stats.allPosts == old(stats.allPosts) + TotalPosts(pss)
      && stats.removedScreenshots == old(stats.removedScreenshots) + TotalCount(pss, RemovedScreenshot, linkFlairs)
      && stats.removedUntagged == old(stats.removedUntagged) + TotalCount(pss, RemovedUntagged, linkFlairs)
      && stats.ignoredPosts == old(stats.ignoredPosts) + TotalCount(pss, Ignored, linkFlairs)
    ensures old(stats.Balanced()) ==> stats.Balanced()
  {
    var lastUpdate := startedAt - INITIAL_LOOKBACK_SECONDS;
    windows := [lastUpdate];
    removals := [];
    ghost var pss: seq<seq<Submission>> := [];
    ghost var all0, screenshots0, untagged0, ignored0 :=
      stats.allPosts, stats.removedScreenshots, stats.removedUntagged, stats.ignoredPosts;
    var c := 0;
    while c < |polls|
      invariant StepsUpTo(polls, windows, removals, c, backlogSeconds, linkFlairs) && |pss| == c
      invariant windows[0] == startedAt - INITIAL_LOOKBACK_SECONDS
      invariant windows[c] == lastUpdate
      invariant pss == ProcessedPerPoll(polls[..c], windows, backlogSeconds)
      invariant Tallied(stats, all0, screenshots0, untagged0, ignored0, pss, linkFlairs)
    {
      ghost var ps := PollProcessed(polls[c], lastUpdate, backlogSeconds);
      var after, issued := RunPoll(stats, polls[c], lastUpdate, backlogSeconds, linkFlairs);
      TotalsOneMore(pss, ps, linkFlairs);
      PerPollOneMore(polls, windows, after, backlogSeconds);
      StepsOneMore(polls, windows, removals, c, after, issued, backlogSeconds, linkFlairs);
      windows := windows + [after];
      removals := removals + [issued];
      pss := pss + [ps];
      lastUpdate := after;
      c := c + 1;
    }
    assert polls[..c] == polls;
    TotalsPartition(pss, linkFlairs);
    RunGuarantees(polls, windows, removals, backlogSeconds, linkFlairs);
  }
}
