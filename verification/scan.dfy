/**
 * What one scan cycle does, as functions of the feed (newest first), the
 * high-water mark `lastUpdate` and the freshness threshold: which
 * submissions it processes, where it stops, the new high-water mark, the
 * counters it adds and the removals it issues.
 */
module Scan {

  import opened Policy

  /** Too recent to trust: skipped this cycle, scanning goes on past it. */
  predicate Fresh(s: Submission, threshold: int)
  {
    s.createdUtc > threshold
  }

  /** Settled but no newer than the high-water mark: the scan stops here. */
  predicate AlreadySeen(s: Submission, lastUpdate: int, threshold: int)
  {
    !Fresh(s, threshold) && s.createdUtc <= lastUpdate
  }

  /** Strictly after the high-water mark and settled. */
  predicate Eligible(s: Submission, lastUpdate: int, threshold: int)
  {
    lastUpdate < s.createdUtc <= threshold
  }

  /**
   * The submissions a cycle processes, in feed order: fresh ones are skipped,
   * the first settled one at or before `lastUpdate` ends the scan.
   */
  function Processed(feed: seq<Submission>, lastUpdate: int, threshold: int): (r: seq<Submission>)
    ensures |r| <= |feed|
    ensures forall s :: s in r ==> s in feed && Eligible(s, lastUpdate, threshold)
  {
    if feed == [] then []
    else if Fresh(feed[0], threshold) then Processed(feed[1..], lastUpdate, threshold)
    else if feed[0].createdUtc <= lastUpdate then []
    else [feed[0]] + Processed(feed[1..], lastUpdate, threshold)
  }

  /** Position of the first already-seen submission, or `|feed|` when there is none. */
  function StopIndex(feed: seq<Submission>, lastUpdate: int, threshold: int): (k: nat)
    ensures k <= |feed|
    ensures forall j :: 0 <= j < k ==> !AlreadySeen(feed[j], lastUpdate, threshold)
    ensures k < |feed| ==> AlreadySeen(feed[k], lastUpdate, threshold)
  {
    if feed == [] then 0
    else if AlreadySeen(feed[0], lastUpdate, threshold) then 0
    else 1 + StopIndex(feed[1..], lastUpdate, threshold)
  }

  /** The settled submissions of `xs`, in order. */
  function Settled(xs: seq<Submission>, threshold: int): (r: seq<Submission>)
    ensures forall s :: s in r <==> s in xs && !Fresh(s, threshold)
  {
    if xs == [] then []
    else if Fresh(xs[0], threshold) then Settled(xs[1..], threshold)
    else [xs[0]] + Settled(xs[1..], threshold)
  }

  /**
   * The scan processes exactly the settled submissions that come before the
   * first already-seen one.
   */
  lemma {:induction false} ProcessedIsSettledPrefix(feed: seq<Submission>, lastUpdate: int, threshold: int)
    ensures Processed(feed, lastUpdate, threshold)
         == Settled(feed[..StopIndex(feed, lastUpdate, threshold)], threshold)
  {
    if feed != [] && !AlreadySeen(feed[0], lastUpdate, threshold) {
      var k := StopIndex(feed, lastUpdate, threshold);
      var rest := feed[1..];
      ProcessedIsSettledPrefix(rest, lastUpdate, threshold);
      assert k == 1 + StopIndex(rest, lastUpdate, threshold);
      var prefix := feed[..k];
      assert prefix[0] == feed[0] && prefix[1..] == rest[..k - 1];
      if Fresh(feed[0], threshold) {
        calc {
          Settled(prefix, threshold);
          Settled(rest[..k - 1], threshold);
          Processed(rest, lastUpdate, threshold);
          Processed(feed, lastUpdate, threshold);
        }
      } else {
        calc {
          Settled(prefix, threshold);
          [feed[0]] + Settled(rest[..k - 1], threshold);
          [feed[0]] + Processed(rest, lastUpdate, threshold);
          Processed(feed, lastUpdate, threshold);
        }
      }
    }
  }

  /** Nothing at or after the stop position is processed, whatever follows it. */
  lemma {:induction false} ProcessedIgnoresTail(feed: seq<Submission>, tail: seq<Submission>, lastUpdate: int, threshold: int)
    requires StopIndex(feed, lastUpdate, threshold) < |feed|
    ensures Processed(feed + tail, lastUpdate, threshold) == Processed(feed, lastUpdate, threshold)
  {
    assert (feed + tail)[0] == feed[0];
    if !AlreadySeen(feed[0], lastUpdate, threshold) {
      assert (feed + tail)[1..] == feed[1..] + tail;
      ProcessedIgnoresTail(feed[1..], tail, lastUpdate, threshold);
    }
  }

  /** A fresh submission anywhere in the feed changes nothing the cycle does. */
  lemma {:induction false} FreshSkipped(feed: seq<Submission>, j: nat, x: Submission, lastUpdate: int, threshold: int)
    requires j <= |feed|
    requires Fresh(x, threshold)
    ensures Processed(feed[..j] + [x] + feed[j..], lastUpdate, threshold) == Processed(feed, lastUpdate, threshold)
  {
    var longer := feed[..j] + [x] + feed[j..];
    if j == 0 {
      assert longer[1..] == feed;
    } else {
      assert longer[0] == feed[0];
      assert longer[1..] == feed[1..][..j - 1] + [x] + feed[1..][j - 1..];
      FreshSkipped(feed[1..], j - 1, x, lastUpdate, threshold);
    }
  }

  /**
   * Raising the threshold never drops a processed submission: posts that were
   * fresh before it and settle now are all newer than it, so none of them
   * stops the scan earlier.
   */
  lemma {:induction false} LaterThresholdKeeps(feed: seq<Submission>, lastUpdate: int, threshold: int, later: int, s: Submission)
    requires threshold <= later
    requires s in Processed(feed, lastUpdate, threshold)
    ensures s in Processed(feed, lastUpdate, later)
  {
    if feed[0] != s || Fresh(feed[0], threshold) {
      LaterThresholdKeeps(feed[1..], lastUpdate, threshold, later, s);
      assert s.createdUtc > lastUpdate;
    }
  }

  /** A feed of fresh submissions only (or none) processes nothing. */
  lemma {:induction false} AllFreshProcessesNothing(feed: seq<Submission>, lastUpdate: int, threshold: int)
    requires forall i :: 0 <= i < |feed| ==> Fresh(feed[i], threshold)
    ensures Processed(feed, lastUpdate, threshold) == []
  {
    if feed != [] {
      AllFreshProcessesNothing(feed[1..], lastUpdate, threshold);
    }
  }

  /** A settled submission exactly at the high-water mark ends the scan before anything is processed. */
  lemma BoundaryIsAlreadySeen(x: Submission, rest: seq<Submission>, lastUpdate: int, threshold: int)
    requires x.createdUtc == lastUpdate <= threshold
    ensures Processed([x] + rest, lastUpdate, threshold) == []
  {
  }

  function Max(a: int, b: int): (m: int)
    ensures a <= m && b <= m && (m == a || m == b)
  {
    if a < b then b else a
  }

  /** The high-water mark after processing `ps`, folded in processing order from `lastUpdate`. */
  function NewUpdate(lastUpdate: int, ps: seq<Submission>): (m: int)
    ensures lastUpdate <= m
  {
    if ps == [] then lastUpdate
    else Max(NewUpdate(lastUpdate, ps[..|ps| - 1]), ps[|ps| - 1].createdUtc)
  }

  /**
   * The folded high-water mark is the maximum of `lastUpdate` and the
   * creation times in `ps`: an upper bound of all of them, attained by one.
   */
  lemma {:induction false} NewUpdateIsMax(lastUpdate: int, ps: seq<Submission>)
    ensures forall s :: s in ps ==> s.createdUtc <= NewUpdate(lastUpdate, ps)
    ensures NewUpdate(lastUpdate, ps) == lastUpdate
         || exists s :: s in ps && s.createdUtc == NewUpdate(lastUpdate, ps)
  {
    if ps != [] {
      var init := ps[..|ps| - 1];
      NewUpdateIsMax(lastUpdate, init);
      assert forall s :: s in ps ==> s in init || s == ps[|ps| - 1];
    }
  }

  /** How many of `ps` have outcome `o`. */
  function Count(ps: seq<Submission>, o: Outcome, linkFlairs: seq<string>): (n: nat)
    ensures n <= |ps|
  {
    if ps == [] then 0
    else
      Count(ps[..|ps| - 1], o, linkFlairs)
      + (if Classify(ps[|ps| - 1], linkFlairs) == o then 1 else 0)
  }

  /** Every submission has exactly one outcome, so the three counts add up to the length. */
  lemma {:induction false} CountsPartition(ps: seq<Submission>, linkFlairs: seq<string>)
    ensures Count(ps, RemovedScreenshot, linkFlairs) + Count(ps, RemovedUntagged, linkFlairs)
          + Count(ps, Ignored, linkFlairs) == |ps|
  {
    if ps != [] {
      CountsPartition(ps[..|ps| - 1], linkFlairs);
    }
  }

  /** A removal that was issued: the submission and the comment template posted on it. */
  datatype Removal = Removal(submission: Submission, template: string)

  /** The removals issued while processing `ps`, in processing order. */
  function Removals(ps: seq<Submission>, linkFlairs: seq<string>): (rs: seq<Removal>)
    ensures |rs| <= |ps|
  {
    if ps == [] then []
    else
      var o := Classify(ps[|ps| - 1], linkFlairs);
      Removals(ps[..|ps| - 1], linkFlairs) + (if o == Ignored then [] else [Removal(ps[|ps| - 1], Template(o))])
  }

  /**
   * A removal is issued for exactly the processed submissions that a rule
   * removes, each with the template of its rule.
   */
  lemma {:induction false} RemovalsSound(ps: seq<Submission>, linkFlairs: seq<string>)
    ensures forall r :: r in Removals(ps, linkFlairs) ==>
      r.submission in ps && Classify(r.submission, linkFlairs) != Ignored
      && r.template == Template(Classify(r.submission, linkFlairs))
    ensures forall s :: s in ps && Classify(s, linkFlairs) != Ignored ==>
      Removal(s, Template(Classify(s, linkFlairs))) in Removals(ps, linkFlairs)
  {
    if ps != [] {
      var init := ps[..|ps| - 1];
      RemovalsSound(init, linkFlairs);
      assert forall s :: s in ps ==> s in init || s == ps[|ps| - 1];
    }
  }

  /** One removal per removed post: as many removals as the two removal counters add up to. */
  lemma {:induction false} RemovalsCounted(ps: seq<Submission>, linkFlairs: seq<string>)
    ensures |Removals(ps, linkFlairs)|
         == Count(ps, RemovedScreenshot, linkFlairs) + Count(ps, RemovedUntagged, linkFlairs)
  {
    if ps != [] {
      RemovalsCounted(ps[..|ps| - 1], linkFlairs);
    }
  }

  /** Processing one more submission `x` after `ps`: how each fold moves. */
  lemma ProcessOneMore(ps: seq<Submission>, x: Submission, lastUpdate: int, linkFlairs: seq<string>)
    ensures NewUpdate(lastUpdate, ps + [x]) == Max(NewUpdate(lastUpdate, ps), x.createdUtc)
    ensures forall o :: (Count(ps + [x], o, linkFlairs)
      == Count(ps, o, linkFlairs) + (if Classify(x, linkFlairs) == o then 1 else 0))
    ensures Removals(ps + [x], linkFlairs) == Removals(ps, linkFlairs)
      + (if Classify(x, linkFlairs) == Ignored then [] else [Removal(x, Template(Classify(x, linkFlairs)))])
  {
  }

  /** How the scan of `feed[i..]` unfolds at position `i`. */
  lemma ScanStep(feed: seq<Submission>, i: nat, lastUpdate: int, threshold: int)
    requires i < |feed|
    ensures Fresh(feed[i], threshold) ==>
      Processed(feed[i..], lastUpdate, threshold) == Processed(feed[i + 1..], lastUpdate, threshold)
    ensures AlreadySeen(feed[i], lastUpdate, threshold) ==> Processed(feed[i..], lastUpdate, threshold) == []
    ensures Eligible(feed[i], lastUpdate, threshold) ==>
      Processed(feed[i..], lastUpdate, threshold) == [feed[i]] + Processed(feed[i + 1..], lastUpdate, threshold)
  {
  }

  /**
   * The new high-water mark of a cycle is at least the old one, at most the
   * threshold when it moved, and is the creation time of the newest
   * processed submission when there is one.
   */
  lemma CycleWindow(feed: seq<Submission>, lastUpdate: int, threshold: int)
    ensures var m := NewUpdate(lastUpdate, Processed(feed, lastUpdate, threshold));
      && lastUpdate <= m
      && (m == lastUpdate || m <= threshold)
      && (Processed(feed, lastUpdate, threshold) == [] ==> m == lastUpdate)
  {
    NewUpdateIsMax(lastUpdate, Processed(feed, lastUpdate, threshold));
  }

  /**
   * An empty feed, or one whose submissions are all fresh, makes a quiet
   * cycle: the high-water mark stays, no counter moves, no removal is issued.
   */
  lemma QuietCycle(feed: seq<Submission>, lastUpdate: int, threshold: int, linkFlairs: seq<string>)
    requires forall i :: 0 <= i < |feed| ==> Fresh(feed[i], threshold)
    ensures var ps := Processed(feed, lastUpdate, threshold);
      && NewUpdate(lastUpdate, ps) == lastUpdate
      && |ps| == 0
      && Count(ps, RemovedScreenshot, linkFlairs) == 0
      && Count(ps, RemovedUntagged, linkFlairs) == 0
      && Count(ps, Ignored, linkFlairs) == 0
      && Removals(ps, linkFlairs) == []
  {
    AllFreshProcessesNothing(feed, lastUpdate, threshold);
  }

  /**
   * What one completed cycle processes is never processed by the next: every
   * submission the next cycle processes was created strictly later than any
   * submission this one processed, whatever its moderation state or flair.
   */
  lemma NoReprocessing(feed: seq<Submission>, next: seq<Submission>, lastUpdate: int, threshold: int, nextThreshold: int, s: Submission)
    requires s in Processed(feed, lastUpdate, threshold)
    ensures forall t :: t in Processed(next, NewUpdate(lastUpdate, Processed(feed, lastUpdate, threshold)), nextThreshold) ==>
      s.createdUtc < t.createdUtc
    ensures s !in Processed(next, NewUpdate(lastUpdate, Processed(feed, lastUpdate, threshold)), nextThreshold)
  {
    NewUpdateIsMax(lastUpdate, Processed(feed, lastUpdate, threshold));
  }
}
