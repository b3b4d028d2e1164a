/** The run-wide counters of the moderation loop. */
module Stats {

  /**
   * Counters that accumulate for the life of the process: every processed
   * post, and how many of them were ignored or removed under each rule.
   */
  class Statistics {
    var allPosts: nat
    var ignoredPosts: nat
    var removedScreenshots: nat
    var removedUntagged: nat

    /** Every processed post is accounted for by exactly one outcome counter. */
    ghost predicate Balanced()
      reads this
    {
      allPosts == removedScreenshots + removedUntagged + ignoredPosts
    }

    constructor ()
      ensures allPosts == 0 && ignoredPosts == 0
      ensures removedScreenshots == 0 && removedUntagged == 0
      ensures Balanced()
    {
      allPosts := 0;
      ignoredPosts := 0;
      removedScreenshots := 0;
      removedUntagged := 0;
    }
  }
}
