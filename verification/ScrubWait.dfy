/** Waiting for all placement groups to be scrubbed, giving up when progress stops. */
module ScrubWait {

  const RETRIES: nat := 40

  /** One sample: for each placement group, whether its scrub stamp is newer than the request. */
  type Stats = seq<bool>

  function Good(s: Stats): (n: nat)
    ensures n <= |s|
    ensures n == |s| <==> forall i :: 0 <= i < |s| ==> s[i]
    ensures n == multiset(s)[true]
  {
    if s == [] then 0
    else
      assert s == s[..|s| - 1] + [s[|s| - 1]];
      Good(s[..|s| - 1]) + if s[|s| - 1] then 1 else 0
  }

  ghost predicate AllScrubbed(s: Stats) {
    forall i :: 0 <= i < |s| ==> s[i]
  }

  /** The inner loop: how many are newer, and whether any is not. */
  method Tally(s: Stats) returns (count: nat, loop: bool)
    ensures count == Good(s)
    ensures loop <==> !AllScrubbed(s)
  {
    count, loop := 0, false;
    for k := 0 to |s|
      invariant count == Good(s[..k])
      invariant loop <==> exists i :: 0 <= i < k && !s[i]
    {
      assert s[..k + 1][..k] == s[..k];
      if s[k] {
        count := count + 1;
      } else {
        loop := true;
      }
    }
    assert s[..|s|] == s;
  }

  /** No sample from `a` up to `b` has more scrubbed groups than some sample before `a`. */
  ghost predicate NoProgress(stats: nat -> Stats, a: nat, b: nat) {
    forall k: nat :: a <= k < b ==> Good(stats(k)) == 0 || exists j: nat :: j < a && Good(stats(k)) <= Good(stats(j))
  }

  lemma Budget(n: nat, prev: nat, gaps: nat)
    requires prev <= n && gaps <= RETRIES
    ensures prev * (RETRIES + 1) + gaps < (n + 1) * (RETRIES + 1)
    ensures (prev + 1) * (RETRIES + 1) == prev * (RETRIES + 1) + RETRIES + 1
  {
  }

  /** The last retries + 1 of the first `u` samples brought no progress. */
  ghost predicate StuckAfter(stats: nat -> Stats, u: nat) {
    u > RETRIES && NoProgress(stats, u - 1 - RETRIES, u)
  }

  /** `prev` is the most that any of the first `used` samples had, and `best` the first that had it. */
  ghost predicate IsBest(stats: nat -> Stats, used: nat, best: nat, prev: nat) {
    && (forall k: nat :: k < used ==> Good(stats(k)) <= prev)
    && (prev > 0 ==> best < used && Good(stats(best)) == prev && forall k: nat :: k < best ==> Good(stats(k)) < prev)
  }

  lemma BestNext(stats: nat -> Stats, used: nat, best: nat, prev: nat)
    requires IsBest(stats, used, best, prev)
    ensures var now := Good(stats(used));
            if now > prev then IsBest(stats, used + 1, used, now) else IsBest(stats, used + 1, best, prev)
  {
    hide Good;
  }

  /** A new best within the last retries + 1 samples is progress. */
  lemma StillMoving(stats: nat -> Stats, best: nat, used: nat, prev: nat)
    requires used > RETRIES && used - 1 - RETRIES <= best < used
    requires prev > 0 && IsBest(stats, used, best, prev)
    ensures !StuckAfter(stats, used)
  {
    hide Good;
  }

  /** If the best is older than that, there was none. */
  lemma NothingNew(stats: nat -> Stats, best: nat, used: nat, prev: nat)
    requires used > RETRIES && IsBest(stats, used, best, prev)
    requires prev > 0 ==> best < used - 1 - RETRIES
    ensures StuckAfter(stats, used) && NoProgress(stats, used - 1 - RETRIES, used)
  {
    hide Good;
  }

  lemma NotStuckYet(stats: nat -> Stats)
    ensures forall u: nat :: u <= RETRIES ==> !StuckAfter(stats, u)
    ensures IsBest(stats, 0, 0, 0)
  {
  }

  /** With the number of groups fixed, a sample that brings no progress is not the completing one. */
  lemma GivesUpIncomplete(n: nat, stats: nat -> Stats, used: nat, prevGood: nat, best: nat)
    requires used >= 2
    requires forall k: nat :: k < used - 1 ==> !AllScrubbed(stats(k))
    requires IsBest(stats, used, best, prevGood) && (prevGood > 0 ==> best < used - 1)
    ensures (forall k :: |stats(k)| == n) ==> !AllScrubbed(stats(used - 1))
  {
    assert !AllScrubbed(stats(0));
    assert prevGood > 0 ==> !AllScrubbed(stats(best));
  }

  /**
   `stats(k)` is the k-th sample taken, of at most `n` placement groups.  Ends within
   (n + 1) * (retries + 1) samples: well if the last sample has everything scrubbed, by
   giving up if the last retries + 1 samples brought no progress.
   */
  method WaitForScrub(n: nat, stats: nat -> Stats) returns (ok: bool, used: nat)
    requires forall k :: |stats(k)| <= n
    ensures 0 < used <= (n + 1) * (RETRIES + 1)
    ensures ok ==> AllScrubbed(stats(used - 1))
    ensures forall k: nat :: k < used - 1 ==> !AllScrubbed(stats(k))
    ensures !ok ==> used > RETRIES && NoProgress(stats, used - 1 - RETRIES, used)
    ensures !ok <==> StuckAfter(stats, used)
    ensures forall u: nat :: u < used ==> !StuckAfter(stats, u)
    ensures (forall k :: |stats(k)| == n) ==> (ok <==> AllScrubbed(stats(used - 1)))
  {
    hide Good, AllScrubbed, NoProgress, StuckAfter, IsBest;
    NotStuckYet(stats);
    var prevGood, gapCnt, loop := 0, 0, true;
    ghost var best: nat := 0;
    used := 0;
    while loop
      invariant prevGood <= n && gapCnt <= RETRIES && gapCnt <= used
      invariant used <= prevGood * (RETRIES + 1) + gapCnt
      invariant loop ==> forall k: nat :: k < used ==> !AllScrubbed(stats(k))
      invariant !loop ==> used > 0 && AllScrubbed(stats(used - 1)) && forall k: nat :: k < used - 1 ==> !AllScrubbed(stats(k))
      invariant IsBest(stats, used, best, prevGood)
      invariant prevGood > 0 ==> best == used - 1 - gapCnt
      invariant prevGood == 0 ==> gapCnt == used
      invariant forall u: nat :: u <= used ==> !StuckAfter(stats, u)
      decreases loop, n - prevGood, RETRIES - gapCnt
    {
      Budget(n, prevGood, gapCnt);
      var s := stats(used);
      used := used + 1;
      var thisCnt;
      thisCnt, loop := Tally(s);
      BestNext(stats, used - 1, best, prevGood);
      if thisCnt > prevGood {
        prevGood := thisCnt;
        gapCnt := 0;
        best := used - 1;
      } else {
        gapCnt := gapCnt + 1;
        if gapCnt > RETRIES {
          GivesUpIncomplete(n, stats, used, prevGood, best);
          NothingNew(stats, best, used, prevGood);
          return false, used;
        }
      }
      if used > RETRIES {
        StillMoving(stats, best, used, prevGood);
      }
    }
    return true, used;
  }
}
