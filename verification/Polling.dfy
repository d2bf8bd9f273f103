/** How long a thread looks for work before it sleeps, and what makes it stop looking. */
module Polling {
  import opened EventService
  import opened Stealing

  /** The next step of the thread sees no reason to leave the polling: no work, and no
      stop flag where that is looked at. The first hundred polls do not look at it. */
  predicate SeesNothing(x: Thread) {
    match x.pc
    case Top => !x.stop && x.expected <= 0
    case PollCheck(i) => x.expected <= 0 && !(x.stop && i >= 100)
    case SyncFirst => x.count == 0
    case _ => true
  }

  /** Where a thread that has seen nothing stands after so many steps from the top: six
      hundred polls of two steps, then the first try of the wait, then its mutex. */
  function StandsAt(j: nat): Pc {
    if j == 0 then Top
    else if j <= 1200 then (if j % 2 == 1 then PollReset((j - 1) / 2) else PollCheck(j / 2 - 1))
    else if j == 1201 then SyncFirst
    else SyncLock
  }

  lemma {:induction false} PollsOn(steal: bool, n: nat, t: nat, xs: seq<Thread>, ks: seq<Worker>, j: nat)
    requires Follows(steal, n, t, xs, ks) && xs[0].pc == Top && j < |xs| <= 1203
    requires forall i | 0 <= i < j :: SeesNothing(xs[i])
    ensures xs[j].pc == StandsAt(j)
    decreases j
  {
    if j > 0 { PollsOn(steal, n, t, xs, ks, j - 1); }
  }

  /** A thread goes for its mutex, to sleep, if and only if it sees nothing in six
      hundred polls and in one more try. What it sees sends it to its job at once, but
      the stop flag at the top of the loop, which ends it. */
  lemma SleepsAfterPolling(steal: bool, n: nat, t: nat, xs: seq<Thread>, ks: seq<Worker>)
    requires Follows(steal, n, t, xs, ks) && xs[0].pc == Top && |ks| == 1202
    ensures (forall i | 0 <= i < 1202 :: SeesNothing(xs[i])) ==> xs[1202].pc == SyncLock
    ensures forall j | 0 <= j < 1202 && (forall i | 0 <= i < j :: SeesNothing(xs[i])) ::
              xs[j].pc == StandsAt(j)
              && (!SeesNothing(xs[j]) ==> xs[j + 1].pc == if j == 0 && xs[j].stop then Exited else Job)
  {
    if forall i | 0 <= i < 1202 :: SeesNothing(xs[i]) { PollsOn(steal, n, t, xs, ks, 1202); }
    forall j | 0 <= j < 1202 && (forall i | 0 <= i < j :: SeesNothing(xs[i]))
      ensures xs[j].pc == StandsAt(j)
              && (!SeesNothing(xs[j]) ==> xs[j + 1].pc == if j == 0 && xs[j].stop then Exited else Job)
    {
      PollsOn(steal, n, t, xs, ks, j);
    }
  }

  /** A poll is two steps: all of the counter is moved to what is expected. */
  lemma PollTakesAll(steal: bool, n: nat, t: nat, x: Thread, k: Worker, i: nat)
    requires x.pc == PollReset(i)
    ensures var x' := ThreadStep(steal, n, t, x, k).0;
            x'.count == 0 && x'.expected == x.expected + x.count && x'.pc == PollCheck(i)
  {
  }
}
