/** The supervisor's wait for both records of the boot child, under a deadline. */
module AcceptanceWait {
  import opened Wrappers
  import opened BundleProtocol

  datatype Reading = Unreadable | Missing | Found(receipt: Receipt)

  /** One turn of the wait: the moments at which the clock is read and what the files say. */
  datatype Poll = Poll(
    exited: bool,
    checkedAt: nat,
    bootstrap: Reading,
    startup: Reading,
    matchedAt: nat,
    comparedAt: nat)

  predicate Matching(p: Poll, expected: Receipt)
  {
    p.bootstrap == Found(expected) && p.startup == Found(expected)
  }

  predicate Healthy(p: Poll, start: nat, timeout: nat)
  {
    !p.exited && p.checkedAt - start < timeout && !p.bootstrap.Unreadable? && !p.startup.Unreadable?
  }

  /** First poll of the unbroken matching stretch that ends at poll i. */
  ghost function StretchStart(polls: nat -> Poll, expected: Receipt, i: nat): (j: nat)
  {
    if i == 0 || !Matching(polls(i - 1), expected) then i else StretchStart(polls, expected, i - 1)
  }

  lemma {:induction false} StretchIsUnbrokenAndMaximal(polls: nat -> Poll, expected: Receipt, i: nat)
    requires Matching(polls(i), expected)
    ensures var j := StretchStart(polls, expected, i);
      && j <= i
      && (forall k :: j <= k <= i ==> Matching(polls(k), expected))
      && (j > 0 ==> !Matching(polls(j - 1), expected))
  {
    if i > 0 && Matching(polls(i - 1), expected) {
      StretchIsUnbrokenAndMaximal(polls, expected, i - 1);
    }
  }

  ghost predicate StableAt(polls: nat -> Poll, expected: Receipt, stable: nat, i: nat)
  {
    && Matching(polls(i), expected)
    && polls(i).comparedAt - polls(StretchStart(polls, expected, i)).matchedAt >= stable
  }

  /** The clock never goes back within a poll and has moved on when the next one begins. */
  ghost predicate TimeAdvances(polls: nat -> Poll, i: nat)
  {
    polls(i).checkedAt <= polls(i).matchedAt <= polls(i).comparedAt < polls(i + 1).checkedAt
  }

  /** Both records match long enough at some poll before anything goes wrong. */
  ghost predicate Accepting(polls: nat -> Poll, expected: Receipt, start: nat, timeout: nat, stable: nat)
  {
    exists i: nat :: StableAt(polls, expected, stable, i) && forall k: nat :: k <= i ==>
      Healthy(polls(k), start, timeout)
  }

  /**
   * Returns the receipt at the first poll at which both records had matched long enough, unless
   * an unhealthy poll came earlier; it ends because every poll advances the clock.
   */
  method WaitForAcceptance(polls: nat -> Poll, expected: Receipt, start: nat, timeout: nat, stable: nat)
    returns (r: Option<Receipt>, last: nat)
    requires start <= polls(0).checkedAt
    requires forall i: nat :: TimeAdvances(polls, i)
    ensures forall i: nat :: i < last ==> Healthy(polls(i), start, timeout) && !StableAt(polls, expected, stable, i)
    ensures r.Some? ==>
      r == Some(expected) && Healthy(polls(last), start, timeout) && StableAt(polls, expected, stable, last)
    ensures r.None? ==> !Healthy(polls(last), start, timeout)
    ensures r.Some? <==> Accepting(polls, expected, start, timeout, stable)
  {
    var receivedAt: Option<nat> := None;
    last := 0;
    while true
      invariant forall i: nat :: i < last ==> Healthy(polls(i), start, timeout) && !StableAt(polls, expected, stable, i)
      invariant start <= polls(last).checkedAt
      invariant receivedAt.Some? <==> last > 0 && Matching(polls(last - 1), expected)
      invariant receivedAt.Some? ==> receivedAt.value == polls(StretchStart(polls, expected, last - 1)).matchedAt
      decreases start + timeout - polls(last).checkedAt
    {
      var p := polls(last);
      assert TimeAdvances(polls, last);
      if p.exited { return None, last; }
      if p.checkedAt - start >= timeout { return None, last; }
      if p.bootstrap.Unreadable? || p.startup.Unreadable? { return None, last; }
      if p.bootstrap.Found? && p.startup.Found? && p.startup.receipt == expected && p.bootstrap.receipt == expected {
        if receivedAt.None? {
          receivedAt := Some(p.matchedAt);
        }
        if p.comparedAt - receivedAt.value >= stable {
          assert StableAt(polls, expected, stable, last) && forall k: nat :: k <= last ==>
            Healthy(polls(k), start, timeout);
          return Some(p.startup.receipt), last;
        }
      } else {
        receivedAt := None;
      }
      last := last + 1;
    }
  }
}
