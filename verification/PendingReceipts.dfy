/**
 * What becomes of a receipt whose action was started but never settled, when everything that is
 * observed of it afterwards comes after its compensation deadline.
 */
module PendingReceipts {
  import opened Wrappers
  import opened ActionGovernance
  import opened ReceiptLedger
  import opened ReceiptRuns

  /** Started, and nobody has recorded an outcome. */
  predicate StartedAndPending(l: Ledger, id: string)
  {
    id in l.rows && l.rows[id].status == Pending && l.rows[id].startedAt.Some?
  }

  /**
   * A gate that can still settle the receipt by itself: it may call the adapter, or holds an outcome that can be
   * recorded.
   */
  predicate CanSettle(l: Ledger, p: Progress, id: string)
  {
    || (p.Permitted? && p.permit.receiptId == id)
    || ((p.Executed? || p.Queried?) && p.receiptId == id && Finalize(l, id, p.report).Some?)
  }

  ghost predicate InGoodHands(w: World, id: string)
  {
    exists g :: g in w.gates && CanSettle(w.ledger, w.gates[g], id)
  }

  /** An answer about the receipt, if there is one, reports a success observed after its deadline. */
  predicate ObservedLate(w: World, ev: Event, id: string, deadline: int)
  {
    ev.DoQuery? && ev.gate in w.gates && w.gates[ev.gate].FoundStarted? && w.gates[ev.gate].receiptId == id &&
      ev.answer.Some?
    ==> (ev.answer.value.outcome == OutcomeSucceeded && ev.answer.value.deadline == Some(deadline) &&
      deadline < ev.observedAt)
  }

  ghost predicate LateAt(h: Hashes, events: seq<Event>, more: seq<Event>, i: nat, id: string, deadline: int)
    requires i < |more|
  {
    ObservedLate(Run(EMPTY, h, events + more[..i]), more[i], id, deadline)
  }

  /** After some events, everything that is still observed of the receipt is observed late. */
  ghost predicate AllLate(h: Hashes, events: seq<Event>, more: seq<Event>, id: string, deadline: int)
  {
    forall i: nat :: i < |more| ==> LateAt(h, events, more, i, id, deadline)
  }

  /** An event leaves the receipt as it is, and in nobody's hands. */
  lemma LateStepKeepsPending(w: World, h: Hashes, ev: Event, id: string, deadline: int)
    requires StartedAndPending(w.ledger, id) && !InGoodHands(w, id) && ObservedLate(w, ev, id, deadline)
    ensures var t := Apply(w, h, ev);
      id in t.ledger.rows && t.ledger.rows[id] == w.ledger.rows[id] && !InGoodHands(t, id)
    ensures StartedAndPending(Apply(w, h, ev).ledger, id)
  {
    var t := Apply(w, h, ev);
    RowStays(w, h, ev, id);
    forall g | g in t.gates ensures !CanSettle(t.ledger, t.gates[g], id) {
      if g in w.gates && t.gates[g] == w.gates[g] {
        assert !CanSettle(w.ledger, w.gates[g], id);
      } else {
        NewProgressSettlesNothing(w, h, ev, id, deadline);
      }
    }
  }

  lemma RowStays(w: World, h: Hashes, ev: Event, id: string)
    requires StartedAndPending(w.ledger, id) && !InGoodHands(w, id)
    ensures var t := Apply(w, h, ev); id in t.ledger.rows && t.ledger.rows[id] == w.ledger.rows[id]
  {
    assert ev.gate in w.gates ==> !CanSettle(w.ledger, w.gates[ev.gate], id);
  }

  lemma NewProgressSettlesNothing(w: World, h: Hashes, ev: Event, id: string, deadline: int)
    requires StartedAndPending(w.ledger, id) && !InGoodHands(w, id) && ObservedLate(w, ev, id, deadline)
    requires ev.gate in Apply(w, h, ev).gates
    requires ev.gate in w.gates ==> Apply(w, h, ev).gates[ev.gate] != w.gates[ev.gate]
    ensures !CanSettle(Apply(w, h, ev).ledger, Apply(w, h, ev).gates[ev.gate], id)
  {
    assert ev.gate in w.gates ==> !CanSettle(w.ledger, w.gates[ev.gate], id);
    RowStays(w, h, ev, id);
  }

  lemma {:induction false} LateRunKeepsPending(h: Hashes, events: seq<Event>, more: seq<Event>, id: string,
                                               deadline: int)
    requires var w := Run(EMPTY, h, events); StartedAndPending(w.ledger, id) && !InGoodHands(w, id)
    requires AllLate(h, events, more, id, deadline)
    ensures var t := Run(EMPTY, h, events + more); StartedAndPending(t.ledger, id) && !InGoodHands(t, id)
    decreases |more|
  {
    hide Run, Apply, StartedAndPending, InGoodHands, ObservedLate;
    if more == [] {
      assert events + more == events;
    } else {
      var n := |more| - 1;
      var front := more[..n];
      forall i: nat | i < n ensures LateAt(h, events, front, i, id, deadline) {
        assert LateAt(h, events, more, i, id, deadline) && front[..i] == more[..i];
      }
      LateRunKeepsPending(h, events, front, id, deadline);
      assert events + more == events + front + [more[n]];
      RunOneMore(EMPTY, h, events + front, more[n]);
      assert LateAt(h, events, more, n, id, deadline);
      LateStepKeepsPending(Run(EMPTY, h, events + front), h, more[n], id, deadline);
    }
  }

  lemma Recorded(w: World, h: Hashes, g: nat, id: string)
    requires g in w.gates && (w.gates[g].Executed? || w.gates[g].Queried?) && w.gates[g].receiptId == id
    requires Finalize(w.ledger, id, w.gates[g].report).Some?
    ensures var t := Apply(w, h, if w.gates[g].Executed? then DoFinalize(g) else DoFinalizeQueried(g));
      id in t.ledger.rows && t.ledger.rows[id].status != Pending
  {
  }

  lemma ExecutedWithoutSuccess(w: World, h: Hashes, g: nat, id: string)
    requires StartedAndPending(w.ledger, id) && g in w.gates && w.gates[g].Permitted? &&
      w.gates[g].permit.receiptId == id
    ensures var failed := Report(OutcomeFailed, None, None, w.ledger.rows[id].startedAt.value, None);
      var t := Apply(Apply(w, h, DoExecute(g, failed)), h, DoFinalize(g));
      id in t.ledger.rows && t.ledger.rows[id].status != Pending
  {
    var failed := Report(OutcomeFailed, None, None, w.ledger.rows[id].startedAt.value, None);
    Recorded(Apply(w, h, DoExecute(g, failed)), h, g, id);
  }

  /** A gate that can settle the receipt settles it, without anything being observed. */
  lemma GoodHandsSettle(h: Hashes, events: seq<Event>, id: string, deadline: int) returns (more: seq<Event>)
    requires var w := Run(EMPTY, h, events); StartedAndPending(w.ledger, id) && InGoodHands(w, id)
    ensures AllLate(h, events, more, id, deadline)
    ensures id in Run(EMPTY, h, events + more).ledger.rows &&
      Run(EMPTY, h, events + more).ledger.rows[id].status != Pending
  {
    hide Apply, Run, Finalize;
    var w := Run(EMPTY, h, events);
    var g :| g in w.gates && CanSettle(w.ledger, w.gates[g], id);
    if w.gates[g].Permitted? {
      var failed := Report(OutcomeFailed, None, None, w.ledger.rows[id].startedAt.value, None);
      more := [DoExecute(g, failed), DoFinalize(g)];
      assert events + more == events + [DoExecute(g, failed)] + [DoFinalize(g)];
      RunOneMore(EMPTY, h, events, DoExecute(g, failed));
      RunOneMore(EMPTY, h, events + [DoExecute(g, failed)], DoFinalize(g));
      ExecutedWithoutSuccess(w, h, g, id);
    } else {
      var ev := if w.gates[g].Executed? then DoFinalize(g) else DoFinalizeQueried(g);
      more := [ev];
      RunOneMore(EMPTY, h, events, ev);
      Recorded(w, h, g, id);
    }
  }

  /**
   * A started receipt stays pending through every continuation in which it is observed only after its
   * deadline, if and only if no live gate may still call the adapter for it or holds a recordable outcome.
   */
  lemma PendingForEverIffInNoGoodHands(h: Hashes, events: seq<Event>, id: string, deadline: int)
    requires StartedAndPending(Run(EMPTY, h, events).ledger, id)
    ensures !InGoodHands(Run(EMPTY, h, events), id) <==>
      forall more :: AllLate(h, events, more, id, deadline) ==>
        StartedAndPending(Run(EMPTY, h, events + more).ledger, id)
  {
    if InGoodHands(Run(EMPTY, h, events), id) {
      var more := GoodHandsSettle(h, events, id, deadline);
      assert AllLate(h, events, more, id, deadline) && !StartedAndPending(Run(EMPTY, h, events + more).ledger, id);
    } else {
      forall more | AllLate(h, events, more, id, deadline)
        ensures StartedAndPending(Run(EMPTY, h, events + more).ledger, id)
      {
        LateRunKeepsPending(h, events, more, id, deadline);
      }
    }
  }

  // ---- a run that ends there ----

  /** What a runner got from the adapter and did not live to record: a success at 1, to be undone until 1. */
  const UNRECORDED := Report(OutcomeSucceeded, Some("x"), Some("t:1"), 1, Some(1))

  /** A gate starts, calls its adapter, and is gone before it records the outcome. */
  function Abandonment(): seq<Event>
  {
    [DoReserve(0, "w", RACE_REQUEST, RACE_POLICY, None, 1), DoStart(0), DoExecute(0, UNRECORDED), Stop(0)]
  }

  /** A reconciliation that observes the success at a given time. */
  function Attempt(at: int): seq<Event>
  {
    [DoRead(1, "id", "w", at), DoQuery(1, at, Some(UNRECORDED.(completedAt := at))), DoFinalizeQueried(1)]
  }

  lemma RunOfThree(h: Hashes, events: seq<Event>, a: Event, b: Event, c: Event)
    ensures Run(EMPTY, h, events + [a, b, c]) == Apply(Apply(Apply(Run(EMPTY, h, events), h, a), h, b), h, c)
  {
    hide Apply;
    RunOneMore(EMPTY, h, events, a);
    RunOneMore(EMPTY, h, events + [a], b);
    RunOneMore(EMPTY, h, events + [a] + [b], c);
    assert events + [a, b, c] == events + [a] + [b] + [c];
  }

  /** The action was executed, its receipt is pending, and no gate is left. */
  lemma AbandonmentLeavesItPending()
    ensures Run(EMPTY, RaceHashes(), Abandonment()).ledger == RaceLedger(Pending, Some(1), None)
    ensures Run(EMPTY, RaceHashes(), Abandonment()).gates == map[] &&
      Called(Run(EMPTY, RaceHashes(), Abandonment()), "id")
  {
    hide Apply, Reserve, Evaluate, Called;
    var h, e := RaceHashes(), Abandonment();
    RunOneMore(EMPTY, h, [], e[0]);
    RunOfThree(h, [e[0]], e[1], e[2], e[3]);
    assert [] + [e[0]] == [e[0]] && e == [e[0]] + [e[1], e[2], e[3]];
    RaceBegins();
    RunnerIsLost(Apply(Apply(EMPTY, h, e[0]), h, e[1]));
  }

  lemma RunnerIsLost(w: World)
    requires RaceStarted(w)
    ensures var t := Apply(Apply(w, RaceHashes(), DoExecute(0, UNRECORDED)), RaceHashes(), Stop(0));
      t.ledger == w.ledger && t.gates == map[] && Called(t, "id")
  {
    var t := Apply(Apply(w, RaceHashes(), DoExecute(0, UNRECORDED)), RaceHashes(), Stop(0));
    assert t.calls[0].receiptId == "id";
  }

  /** From there it stays pending for ever under late observations. */
  lemma AbandonedStaysPending(more: seq<Event>)
    ensures AllLate(RaceHashes(), Abandonment(), more, "id", 1)
      ==> StartedAndPending(Run(EMPTY, RaceHashes(), Abandonment() + more).ledger, "id")
  {
    AbandonmentLeavesItPending();
    PendingForEverIffInNoGoodHands(RaceHashes(), Abandonment(), "id", 1);
  }

  /** A reconciliation of it records the success if it still sees it at 1, and changes nothing if it sees it later. */
  lemma AttemptFromAbandonment(at: int)
    requires at >= 1
    ensures var l := Run(EMPTY, RaceHashes(), Abandonment() + Attempt(at)).ledger;
      if at == 1 then "id" in l.rows && l.rows["id"].status == Succeeded else l == RaceLedger(Pending, Some(1), None)
  {
    hide Reserve, Evaluate, Called;
    var h, e, a := RaceHashes(), Abandonment(), Attempt(at);
    AbandonmentLeavesItPending();
    RunOfThree(h, e, a[0], a[1], a[2]);
    var w := Run(EMPTY, h, e);
    NotBlank("x");
    var w1 := Apply(w, h, a[0]);
    assert w1 == w.(gates := map[1 := FoundStarted("id", at)]);
    var w2 := Apply(w1, h, a[1]);
    assert w2 == w1.(gates := map[1 := Queried("id", UNRECORDED.(completedAt := at))]);
  }

  /** A reconciliation at 2 changes nothing; one whose clock still reads 1 records the success. */
  lemma OnlyTheLateObservationFails()
    ensures StartedAndPending(Run(EMPTY, RaceHashes(), Abandonment() + Attempt(2)).ledger, "id")
    ensures var l := Run(EMPTY, RaceHashes(), Abandonment() + Attempt(1)).ledger;
      "id" in l.rows && l.rows["id"].status == Succeeded
  {
    AttemptFromAbandonment(1);
    AttemptFromAbandonment(2);
  }
}
