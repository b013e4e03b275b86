/**
 * Any number of gates working on one ledger: each step is one serialised transaction, one read, or
 * one call to an adapter, and any gate may stop for good between two of its steps.
 */
module ReceiptRuns {
  import opened Wrappers
  import opened ActionGovernance
  import opened ReceiptLedger
  import opened Text

  /** What only a gate can hand to an adapter. */
  datatype Permit = Permit(receiptId: string, workspace: string, requestHash: string, idempotencyKey: string,
                           target: string)

  /** How far one gate has come. */
  datatype Progress =
    | Reserved(receiptId: string, at: int)
    | Permitted(permit: Permit)
    | Executed(receiptId: string, report: Report)
    | FoundUnstarted(receiptId: string, at: int)
    | FoundStarted(receiptId: string, at: int)
    | Queried(receiptId: string, report: Report)
    | Compensating(receiptId: string, now: int, reference: string, target: string, deadline: int)
    | Compensated(receiptId: string, at: int)

  datatype World = World(ledger: Ledger, gates: map<nat, Progress>, calls: seq<Permit>)

  /** What an adapter answers to a query; None while it cannot tell. */
  datatype Event =
    | DoReserve(gate: nat, workspace: string, request: ActionRequest, policy: ActionPolicy,
      capability: Option<Verified>, now: int)
    | DoStart(gate: nat)
    | DoExecute(gate: nat, report: Report)
    | DoFinalize(gate: nat)
    | DoRead(gate: nat, receiptId: string, workspace: string, at: int)
    | DoFailBefore(gate: nat)
    | DoQuery(gate: nat, observedAt: int, answer: Option<Report>)
    | DoFinalizeQueried(gate: nat)
    | DoReadForCompensation(gate: nat, receiptId: string, workspace: string, now: int)
    | DoCompensate(gate: nat, reference: string, target: string, completedAt: int)
    | DoMark(gate: nat)
    | Stop(gate: nat)

  function PermitFor(id: string, c: Receipt): Permit
  {
    Permit(id, c.workspace, c.requestHash, c.idempotencyKey, c.request.target)
  }

  function Leave(w: World, gate: nat): World
  {
    w.(gates := w.gates - {gate})
  }

  function Continue(w: World, gate: nat, l: Ledger, p: Progress): World
  {
    w.(ledger := l, gates := w.gates[gate := p])
  }

  /** Ends a gate's operation with the committed ledger, or without effect. */
  function Finish(w: World, gate: nat, l: Option<Ledger>): World
  {
    if l.Some? then Leave(w, gate).(ledger := l.value) else Leave(w, gate)
  }

  predicate Compensable(c: Receipt, workspace: string, now: int)
  {
    && c.workspace == workspace && c.status == Succeeded && c.compensatedAt.None? && c.request.reversible
    && c.reference.Some? && c.target == Some(c.request.target) && c.deadline.Some? && now <= c.deadline.value
  }

  /** The effect of an event; an event that cannot happen now changes nothing. */
  function Apply(w: World, h: Hashes, ev: Event): World
  {
    match ev
    case DoReserve(gate, workspace, request, policy, capability, now) =>
      if gate in w.gates then w
      else
        var reserved := Reserve(w.ledger, h, workspace, request, policy, capability, now);
        if reserved.None? then w else Continue(w, gate, reserved.value.0, Reserved(reserved.value.1, now))
    case DoStart(gate) =>
      if gate in w.gates && w.gates[gate].Reserved? then
        var p := w.gates[gate];
        var started := StartExecution(w.ledger, p.receiptId, p.at);
        if started.None? then Leave(w, gate)
        else Continue(w, gate, started.value, Permitted(PermitFor(p.receiptId, started.value.rows[p.receiptId])))
      else w
    case DoExecute(gate, report) =>
      if gate in w.gates && w.gates[gate].Permitted? then
        var permit := w.gates[gate].permit;
        Continue(w, gate, w.ledger, Executed(permit.receiptId, report)).(calls := w.calls + [permit])
      else w
    case DoFinalize(gate) =>
      if gate in w.gates && w.gates[gate].Executed?
      then Finish(w, gate, Finalize(w.ledger, w.gates[gate].receiptId, w.gates[gate].report)) else w
    case DoRead(gate, id, workspace, at) =>
      if gate in w.gates || id !in w.ledger.rows || w.ledger.rows[id].workspace != workspace ||
        w.ledger.rows[id].status != Pending then w
      else Continue(w, gate, w.ledger, if w.ledger.rows[id].startedAt.None? then FoundUnstarted(id, at)
        else FoundStarted(id, at))
    case DoFailBefore(gate) =>
      if gate in w.gates && w.gates[gate].FoundUnstarted?
      then Finish(w, gate, FailBeforeExecution(w.ledger, w.gates[gate].receiptId, w.gates[gate].at)) else w
    case DoQuery(gate, observedAt, answer) =>
      if gate in w.gates && w.gates[gate].FoundStarted? then
        if answer.None? || observedAt != w.gates[gate].at then Leave(w, gate)
        else Continue(w, gate, w.ledger, Queried(w.gates[gate].receiptId, answer.value.(completedAt := observedAt)))
      else w
    case DoFinalizeQueried(gate) =>
      if gate in w.gates && w.gates[gate].Queried?
      then Finish(w, gate, Finalize(w.ledger, w.gates[gate].receiptId, w.gates[gate].report)) else w
    case DoReadForCompensation(gate, id, workspace, now) =>
      if gate in w.gates || id !in w.ledger.rows || !Compensable(w.ledger.rows[id], workspace, now) then w
      else
        var c := w.ledger.rows[id];
        Continue(w, gate, w.ledger, Compensating(id, now, c.reference.value, c.target.value, c.deadline.value))
    case DoCompensate(gate, reference, target, completedAt) =>
      if gate in w.gates && w.gates[gate].Compensating? then
        var p := w.gates[gate];
        if reference != p.reference || target != p.target || completedAt < p.now || completedAt > p.deadline then
          Leave(w, gate)
        else Continue(w, gate, w.ledger, Compensated(p.receiptId, completedAt))
      else w
    case DoMark(gate) =>
      if gate in w.gates && w.gates[gate].Compensated?
      then Finish(w, gate, MarkCompensated(w.ledger, w.gates[gate].receiptId, w.gates[gate].at)) else w
    case Stop(gate) => Leave(w, gate)
  }

  function Run(w: World, h: Hashes, events: seq<Event>): World
  {
    if events == [] then w else Apply(Run(w, h, events[..|events| - 1]), h, events[|events| - 1])
  }

  const EMPTY := World(Ledger(map[], map[]), map[], [])

  // ---- the invariant ----

  /** A permit is backed by a committed receipt whose start is recorded. */
  predicate Backed(l: Ledger, p: Permit)
  {
    p.receiptId in l.rows && l.rows[p.receiptId].startedAt.Some? && p == PermitFor(p.receiptId, l.rows[p.receiptId])
  }

  predicate SoundProgress(l: Ledger, p: Progress)
  {
    match p
    case Permitted(permit) => Backed(l, permit)
    case Compensating(id, now, reference, target, deadline) =>
      id in l.rows && l.rows[id].status == Succeeded && l.rows[id].request.reversible &&
        l.rows[id].deadline == Some(deadline)
    case Compensated(id, at) =>
      id in l.rows && l.rows[id].status == Succeeded && l.rows[id].request.reversible
      && l.rows[id].deadline.Some? && at <= l.rows[id].deadline.value
    case _ => true
  }

  /** Nobody else holds, or ever used, a permit for a receipt that some gate may still execute. */
  ghost predicate Exclusive(w: World)
  {
    && (forall i, j :: 0 <= i < j < |w.calls| ==> w.calls[i].receiptId != w.calls[j].receiptId)
    && (forall g, i :: g in w.gates && w.gates[g].Permitted? && 0 <= i < |w.calls| ==>
      w.gates[g].permit.receiptId != w.calls[i].receiptId)
    && (forall f, g :: f in w.gates && g in w.gates && f != g && w.gates[f].Permitted? && w.gates[g].Permitted? ==>
          w.gates[f].permit.receiptId != w.gates[g].permit.receiptId)
  }

  ghost predicate Invariant(w: World, h: Hashes)
  {
    && Sound(w.ledger, h)
    && Exclusive(w)
    && (forall i :: 0 <= i < |w.calls| ==> Backed(w.ledger, w.calls[i]))
    && (forall g :: g in w.gates ==> SoundProgress(w.ledger, w.gates[g]))
  }

  /** What was backed by a ledger is backed by every later one. */
  lemma GrowthKeepsBacking(w: World, l: Ledger)
    requires Grows(w.ledger, l)
    requires forall i :: 0 <= i < |w.calls| ==> Backed(w.ledger, w.calls[i])
    requires forall g :: g in w.gates ==> SoundProgress(w.ledger, w.gates[g])
    ensures forall i :: 0 <= i < |w.calls| ==> Backed(l, w.calls[i])
    ensures forall g :: g in w.gates ==> SoundProgress(l, w.gates[g])
  {
    forall i | 0 <= i < |w.calls| ensures Backed(l, w.calls[i]) {
      assert Backed(w.ledger, w.calls[i]);
    }
    forall g | g in w.gates ensures SoundProgress(l, w.gates[g]) {
      assert SoundProgress(w.ledger, w.gates[g]);
    }
  }

  /** A gate ends, or goes on without a permit, on a ledger that has grown. */
  lemma QuietStepKeepsInvariant(w: World, h: Hashes, t: World, gate: nat)
    requires Invariant(w, h) && Sound(t.ledger, h) && Grows(w.ledger, t.ledger) && t.calls == w.calls
    requires t.gates - {gate} == w.gates - {gate}
    requires gate in t.gates ==> !t.gates[gate].Permitted? && SoundProgress(t.ledger, t.gates[gate])
    ensures Invariant(t, h)
  {
    GrowthKeepsBacking(w, t.ledger);
    forall g | g in t.gates && g != gate ensures g in w.gates && t.gates[g] == w.gates[g] {
      assert g in (t.gates - {gate});
      assert (t.gates - {gate})[g] == (w.gates - {gate})[g];
    }
  }

  /** A permit may be handed out for a receipt whose start was not recorded before. */
  lemma PermitIsExclusive(w: World, h: Hashes, l: Ledger, gate: nat, p: Permit)
    requires Invariant(w, h)
    requires p.receiptId in w.ledger.rows && w.ledger.rows[p.receiptId].startedAt.None?
    ensures Exclusive(Continue(w, gate, l, Permitted(p)))
  {
    hide Sound;
    forall i | 0 <= i < |w.calls| ensures w.calls[i].receiptId != p.receiptId {
      assert Backed(w.ledger, w.calls[i]);
    }
    forall g | g in w.gates && w.gates[g].Permitted? ensures w.gates[g].permit.receiptId != p.receiptId {
      assert SoundProgress(w.ledger, w.gates[g]);
    }
  }

  lemma PermitKeepsInvariant(w: World, h: Hashes, l: Ledger, gate: nat, p: Permit)
    requires Invariant(w, h) && Sound(l, h) && Grows(w.ledger, l) && Backed(l, p)
    requires p.receiptId in w.ledger.rows && w.ledger.rows[p.receiptId].startedAt.None?
    ensures Invariant(Continue(w, gate, l, Permitted(p)), h)
  {
    hide Sound, Grows, Exclusive, Backed;
    GrowthKeepsBacking(w, l);
    PermitIsExclusive(w, h, l, gate, p);
  }

  /** Recording the start hands out the only permit there will ever be for the receipt. */
  lemma StartKeepsInvariant(w: World, h: Hashes, gate: nat)
    requires Invariant(w, h) && gate in w.gates && w.gates[gate].Reserved?
    requires StartExecution(w.ledger, w.gates[gate].receiptId, w.gates[gate].at).Some?
    ensures Invariant(Apply(w, h, DoStart(gate)), h)
  {
    var id := w.gates[gate].receiptId;
    var l := StartExecution(w.ledger, id, w.gates[gate].at).value;
    StartKeepsSound(w.ledger, h, id, w.gates[gate].at);
    PermitKeepsInvariant(w, h, l, gate, PermitFor(id, l.rows[id]));
  }

  lemma ExecuteKeepsInvariant(w: World, h: Hashes, gate: nat, report: Report)
    requires Invariant(w, h) && gate in w.gates && w.gates[gate].Permitted?
    ensures Invariant(Apply(w, h, DoExecute(gate, report)), h)
  {
    var t := Apply(w, h, DoExecute(gate, report));
    assert SoundProgress(w.ledger, w.gates[gate]);
    forall i | 0 <= i < |t.calls| ensures Backed(t.ledger, t.calls[i]) {
      assert i < |w.calls| ==> Backed(w.ledger, w.calls[i]);
    }
  }

  /** A gate's operation ends with an optional transaction on a sound ledger. */
  lemma FinishKeepsInvariant(w: World, h: Hashes, gate: nat, l: Option<Ledger>)
    requires Invariant(w, h)
    requires l.Some? ==> Sound(l.value, h) && Grows(w.ledger, l.value)
    ensures Kept(w, h, Finish(w, gate, l))
  {
    QuietStepKeepsInvariant(w, h, Finish(w, gate, l), gate);
  }

  lemma ContinueKeepsInvariant(w: World, h: Hashes, gate: nat, l: Ledger, p: Progress)
    requires Invariant(w, h) && Sound(l, h) && Grows(w.ledger, l) && !p.Permitted? && SoundProgress(l, p)
    ensures Kept(w, h, Continue(w, gate, l, p))
  {
    QuietStepKeepsInvariant(w, h, Continue(w, gate, l, p), gate);
  }

  /** What every event does: the invariant stays, the ledger grows, the calls made stay made. */
  ghost predicate Kept(w: World, h: Hashes, t: World)
  {
    Invariant(t, h) && Grows(w.ledger, t.ledger) && w.calls <= t.calls
  }

  lemma RunningGateKeeps(w: World, h: Hashes, ev: Event)
    requires Invariant(w, h)
    requires ev.DoReserve? || ev.DoStart? || ev.DoExecute? || ev.DoFinalize?
    ensures Kept(w, h, Apply(w, h, ev))
  {
    if Apply(w, h, ev) != w {
      match ev {
        case DoReserve(gate, workspace, request, policy, capability, now) =>
          ReserveKeepsSound(w.ledger, h, workspace, request, policy, capability, now);
          var (l, id) := Reserve(w.ledger, h, workspace, request, policy, capability, now).value;
          ContinueKeepsInvariant(w, h, gate, l, Reserved(id, now));
        case DoStart(gate) =>
          if StartExecution(w.ledger, w.gates[gate].receiptId, w.gates[gate].at).Some? {
            StartKeepsSound(w.ledger, h, w.gates[gate].receiptId, w.gates[gate].at);
            StartKeepsInvariant(w, h, gate);
          } else {
            FinishKeepsInvariant(w, h, gate, None);
          }
        case DoExecute(gate, report) => ExecuteKeepsInvariant(w, h, gate, report);
        case DoFinalize(gate) => OutcomeKeeps(w, h, gate, w.gates[gate].receiptId, w.gates[gate].report);
      }
    }
  }

  lemma OutcomeKeeps(w: World, h: Hashes, gate: nat, id: string, report: Report)
    requires Invariant(w, h)
    ensures Kept(w, h, Finish(w, gate, Finalize(w.ledger, id, report)))
  {
    if Finalize(w.ledger, id, report).Some? {
      FinalizeKeepsSound(w.ledger, h, id, report);
    }
    FinishKeepsInvariant(w, h, gate, Finalize(w.ledger, id, report));
  }

  lemma ReconcilingGateKeeps(w: World, h: Hashes, ev: Event)
    requires Invariant(w, h)
    requires ev.DoRead? || ev.DoFailBefore? || ev.DoQuery? || ev.DoFinalizeQueried?
    ensures Kept(w, h, Apply(w, h, ev))
  {
    hide Sound, Exclusive, Backed, Finalize;
    if Apply(w, h, ev) != w {
      match ev {
        case DoRead(gate, id, workspace, at) =>
          ContinueKeepsInvariant(w, h, gate, w.ledger, Apply(w, h, ev).gates[gate]);
        case DoFailBefore(gate) =>
          var p := w.gates[gate];
          if FailBeforeExecution(w.ledger, p.receiptId, p.at).Some? {
            FailBeforeKeepsSound(w.ledger, h, p.receiptId, p.at);
          }
          FinishKeepsInvariant(w, h, gate, FailBeforeExecution(w.ledger, p.receiptId, p.at));
        case DoQuery(gate, observedAt, answer) =>
          if answer.None? || observedAt != w.gates[gate].at {
            FinishKeepsInvariant(w, h, gate, None);
          } else {
            ContinueKeepsInvariant(w, h, gate, w.ledger, Apply(w, h, ev).gates[gate]);
          }
        case DoFinalizeQueried(gate) => OutcomeKeeps(w, h, gate, w.gates[gate].receiptId, w.gates[gate].report);
      }
    }
  }

  lemma MarkKeeps(w: World, h: Hashes, gate: nat, id: string, at: int)
    requires Invariant(w, h) && SoundProgress(w.ledger, Compensated(id, at))
    ensures Kept(w, h, Finish(w, gate, MarkCompensated(w.ledger, id, at)))
  {
    if MarkCompensated(w.ledger, id, at).Some? {
      CompensationKeepsSound(w.ledger, h, id, at);
    }
    FinishKeepsInvariant(w, h, gate, MarkCompensated(w.ledger, id, at));
  }

  lemma CompensatingGateKeeps(w: World, h: Hashes, ev: Event)
    requires Invariant(w, h)
    requires ev.DoReadForCompensation? || ev.DoCompensate? || ev.DoMark?
    ensures Kept(w, h, Apply(w, h, ev))
  {
    hide Sound, Exclusive, Backed;
    var g := ev.gate;
    if Apply(w, h, ev) != w {
      if g in w.gates {
        assert SoundProgress(w.ledger, w.gates[g]);
      }
      match ev {
        case DoReadForCompensation(gate, id, workspace, now) =>
          ContinueKeepsInvariant(w, h, gate, w.ledger, Apply(w, h, ev).gates[gate]);
        case DoCompensate(gate, reference, target, completedAt) =>
          if gate in Apply(w, h, ev).gates {
            ContinueKeepsInvariant(w, h, gate, w.ledger, Apply(w, h, ev).gates[gate]);
          } else {
            FinishKeepsInvariant(w, h, gate, None);
          }
        case DoMark(gate) =>
          MarkKeeps(w, h, gate, w.gates[gate].receiptId, w.gates[gate].at);
      }
    }
  }

  lemma EventKeepsInvariant(w: World, h: Hashes, ev: Event)
    requires Invariant(w, h)
    ensures Kept(w, h, Apply(w, h, ev))
  {
    if ev.DoReserve? || ev.DoStart? || ev.DoExecute? || ev.DoFinalize? {
      RunningGateKeeps(w, h, ev);
    } else if ev.DoRead? || ev.DoFailBefore? || ev.DoQuery? || ev.DoFinalizeQueried? {
      ReconcilingGateKeeps(w, h, ev);
    } else if ev.Stop? {
      FinishKeepsInvariant(w, h, ev.gate, None);
    } else {
      CompensatingGateKeeps(w, h, ev);
    }
  }

  lemma {:induction false} RunKeepsInvariant(h: Hashes, events: seq<Event>)
    ensures Invariant(Run(EMPTY, h, events), h)
  {
    if events != [] {
      RunKeepsInvariant(h, events[..|events| - 1]);
      EventKeepsInvariant(Run(EMPTY, h, events[..|events| - 1]), h, events[|events| - 1]);
    }
  }

  lemma {:induction false} LedgerOnlyGrows(h: Hashes, events: seq<Event>, n: nat)
    requires n <= |events|
    ensures var w, t := Run(EMPTY, h, events[..n]), Run(EMPTY, h, events);
      Grows(w.ledger, t.ledger) && w.calls <= t.calls
    decreases |events|
  {
    if n == |events| {
      assert events[..n] == events;
    } else {
      var front := events[..|events| - 1];
      assert front[..n] == events[..n];
      LedgerOnlyGrows(h, front, n);
      RunKeepsInvariant(h, front);
      EventKeepsInvariant(Run(EMPTY, h, front), h, events[|events| - 1]);
      GrowsIsTransitive(Run(EMPTY, h, events[..n]).ledger, Run(EMPTY, h, front).ledger, Run(EMPTY, h, events).ledger);
    }
  }

  // ---- the promises ----

  /**
   * However gates interleave and stop, an adapter is called at most once for an idempotency key and
   * at most once for a request, and every call has a committed receipt that records its start.
   */
  lemma ExecutedAtMostOnce(h: Hashes, events: seq<Event>, i: nat, j: nat)
    requires i < j < |Run(EMPTY, h, events).calls|
    ensures var calls := Run(EMPTY, h, events).calls;
      && calls[i].idempotencyKey != calls[j].idempotencyKey
      && calls[i].requestHash != calls[j].requestHash
      && Backed(Run(EMPTY, h, events).ledger, calls[i]) && Backed(Run(EMPTY, h, events).ledger, calls[j])
  {
    var w := Run(EMPTY, h, events);
    RunKeepsInvariant(h, events);
    assert Backed(w.ledger, w.calls[i]) && Backed(w.ledger, w.calls[j]);
  }

  /** The record of a start is there before the call and stays for ever. */
  lemma EveryCallWasRecordedFirst(h: Hashes, events: seq<Event>, n: nat, gate: nat, report: Report)
    requires n < |events| && events[n] == DoExecute(gate, report)
    requires gate in Run(EMPTY, h, events[..n]).gates && Run(EMPTY, h, events[..n]).gates[gate].Permitted?
    ensures var permit := Run(EMPTY, h, events[..n]).gates[gate].permit;
      Backed(Run(EMPTY, h, events[..n]).ledger, permit) && Backed(Run(EMPTY, h, events).ledger, permit)
  {
    var w := Run(EMPTY, h, events[..n]);
    RunKeepsInvariant(h, events[..n]);
    LedgerOnlyGrows(h, events, n);
    assert SoundProgress(w.ledger, w.gates[gate]);
  }

  /** A receipt that failed before its start stands for something that never ran and never will. */
  lemma FailedUnstartedNeverRuns(h: Hashes, events: seq<Event>, n: nat, id: string)
    requires n <= |events|
    requires var l := Run(EMPTY, h, events[..n]).ledger;
      id in l.rows && l.rows[id].status == Failed && l.rows[id].startedAt.None?
    ensures forall i :: 0 <= i < |Run(EMPTY, h, events).calls| ==> Run(EMPTY, h, events).calls[i].receiptId != id
    ensures forall g :: g in Run(EMPTY, h, events).gates && Run(EMPTY, h, events).gates[g].Permitted? ==>
      Run(EMPTY, h, events).gates[g].permit.receiptId != id
  {
    var l, w := Run(EMPTY, h, events[..n]).ledger, Run(EMPTY, h, events);
    LedgerOnlyGrows(h, events, n);
    RunKeepsInvariant(h, events);
    assert Evolves(l.rows[id], w.ledger.rows[id]);
    forall i | 0 <= i < |w.calls| ensures w.calls[i].receiptId != id {
      assert Backed(w.ledger, w.calls[i]);
    }
    forall g | g in w.gates && w.gates[g].Permitted? ensures w.gates[g].permit.receiptId != id {
      assert SoundProgress(w.ledger, w.gates[g]);
    }
  }

  /** Over all runs the ledger stays sound, and a receipt's outcome and compensation are final. */
  lemma LedgerStaysSound(h: Hashes, events: seq<Event>, n: nat, id: string)
    requires n <= |events| && id in Run(EMPTY, h, events[..n]).ledger.rows
    ensures Sound(Run(EMPTY, h, events).ledger, h) && id in Run(EMPTY, h, events).ledger.rows
    ensures var a, b := Run(EMPTY, h, events[..n]).ledger.rows[id], Run(EMPTY, h, events).ledger.rows[id];
      && Plausible(b)
      && (a.status != Pending ==> b.status == a.status && b.completedAt == a.completedAt && b.reference == a.reference)
      && (a.compensatedAt.Some? ==> b == a)
  {
    LedgerOnlyGrows(h, events, n);
    RunKeepsInvariant(h, events);
    assert Evolves(Run(EMPTY, h, events[..n]).ledger.rows[id], Run(EMPTY, h, events).ledger.rows[id]);
  }

  // ---- a settled receipt and a runner that is still alive ----

  ghost predicate PermitOut(w: World, id: string)
  {
    exists g :: g in w.gates && w.gates[g].Permitted? && w.gates[g].permit.receiptId == id
  }

  ghost predicate Called(w: World, id: string)
  {
    exists i :: 0 <= i < |w.calls| && w.calls[i].receiptId == id
  }

  /** Only recording a start, on a pending receipt, hands out a permit. */
  lemma PermitsComeFromStarts(w: World, h: Hashes, ev: Event, g: nat)
    requires g in Apply(w, h, ev).gates && Apply(w, h, ev).gates[g].Permitted?
    ensures var id := Apply(w, h, ev).gates[g].permit.receiptId;
      || (g in w.gates && w.gates[g] == Apply(w, h, ev).gates[g])
      || (id in w.ledger.rows && w.ledger.rows[id].status == Pending)
  {
  }

  lemma CallsComeFromPermits(w: World, h: Hashes, ev: Event)
    ensures var t := Apply(w, h, ev);
      || t.calls == w.calls
      || (ev.gate in w.gates && w.gates[ev.gate].Permitted? && t.calls == w.calls + [w.gates[ev.gate].permit])
  {
  }

  lemma SettledStaysSettled(w: World, h: Hashes, ev: Event, id: string)
    requires Invariant(w, h) && id in w.ledger.rows && w.ledger.rows[id].status != Pending
    ensures id in Apply(w, h, ev).ledger.rows && Apply(w, h, ev).ledger.rows[id].status != Pending
  {
    EventKeepsInvariant(w, h, ev);
    assert Evolves(w.ledger.rows[id], Apply(w, h, ev).ledger.rows[id]);
  }

  lemma SettledStepHandsOutNoPermit(w: World, h: Hashes, ev: Event, id: string)
    requires Invariant(w, h) && id in w.ledger.rows && w.ledger.rows[id].status != Pending
    requires !PermitOut(w, id) && !Called(w, id)
    ensures var t := Apply(w, h, ev);
      id in t.ledger.rows && t.ledger.rows[id].status != Pending && !PermitOut(t, id) && !Called(t, id)
  {
    SettledStaysSettled(w, h, ev, id);
    var t := Apply(w, h, ev);
    forall g | g in t.gates && t.gates[g].Permitted? ensures t.gates[g].permit.receiptId != id {
      PermitsComeFromStarts(w, h, ev, g);
    }
    CallsComeFromPermits(w, h, ev);
    assert forall i :: 0 <= i < |w.calls| ==> t.calls[i] == w.calls[i];
  }

  lemma {:induction false} SettledWithoutPermitNeverRuns(h: Hashes, events: seq<Event>, more: seq<Event>, id: string)
    requires var w := Run(EMPTY, h, events);
      id in w.ledger.rows && w.ledger.rows[id].status != Pending && !PermitOut(w, id) && !Called(w, id)
    ensures var t := Run(EMPTY, h, events + more);
      id in t.ledger.rows && t.ledger.rows[id].status != Pending && !PermitOut(t, id) && !Called(t, id)
  {
    if more == [] {
      assert events + more == events;
    } else {
      var front := more[..|more| - 1];
      SettledWithoutPermitNeverRuns(h, events, front, id);
      RunKeepsInvariant(h, events + front);
      assert (events + more)[..|events + more| - 1] == events + front;
      SettledStepHandsOutNoPermit(Run(EMPTY, h, events + front), h, more[|more| - 1], id);
    }
  }

  /**
   * A receipt settled before its adapter was called, by a reconciliation that raced with the
   * runner, can still be executed exactly if the runner is alive and holds the permit.
   */
  lemma SettledReceiptRunsLaterIffAPermitIsOut(h: Hashes, events: seq<Event>, id: string)
    requires var w := Run(EMPTY, h, events);
      id in w.ledger.rows && w.ledger.rows[id].status != Pending && !Called(w, id)
    ensures PermitOut(Run(EMPTY, h, events), id) <==> exists more :: Called(Run(EMPTY, h, events + more), id)
  {
    var w := Run(EMPTY, h, events);
    if PermitOut(w, id) {
      var g :| g in w.gates && w.gates[g].Permitted? && w.gates[g].permit.receiptId == id;
      var more := [DoExecute(g, Report(OutcomeFailed, None, None, 0, None))];
      assert (events + more)[..|events + more| - 1] == events;
      var t := Run(EMPTY, h, events + more);
      assert t.calls[|t.calls| - 1].receiptId == id;
      assert Called(t, id);
    } else {
      forall more ensures !Called(Run(EMPTY, h, events + more), id) {
        SettledWithoutPermitNeverRuns(h, events, more, id);
      }
    }
  }

  const RACE_REQUEST := ActionRequest(REQUEST_SCHEMA, "a", "c", Read, "r", "t:1", ReadOnly, false, None, "k", 10, "j")
  const RACE_POLICY := ActionPolicy([Read], ["t:"], false, None)
  const NOTHING_FOUND := Report(OutcomeFailed, None, None, 2, None)

  function RaceHashes(): Hashes { Hashes(r => "h", (hash, key) => "id") }

  /** The race: one gate starts, another reconciles to Failed, and only then the first calls its adapter. */
  function Race(): seq<Event>
  {
    [DoReserve(0, "w", RACE_REQUEST, RACE_POLICY, None, 1), DoStart(0), DoRead(1, "id", "w", 2),
     DoQuery(1, 2, Some(NOTHING_FOUND)), DoFinalizeQueried(1), DoExecute(0, NOTHING_FOUND)]
  }

  lemma NotBlank(s: string)
    requires s != "" && !IsSpace(s[0])
    ensures !Blank(s)
  {
    assert s[0] in s;
  }

  lemma RaceIsAllowed()
    ensures Evaluate(RACE_REQUEST, "h", RACE_POLICY, None, [], 1) == Allow(StandingPolicy) && !Blank("w")
  {
    NotBlank("a"); NotBlank("c"); NotBlank("r"); NotBlank("t:1"); NotBlank("k"); NotBlank("j"); NotBlank("w");
    assert RACE_POLICY.targetPrefixes[0] <= RACE_REQUEST.target;
    assert RACE_REQUEST.target[1] == ':';
  }

  function RaceLedger(status: Status, startedAt: Option<int>, completedAt: Option<int>): Ledger
  {
    var c := NewReceipt("w", RACE_REQUEST, "h", None, 1);
    Ledger(map["id" := c.(status := status, startedAt := startedAt, completedAt := completedAt)], map[])
  }

  /** One gate has recorded its start and holds the permit; nothing was called. */
  predicate RaceStarted(w: World)
  {
    && w.ledger == RaceLedger(Pending, Some(1), None)
    && w.gates.Keys == {0} && w.gates[0].Permitted? && w.gates[0].permit.receiptId == "id" && w.calls == []
  }

  lemma RaceBegins()
    ensures RaceStarted(Apply(Apply(EMPTY, RaceHashes(), Race()[0]), RaceHashes(), Race()[1]))
  {
    RaceIsAllowed();
    var w1 := Apply(EMPTY, RaceHashes(), Race()[0]);
    assert w1.ledger == RaceLedger(Pending, None, None) && w1.gates == map[0 := Reserved("id", 1)];
    assert StartExecution(w1.ledger, "id", 1).value == RaceLedger(Pending, Some(1), None);
  }

  lemma RaceEnds(w: World)
    requires RaceStarted(w)
    ensures var h, e := RaceHashes(), Race();
      var t := Apply(Apply(Apply(Apply(w, h, e[2]), h, e[3]), h, e[4]), h, e[5]);
      t.ledger == RaceLedger(Failed, Some(1), Some(2)) && Called(t, "id")
  {
    var h, e := RaceHashes(), Race();
    var w3 := Apply(w, h, e[2]);
    assert w3 == w.(gates := w.gates[1 := FoundStarted("id", 2)]);
    var w4 := Apply(w3, h, e[3]);
    assert w4 == w3.(gates := w3.gates[1 := Queried("id", NOTHING_FOUND)]);
    var w5 := Apply(w4, h, e[4]);
    assert w5.ledger == RaceLedger(Failed, Some(1), Some(2)) && 0 in w5.gates && w5.gates[0] == w.gates[0];
    assert Apply(w5, h, e[5]).calls[0].receiptId == "id";
  }

  /** A receipt reconciled to Failed may still be executed: Failed alone does not rule it out. */
  lemma ReconciledFailureDoesNotRuleOutExecution()
    ensures var w := Run(EMPTY, RaceHashes(), Race());
      "id" in w.ledger.rows && w.ledger.rows["id"].status == Failed && Called(w, "id")
  {
    var h, e := RaceHashes(), Race();
    RaceBegins();
    RaceEnds(Apply(Apply(EMPTY, h, e[0]), h, e[1]));
    assert e == [] + [e[0]] + [e[1]] + [e[2]] + [e[3]] + [e[4]] + [e[5]];
    RunOneMore(EMPTY, h, [], e[0]);
    RunOneMore(EMPTY, h, [] + [e[0]], e[1]);
    RunOneMore(EMPTY, h, [] + [e[0]] + [e[1]], e[2]);
    RunOneMore(EMPTY, h, [] + [e[0]] + [e[1]] + [e[2]], e[3]);
    RunOneMore(EMPTY, h, [] + [e[0]] + [e[1]] + [e[2]] + [e[3]], e[4]);
    RunOneMore(EMPTY, h, [] + [e[0]] + [e[1]] + [e[2]] + [e[3]] + [e[4]], e[5]);
  }

  lemma RunOneMore(w: World, h: Hashes, events: seq<Event>, ev: Event)
    ensures Run(w, h, events + [ev]) == Apply(Run(w, h, events), h, ev)
  {
    assert (events + [ev])[..|events + [ev]| - 1] == events;
  }
}
