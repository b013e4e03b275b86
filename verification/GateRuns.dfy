/**
 * The gate's methods as runs of the interleaving model, so that what holds of all runs holds of every
 * database that gates have worked on, and of every adapter that they have called.
 */
module GateRuns {
  import opened Wrappers
  import opened ActionGovernance
  import opened CapabilitySignature
  import opened ReceiptLedger
  import opened ReceiptRuns
  import opened ReceiptStore

  /** One more gate comes, goes through these events, and is gone; nothing else happens in between. */
  predicate Passes(w: World, h: Hashes, events: seq<Event>, after: Ledger, calls: seq<Permit>)
  {
    Run(w, h, events) == w.(ledger := after, calls := w.calls + calls)
  }

  lemma RunOfFour(w: World, h: Hashes, a: Event, b: Event, c: Event, d: Event)
    ensures Run(w, h, [a, b, c]) == Apply(Apply(Apply(w, h, a), h, b), h, c)
    ensures Run(w, h, [a, b, c, d]) == Apply(Apply(Apply(Apply(w, h, a), h, b), h, c), h, d)
    ensures Run(w, h, [a, b]) == Apply(Apply(w, h, a), h, b) && Run(w, h, [a]) == Apply(w, h, a) && Run(w, h, []) == w
  {
    hide Apply;
    assert [] + [a] == [a] && [a] + [b] == [a, b] && [a, b] + [c] == [a, b, c] && [a, b, c] + [d] == [a, b, c, d];
    RunOneMore(w, h, [], a);
    RunOneMore(w, h, [a], b);
    RunOneMore(w, h, [a, b], c);
    RunOneMore(w, h, [a, b, c], d);
  }

  lemma {:induction false} RunOfTwo(w: World, h: Hashes, a: seq<Event>, b: seq<Event>)
    ensures Run(w, h, a + b) == Run(Run(w, h, a), h, b)
  {
    hide Apply;
    if b == [] {
      assert a + b == a;
    } else {
      var n := |b| - 1;
      RunOfTwo(w, h, a, b[..n]);
      assert a + b == a + b[..n] + [b[n]];
      RunOneMore(w, h, a + b[..n], b[n]);
    }
  }

  // ---- a run, a reconciliation, a compensation ----

  /** Where a process is lost on its way, if it is. */
  datatype Loss = Survives | LostReserved | LostStarted | LostExecuted

  function RequestEvents(g: nat, workspace: string, r: ActionRequest, policy: ActionPolicy, v: Option<Verified>,
                         now: int, outcome: Report, loss: Loss): seq<Event>
  {
    var reserve := DoReserve(g, workspace, r, policy, v, now);
    match loss
    case Survives => [reserve, DoStart(g), DoExecute(g, outcome), DoFinalize(g)]
    case LostReserved => [reserve, Stop(g)]
    case LostStarted => [reserve, DoStart(g), Stop(g)]
    case LostExecuted => [reserve, DoStart(g), DoExecute(g, outcome), Stop(g)]
  }

  lemma ReserveThenStart(w: World, h: Hashes, g: nat, workspace: string, r: ActionRequest, policy: ActionPolicy,
                         v: Option<Verified>, now: int)
    requires g !in w.gates && Reserve(w.ledger, h, workspace, r, policy, v, now).Some?
    requires var (l, id) := Reserve(w.ledger, h, workspace, r, policy, v, now).value; StartExecution(l, id, now).Some?
    ensures var (l, id) := Reserve(w.ledger, h, workspace, r, policy, v, now).value;
      var started := StartExecution(l, id, now).value;
      && Apply(w, h, DoReserve(g, workspace, r, policy, v, now)) == Continue(w, g, l, Reserved(id, now))
      && id in started.rows
      && (Apply(Continue(w, g, l, Reserved(id, now)), h, DoStart(g))
          == Continue(w, g, started, Permitted(PermitFor(id, started.rows[id]))))
  {
    hide Reserve;
  }

  lemma ExecuteThenFinalize(w: World, h: Hashes, g: nat, l: Ledger, permit: Permit, outcome: Report, after: Ledger,
                            finished: bool)
    requires g !in w.gates && finished == Finalize(l, permit.receiptId, outcome).Some?
    requires after == if finished then Finalize(l, permit.receiptId, outcome).value else l
    ensures var executed := Apply(Continue(w, g, l, Permitted(permit)), h, DoExecute(g, outcome));
      && executed == Continue(w, g, l, Executed(permit.receiptId, outcome)).(calls := w.calls + [permit])
      && Apply(executed, h, DoFinalize(g)) == w.(ledger := after, calls := w.calls + [permit])
      && Apply(executed, h, Stop(g)) == w.(ledger := l, calls := w.calls + [permit])
  {
    hide Finalize;
    assert w.gates[g := Executed(permit.receiptId, outcome)] - {g} == w.gates;
  }

  lemma StopLeaves(w: World, h: Hashes, g: nat, l: Ledger, p: Progress)
    requires g !in w.gates
    ensures Apply(Continue(w, g, l, p), h, Stop(g)) == w.(ledger := l)
  {
    assert w.gates[g := p] - {g} == w.gates;
  }

  /** Reserving, starting, executing and recording, up to where the process is lost. */
  lemma RequestPasses(w: World, h: Hashes, g: nat, gate: Gate, r: ActionRequest, policy: ActionPolicy,
                      v: Option<Verified>, now: int, outcome: Report, loss: Loss, after: Ledger, finished: bool)
    requires g !in w.gates && Reserve(w.ledger, h, gate.workspace, r, policy, v, now).Some?
    requires var (l, id) := Reserve(w.ledger, h, gate.workspace, r, policy, v, now).value;
      && StartExecution(l, id, now).Some?
      && (loss.LostReserved? ==> after == l)
      && (loss.LostStarted? || loss.LostExecuted? ==> after == StartExecution(l, id, now).value)
      && (loss.Survives? ==> gate.Recorded(l, id, now, outcome, after, finished))
    ensures var (l, id) := Reserve(w.ledger, h, gate.workspace, r, policy, v, now).value;
      var permit := PermitFor(id, StartExecution(l, id, now).value.rows[id]);
      Passes(w, h, RequestEvents(g, gate.workspace, r, policy, v, now, outcome, loss), after,
             if loss.LostReserved? || loss.LostStarted? then [] else [permit])
  {
    ReserveThenStart(w, h, g, gate.workspace, r, policy, v, now);
    hide Reserve, Finalize, Run, Apply, StartExecution;
    var a, b, c := DoReserve(g, gate.workspace, r, policy, v, now), DoStart(g), DoExecute(g, outcome);
    var (l, id) := Reserve(w.ledger, h, gate.workspace, r, policy, v, now).value;
    var started := StartExecution(l, id, now).value;
    var permit := PermitFor(id, started.rows[id]);
    var done := Finalize(started, id, outcome);
    ExecuteThenFinalize(w, h, g, started, permit, outcome, if done.Some? then done.value else started, done.Some?);
    StopLeaves(w, h, g, l, Reserved(id, now));
    StopLeaves(w, h, g, started, Permitted(permit));
    assert w.calls + [] == w.calls;
    match loss
    case Survives => RunOfFour(w, h, a, b, c, DoFinalize(g));
    case LostReserved => RunOfFour(w, h, a, Stop(g), a, a);
    case LostStarted => RunOfFour(w, h, a, b, Stop(g), a);
    case LostExecuted => RunOfFour(w, h, a, b, c, Stop(g));
  }

  function ReconcileEvents(l: Ledger, g: nat, id: string, workspace: string, observedAt: int, clock: int,
                           told: Option<Report>): seq<Event>
  {
    if id !in l.rows || l.rows[id].startedAt.None? then [DoRead(g, id, workspace, observedAt), DoFailBefore(g)]
    else [DoRead(g, id, workspace, observedAt), DoQuery(g, clock, told), DoFinalizeQueried(g)]
  }

  /** Reading a pending receipt, and what each of the three next steps makes of it. */
  lemma ReconcileSteps(w: World, h: Hashes, g: nat, id: string, workspace: string, observedAt: int, clock: int,
                       told: Option<Report>)
    requires g !in w.gates && id in w.ledger.rows && w.ledger.rows[id].workspace == workspace &&
      w.ledger.rows[id].status == Pending
    ensures var found := if w.ledger.rows[id].startedAt.None? then FoundUnstarted(id, observedAt)
      else FoundStarted(id, observedAt);
      && Apply(w, h, DoRead(g, id, workspace, observedAt)) == Continue(w, g, w.ledger, found)
      && (found.FoundUnstarted? ==>
            Apply(Continue(w, g, w.ledger, found), h, DoFailBefore(g))
            == w.(ledger := Settled(w.ledger, FailBeforeExecution(w.ledger, id, observedAt))))
      && (found.FoundStarted? ==>
            Apply(Continue(w, g, w.ledger, found), h, DoQuery(g, clock, told))
            == if told.None? || clock != observedAt then w
               else Continue(w, g, w.ledger, Queried(id, told.value.(completedAt := clock))))
  {
    hide Finalize, FailBeforeExecution;
    assert w.gates[g := FoundUnstarted(id, observedAt)] - {g} == w.gates;
    assert w.gates[g := FoundStarted(id, observedAt)] - {g} == w.gates;
  }

  lemma QueriedThenFinalized(w: World, h: Hashes, g: nat, id: string, told: Report)
    requires g !in w.gates
    ensures Apply(Continue(w, g, w.ledger, Queried(id, told)), h, DoFinalizeQueried(g))
            == w.(ledger := Settled(w.ledger, Finalize(w.ledger, id, told)))
    ensures Apply(w, h, DoFinalizeQueried(g)) == w
  {
    hide Finalize;
    assert w.gates[g := Queried(id, told)] - {g} == w.gates;
  }

  function Settled(l: Ledger, result: Option<Ledger>): Ledger
  {
    if result.Some? then result.value else l
  }

  lemma NothingToRead(w: World, h: Hashes, g: nat, id: string, workspace: string, observedAt: int, clock: int,
                      told: Option<Report>)
    requires g !in w.gates
    requires id !in w.ledger.rows || w.ledger.rows[id].workspace != workspace || w.ledger.rows[id].status != Pending
    ensures Apply(w, h, DoRead(g, id, workspace, observedAt)) == w
    ensures Apply(w, h, DoFailBefore(g)) == w && Apply(w, h, DoQuery(g, clock, told)) == w &&
      Apply(w, h, DoFinalizeQueried(g)) == w
  {
  }

  lemma ReconciliationPasses(w: World, h: Hashes, g: nat, gate: Gate, id: string, observedAt: int, clock: int,
                             told: Option<Report>, after: Ledger, settled: bool)
    requires g !in w.gates
    requires gate.FinishedAs(w.ledger, gate.Reconciled(w.ledger, id, observedAt, clock, told), after, settled)
    ensures Passes(w, h, ReconcileEvents(w.ledger, g, id, gate.workspace, observedAt, clock, told), after, [])
  {
    hide Finalize, FailBeforeExecution, Apply, Run;
    var a := DoRead(g, id, gate.workspace, observedAt);
    RunOfFour(w, h, a, DoFailBefore(g), DoFailBefore(g), a);
    RunOfFour(w, h, a, DoQuery(g, clock, told), DoFinalizeQueried(g), a);
    assert w.calls + [] == w.calls;
    if id in w.ledger.rows && w.ledger.rows[id].workspace == gate.workspace && w.ledger.rows[id].status == Pending {
      ReconcileSteps(w, h, g, id, gate.workspace, observedAt, clock, told);
      if told.Some? {
        QueriedThenFinalized(w, h, g, id, told.value.(completedAt := clock));
      } else {
        QueriedThenFinalized(w, h, g, id, Report(OutcomeFailed, None, None, 0, None));
      }
    } else {
      NothingToRead(w, h, g, id, gate.workspace, observedAt, clock, told);
    }
  }

  function CompensateEvents(l: Ledger, g: nat, id: string, workspace: string, now: int, undone: Option<int>): seq<Event>
  {
    if id !in l.rows || !Compensable(l.rows[id], workspace, now) then []
    else if undone.None? then [DoReadForCompensation(g, id, workspace, now), Stop(g)]
    else [DoReadForCompensation(g, id, workspace, now),
          DoCompensate(g, l.rows[id].reference.value, l.rows[id].target.value, undone.value), DoMark(g)]
  }

  lemma CompensateSteps(w: World, h: Hashes, g: nat, id: string, workspace: string, now: int, at: int)
    requires g !in w.gates && id in w.ledger.rows && Compensable(w.ledger.rows[id], workspace, now)
    ensures var c := w.ledger.rows[id];
      var begun := Continue(w, g, w.ledger, Compensating(id, now, c.reference.value, c.target.value, c.deadline.value));
      && Apply(w, h, DoReadForCompensation(g, id, workspace, now)) == begun
      && (Apply(begun, h, DoCompensate(g, c.reference.value, c.target.value, at))
          == if at < now || at > c.deadline.value then w else Continue(w, g, w.ledger, Compensated(id, at)))
  {
    var c := w.ledger.rows[id];
    assert w.gates[g := Compensating(id, now, c.reference.value, c.target.value, c.deadline.value)] - {g} == w.gates;
  }

  lemma CompensatedThenMarked(w: World, h: Hashes, g: nat, id: string, at: int)
    requires g !in w.gates
    ensures Apply(Continue(w, g, w.ledger, Compensated(id, at)), h, DoMark(g))
            == w.(ledger := Settled(w.ledger, MarkCompensated(w.ledger, id, at)))
    ensures Apply(w, h, DoMark(g)) == w
  {
    assert w.gates[g := Compensated(id, at)] - {g} == w.gates;
  }

  lemma CompensationPasses(w: World, h: Hashes, g: nat, gate: Gate, id: string, now: int, undone: Option<int>,
                           after: Ledger, done: bool)
    requires g !in w.gates
    requires gate.FinishedAs(w.ledger, gate.CompensatedAt(w.ledger, id, now, undone), after, done)
    ensures Passes(w, h, CompensateEvents(w.ledger, g, id, gate.workspace, now, undone), after, [])
  {
    hide MarkCompensated, Apply, Compensable;
    assert w.calls + [] == w.calls;
    if id in w.ledger.rows && Compensable(w.ledger.rows[id], gate.workspace, now) {
      CompensableHas(w.ledger.rows[id], gate.workspace, now);
      var a, c := DoReadForCompensation(g, id, gate.workspace, now), w.ledger.rows[id];
      var at := if undone.Some? then undone.value else 0;
      var begun := Compensating(id, now, c.reference.value, c.target.value, c.deadline.value);
      CompensateSteps(w, h, g, id, gate.workspace, now, at);
      CompensatedThenMarked(w, h, g, id, at);
      StopLeaves(w, h, g, w.ledger, begun);
      RunOfFour(w, h, a, Stop(g), a, a);
      RunOfFour(w, h, a, DoCompensate(g, c.reference.value, c.target.value, at), DoMark(g), a);
    }
  }

  lemma CompensableHas(c: Receipt, workspace: string, now: int)
    requires Compensable(c, workspace, now)
    ensures c.reference.Some? && c.target.Some? && c.deadline.Some?
  {
  }

  // ---- doing and undoing ----

  /**
   * What a first execution of a reversible action did can be undone at any time until the adapter's window has
   * passed, and only the object of that action is touched.
   */
  method DoAndUndo(gate: Gate, id: string, now: int, adapter: ReversibleFixtureAdapter, later: int)
    returns (undone: bool)
    requires gate.store.Valid() && gate.Waiting(id, now)
    requires gate.FirstExecution(gate.store.rows[id], adapter.objects, now, adapter)
    requires gate.store.rows[id].workspace == gate.workspace && gate.store.rows[id].request.reversible
    requires var reference := adapter.referenceFor(gate.store.rows[id].idempotencyKey,
                                                   gate.store.rows[id].request.target);
      forall k :: k in adapter.objects ==> adapter.objects[k].reference != reference
    requires adapter.now <= later <= adapter.now + adapter.window
    modifies gate.store, adapter
    ensures undone && id in gate.store.rows && gate.store.rows[id].compensatedAt == Some(later)
    ensures var key := old(gate.store.rows)[id].idempotencyKey;
      && key in adapter.objects && !adapter.objects[key].active
      && forall k :: k in old(adapter.objects) ==>
           k in adapter.objects && adapter.objects[k] == old(adapter.objects)[k]
  {
    hide Sound, Grows, Reserve, Evaluate, Finalize;
    PendingHasNothing(gate.store.Contents(), gate.store.hashes, id);
    ghost var row := gate.store.rows[id];
    ghost var key := row.idempotencyKey;
    ghost var limit := adapter.now + adapter.window;
    var finished;
    ghost var outcome, when;
    finished, outcome := gate.Perform(id, now, adapter);
    assert finished;
    adapter.now := later;
    ghost var o := adapter.objects[key];
    assert gate.store.rows[id].deadline == Some(limit) && gate.store.rows[id].compensatedAt == row.compensatedAt;
    assert forall k :: k in adapter.objects && adapter.objects[k].reference == o.reference ==> k == key;
    assert ReversibleFixtureAdapter.Known(adapter.objects, o.reference, o.target);
    assert Compensable(gate.store.rows[id], gate.workspace, later);
    undone, when := gate.Compensate(id, later, adapter);
  }

  // ---- gates at work on one database ----

  /**
   * What is asked of the gates, one operation after the other; the adapter's clock and what it hides change in
   * between.
   */
  datatype Operation =
    | Ask(gate: Gate, request: ActionRequest, policy: ActionPolicy, signed: Option<SignedCapability>, now: int,
      loss: Loss)
    | Settle(gate: Gate, id: string, observedAt: int)
    | Undo(gate: Gate, id: string, now: int)
    | Turn(clock: int, hidden: set<string>)

  /** The world of a database on which no gate is busy, with the calls its adapter has had. */
  ghost function Quiet(store: Store, adapter: ReversibleFixtureAdapter): World
    reads store, adapter
  {
    World(store.Contents(), map[], adapter.calls)
  }

  method AskOnce(gate: Gate, adapter: ReversibleFixtureAdapter, request: ActionRequest, policy: ActionPolicy,
                 signed: Option<SignedCapability>, now: int, loss: Loss, hash: Hash, serialise: Serialiser)
    returns (ghost events: seq<Event>)
    requires gate.store.Valid() && IsHash(hash)
    modifies gate.store, adapter`objects, adapter`calls
    ensures gate.store.Valid()
    ensures Run(old(Quiet(gate.store, adapter)), gate.store.hashes, events) == Quiet(gate.store, adapter)
  {
    hide Sound, Grows, Reserve, Apply, Run, Evaluate, Finalize;
    ghost var w := Quiet(gate.store, adapter);
    ghost var v := gate.Presented(signed);
    var id := gate.Admit(request, policy, signed, now, hash, serialise);
    RunOfFour(w, gate.store.hashes, Stop(0), Stop(0), Stop(0), Stop(0));
    if id.None? {
      return [];
    }
    ghost var outcome := Report(OutcomeFailed, None, None, now, None);
    ghost var finished := false;
    match loss {
      case LostReserved =>
        ReservedCanStart(gate.store.Contents(), id.value, now);
      case LostStarted =>
        var _, _ := gate.Launch(id.value, now, adapter, true);
      case LostExecuted =>
        var _, told := gate.Launch(id.value, now, adapter, false);
        outcome := told.value;
      case Survives =>
        var done;
        done, outcome := gate.Perform(id.value, now, adapter);
        finished := done;
    }
    RequestPasses(w, gate.store.hashes, 0, gate, request, policy, v, now, outcome, loss, gate.store.Contents(),
      finished);
    events := RequestEvents(0, gate.workspace, request, policy, v, now, outcome, loss);
  }

  lemma ReservedCanStart(l: Ledger, id: string, now: int)
    requires id in l.rows && l.rows[id].status == Pending && l.rows[id].startedAt.None? && l.rows[id].reservedAt <= now
    ensures StartExecution(l, id, now).Some?
  {
  }

  /**
   * Whatever gates do on a new database, it holds the ledger of a run of the interleaving model, and their
   * adapter has had the calls of that run: no key and no request was executed twice.
   */
  method GatesAtWork(store: Store, adapter: ReversibleFixtureAdapter, operations: seq<Operation>, hash: Hash,
                     serialise: Serialiser)
    returns (ghost events: seq<Event>)
    requires store.Contents() == EMPTY.ledger && adapter.calls == [] && IsHash(hash)
    requires forall op :: op in operations && !op.Turn? ==> op.gate.store == store
    modifies store, adapter
    ensures Run(EMPTY, store.hashes, events) == Quiet(store, adapter)
    ensures forall i, j :: 0 <= i < j < |adapter.calls| ==>
      adapter.calls[i].idempotencyKey != adapter.calls[j].idempotencyKey &&
        adapter.calls[i].requestHash != adapter.calls[j].requestHash
    ensures Sound(store.Contents(), store.hashes)
  {
    hide Sound, Grows, Apply, Run, Finalize;
    events := [];
    RunOfFour(EMPTY, store.hashes, Stop(0), Stop(0), Stop(0), Stop(0));
    RunKeepsInvariant(store.hashes, events);
    for i := 0 to |operations|
      invariant store.Valid() && Run(EMPTY, store.hashes, events) == Quiet(store, adapter)
    {
      var op := operations[i];
      ghost var w := Quiet(store, adapter);
      ghost var more := [];
      RunOfFour(w, store.hashes, Stop(0), Stop(0), Stop(0), Stop(0));
      match op {
        case Ask(gate, request, policy, signed, now, loss) =>
          more := AskOnce(gate, adapter, request, policy, signed, now, loss, hash, serialise);
        case Settle(gate, id, observedAt) =>
          var settled;
          ghost var told;
          settled, told := gate.Reconcile(id, observedAt, adapter);
          ReconciliationPasses(w, store.hashes, 0, gate, id, observedAt, adapter.now, told, store.Contents(), settled);
          more := ReconcileEvents(w.ledger, 0, id, gate.workspace, observedAt, adapter.now, told);
          assert w.calls + [] == w.calls;
        case Undo(gate, id, now) =>
          var done;
          ghost var undone;
          done, undone := gate.Compensate(id, now, adapter);
          CompensationPasses(w, store.hashes, 0, gate, id, now, undone, store.Contents(), done);
          more := CompensateEvents(w.ledger, 0, id, gate.workspace, now, undone);
          assert w.calls + [] == w.calls;
        case Turn(clock, hidden) =>
          adapter.now, adapter.hidden := clock, hidden;
      }
      RunOfTwo(EMPTY, store.hashes, events, more);
      events := events + more;
    }
    ReachableIsSafe(store.hashes, events);
  }

  lemma ReachableIsSafe(h: Hashes, events: seq<Event>)
    ensures Sound(Run(EMPTY, h, events).ledger, h)
    ensures var calls := Run(EMPTY, h, events).calls;
      forall i, j :: 0 <= i < j < |calls| ==>
        calls[i].idempotencyKey != calls[j].idempotencyKey && calls[i].requestHash != calls[j].requestHash
  {
    RunKeepsInvariant(h, events);
    var calls := Run(EMPTY, h, events).calls;
    forall i, j | 0 <= i < j < |calls|
      ensures calls[i].idempotencyKey != calls[j].idempotencyKey && calls[i].requestHash != calls[j].requestHash
    {
      ExecutedAtMostOnce(h, events, i, j);
    }
  }
}
