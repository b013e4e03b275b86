/**
 * Gates that take turns on one database: every turn is one statement, one read or one call of one gate,
 * and any other gate may come next. What the turns do to rows and adapter is a run of the interleaving model.
 */
module GateTurns {
  import opened Wrappers
  import opened ActionGovernance
  import opened CapabilitySignature
  import opened ReceiptLedger
  import opened ReceiptRuns
  import opened ReceiptStore
  import GateRuns

  datatype Turn =
    | Ask(process: nat, gate: Gate, request: ActionRequest, policy: ActionPolicy, signed: Option<SignedCapability>,
      now: int)
    | Settle(process: nat, gate: Gate, id: string, observedAt: int)
    | Undo(process: nat, gate: Gate, id: string, now: int)
    /** The process takes its next step. */
    | Step(process: nat)
    /** The process is lost for good. */
    | Lose(process: nat)
    /** The adapter's clock moves, and what it hides changes. */
    | Move(clock: int, hidden: set<string>)

  /** The world of a database, the processes at work on it, and the calls its adapter has had. */
  ghost function Now(store: Store, adapter: ReversibleFixtureAdapter, doing: map<nat, Progress>): World
    reads store, adapter
  {
    World(store.Contents(), doing, adapter.calls)
  }

  /** Every process that asked for a pending receipt knows the key to query. */
  predicate KeysKnown(doing: map<nat, Progress>, keys: map<nat, string>)
  {
    forall p :: p in doing && doing[p].FoundStarted? ==> p in keys
  }

  /** A process begins to run an action: it verifies the capability and reserves. */
  method Reserving(adapter: ReversibleFixtureAdapter, doing: map<nat, Progress>, turn: Turn, hash: Hash,
                   serialise: Serialiser)
    returns (after: map<nat, Progress>, ghost ev: Event)
    requires turn.Ask? && turn.gate.store.Valid() && IsHash(hash)
    modifies turn.gate.store
    ensures turn.gate.store.Valid()
    ensures Now(turn.gate.store, adapter, after)
      == Apply(old(Now(turn.gate.store, adapter, doing)), turn.gate.store.hashes, ev)
    ensures forall p :: p in after && after[p].FoundStarted? ==> p in doing && doing[p] == after[p]
  {
    hide Sound, Grows, Reserve, Evaluate;
    after, ev := doing, Stop(turn.process);
    if turn.process in doing {
      ev := DoReserve(turn.process, turn.gate.workspace, turn.request, turn.policy, None, turn.now);
      return;
    }
    assert doing - {turn.process} == doing;
    var id := turn.gate.Admit(turn.request, turn.policy, turn.signed, turn.now, hash, serialise);
    if id.Some? {
      after := doing[turn.process := Reserved(id.value, turn.now)];
      ev := DoReserve(turn.process, turn.gate.workspace, turn.request, turn.policy, turn.gate.Presented(turn.signed),
        turn.now);
    }
  }

  /** A process begins to reconcile a receipt: it reads the row. */
  method Reading(adapter: ReversibleFixtureAdapter, doing: map<nat, Progress>, keys: map<nat, string>, turn: Turn)
    returns (after: map<nat, Progress>, known: map<nat, string>, ghost ev: Event)
    requires turn.Settle? && KeysKnown(doing, keys)
    ensures KeysKnown(after, known)
    ensures Now(turn.gate.store, adapter, after)
      == Apply(Now(turn.gate.store, adapter, doing), turn.gate.store.hashes, ev)
  {
    after, known := doing, keys;
    ev := DoRead(turn.process, turn.id, turn.gate.workspace, turn.observedAt);
    var rows := turn.gate.store.rows;
    if turn.process in doing || turn.id !in rows { return; }
    var current := rows[turn.id];
    if current.workspace != turn.gate.workspace || current.status != Pending { return; }
    if current.startedAt.None? {
      after := doing[turn.process := FoundUnstarted(turn.id, turn.observedAt)];
    } else {
      after := doing[turn.process := FoundStarted(turn.id, turn.observedAt)];
      known := keys[turn.process := current.idempotencyKey];
    }
  }

  /** A process begins to compensate a receipt: it reads the row. */
  method ReadingForCompensation(adapter: ReversibleFixtureAdapter, doing: map<nat, Progress>, turn: Turn)
    returns (after: map<nat, Progress>, ghost ev: Event)
    requires turn.Undo?
    ensures Now(turn.gate.store, adapter, after)
      == Apply(Now(turn.gate.store, adapter, doing), turn.gate.store.hashes, ev)
    ensures forall p :: p in after && after[p].FoundStarted? ==> p in doing && doing[p] == after[p]
  {
    after, ev := doing, DoReadForCompensation(turn.process, turn.id, turn.gate.workspace, turn.now);
    var rows := turn.gate.store.rows;
    if turn.process in doing || turn.id !in rows { return; }
    var current := rows[turn.id];
    if !Compensable(current, turn.gate.workspace, turn.now) { return; }
    after := doing[turn.process := Compensating(turn.id, turn.now, current.reference.value, current.target.value,
                                                current.deadline.value)];
  }

  /** A process that runs an action takes its next step. */
  method Running(store: Store, adapter: ReversibleFixtureAdapter, doing: map<nat, Progress>, process: nat)
    returns (after: map<nat, Progress>, ghost ev: Event)
    requires store.Valid() && process in doing
    requires doing[process].Reserved? || doing[process].Permitted? || doing[process].Executed?
    modifies store`rows, adapter`objects, adapter`calls
    ensures store.Valid()
    ensures Now(store, adapter, after) == Apply(old(Now(store, adapter, doing)), store.hashes, ev)
    ensures forall p :: p in after && after[p].FoundStarted? ==> p in doing && doing[p] == after[p]
  {
    hide Sound, Grows, Finalize;
    match doing[process] {
      case Reserved(id, at) =>
        ev := DoStart(process);
        var ok := store.StartRow(id, at);
        after := if ok then doing[process := Permitted(PermitFor(id, store.rows[id]))] else doing - {process};
      case Permitted(permit) =>
        var report := adapter.Execute(permit);
        ev := DoExecute(process, report);
        after := doing[process := Executed(permit.receiptId, report)];
      case Executed(id, report) =>
        ev := DoFinalize(process);
        var _ := store.FinalizeRow(id, report);
        after := doing - {process};
    }
  }

  /** A process that reconciles a receipt takes its next step. */
  method Reconciling(store: Store, adapter: ReversibleFixtureAdapter, doing: map<nat, Progress>, key: string,
                     process: nat)
    returns (after: map<nat, Progress>, ghost ev: Event)
    requires store.Valid() && process in doing
    requires doing[process].FoundUnstarted? || doing[process].FoundStarted? || doing[process].Queried?
    modifies store`rows
    ensures store.Valid()
    ensures Now(store, adapter, after) == Apply(old(Now(store, adapter, doing)), store.hashes, ev)
    ensures forall p :: p in after && after[p].FoundStarted? ==> p in doing && doing[p] == after[p]
  {
    hide Sound, Grows, Finalize;
    match doing[process] {
      case FoundUnstarted(id, at) =>
        ev := DoFailBefore(process);
        var _ := store.FailRowBeforeExecution(id, at);
        after := doing - {process};
      case FoundStarted(id, at) =>
        var answer := adapter.Query(key);
        ev := DoQuery(process, adapter.now, answer);
        after := if answer.None? || adapter.now != at then doing - {process}
          else doing[process := Queried(id, answer.value.(completedAt := adapter.now))];
      case Queried(id, report) =>
        ev := DoFinalizeQueried(process);
        var _ := store.FinalizeRow(id, report);
        after := doing - {process};
    }
  }

  /** A process that compensates a receipt takes its next step. */
  method Undoing(store: Store, adapter: ReversibleFixtureAdapter, doing: map<nat, Progress>, process: nat)
    returns (after: map<nat, Progress>, ghost ev: Event)
    requires process in doing && (doing[process].Compensating? || doing[process].Compensated?)
    requires Invariant(Now(store, adapter, doing), store.hashes)
    modifies store`rows, adapter`objects
    ensures store.Valid()
    ensures Now(store, adapter, after) == Apply(old(Now(store, adapter, doing)), store.hashes, ev)
    ensures forall p :: p in after && after[p].FoundStarted? ==> p in doing && doing[p] == after[p]
  {
    hide Sound, Grows, Exclusive, Backed;
    assert SoundProgress(store.Contents(), doing[process]);
    match doing[process] {
      case Compensating(id, now, reference, target, deadline) =>
        var completedAt := adapter.Undo(reference, target);
        if completedAt.None? {
          ev := Stop(process);
          after := doing - {process};
        } else {
          ev := DoCompensate(process, reference, target, completedAt.value);
          after := if completedAt.value < now || completedAt.value > deadline then doing - {process}
            else doing[process := Compensated(id, completedAt.value)];
        }
      case Compensated(id, at) =>
        ev := DoMark(process);
        var _ := store.MarkRowCompensated(id, at);
        after := doing - {process};
    }
  }

  method Stepping(store: Store, adapter: ReversibleFixtureAdapter, doing: map<nat, Progress>, keys: map<nat, string>,
                  process: nat)
    returns (after: map<nat, Progress>, ghost ev: Event)
    requires process in doing && KeysKnown(doing, keys) && Invariant(Now(store, adapter, doing), store.hashes)
    modifies store`rows, adapter`objects, adapter`calls
    ensures store.Valid() && KeysKnown(after, keys)
    ensures Now(store, adapter, after) == Apply(old(Now(store, adapter, doing)), store.hashes, ev)
  {
    hide Sound, Apply, Exclusive, SoundProgress, Backed;
    match doing[process] {
      case Reserved(_, _) => after, ev := Running(store, adapter, doing, process);
      case Permitted(_) => after, ev := Running(store, adapter, doing, process);
      case Executed(_, _) => after, ev := Running(store, adapter, doing, process);
      case FoundUnstarted(_, _) => after, ev := Reconciling(store, adapter, doing, "", process);
      case FoundStarted(_, _) => after, ev := Reconciling(store, adapter, doing, keys[process], process);
      case Queried(_, _) => after, ev := Reconciling(store, adapter, doing, "", process);
      case Compensating(_, _, _, _, _) => after, ev := Undoing(store, adapter, doing, process);
      case Compensated(_, _) => after, ev := Undoing(store, adapter, doing, process);
    }
  }

  /**
   * Whatever turns any number of gates take on a new database, its rows and the calls of its adapter are
   * those of a run of the interleaving model: no key and no request was executed twice.
   */
  method TakingTurns(store: Store, adapter: ReversibleFixtureAdapter, turns: seq<Turn>, hash: Hash,
                     serialise: Serialiser)
    returns (doing: map<nat, Progress>, ghost events: seq<Event>)
    requires store.Contents() == EMPTY.ledger && adapter.calls == [] && IsHash(hash)
    requires forall t :: t in turns && (t.Ask? || t.Settle? || t.Undo?) ==> t.gate.store == store
    modifies store, adapter
    ensures Run(EMPTY, store.hashes, events) == Now(store, adapter, doing)
    ensures forall i, j :: 0 <= i < j < |adapter.calls| ==>
      adapter.calls[i].idempotencyKey != adapter.calls[j].idempotencyKey &&
        adapter.calls[i].requestHash != adapter.calls[j].requestHash
    ensures Sound(store.Contents(), store.hashes)
  {
    hide Sound, Apply, Run, Exclusive, Backed, SoundProgress;
    doing, events := map[], [];
    var keys: map<nat, string> := map[];
    NothingRun(store.hashes);
    for i := 0 to |turns|
      invariant Run(EMPTY, store.hashes, events) == Now(store, adapter, doing) && KeysKnown(doing, keys)
    {
      RunKeepsInvariant(store.hashes, events);
      var turn := turns[i];
      ghost var ev := Stop(0);
      ghost var happens := true;
      match turn {
        case Ask(_, _, _, _, _, _) => doing, ev := Reserving(adapter, doing, turn, hash, serialise);
        case Settle(_, _, _, _) => doing, keys, ev := Reading(adapter, doing, keys, turn);
        case Undo(_, _, _, _) => doing, ev := ReadingForCompensation(adapter, doing, turn);
        case Step(process) =>
          if process in doing {
            doing, ev := Stepping(store, adapter, doing, keys, process);
          } else {
            happens := false;
          }
        case Lose(process) =>
          ev := Stop(process);
          LostProcess(Now(store, adapter, doing), store.hashes, process);
          doing := doing - {process};
        case Move(clock, hidden) =>
          adapter.now, adapter.hidden := clock, hidden;
          happens := false;
      }
      if happens {
        RunOneMore(EMPTY, store.hashes, events, ev);
        events := events + [ev];
      }
    }
    GateRuns.ReachableIsSafe(store.hashes, events);
  }

  lemma NothingRun(h: Hashes)
    ensures Run(EMPTY, h, []) == EMPTY
  {
  }

  lemma LostProcess(w: World, h: Hashes, process: nat)
    ensures Apply(w, h, Stop(process)) == w.(gates := w.gates - {process})
  {
  }
}
