/**
 * The gate as it works on the database, statement by statement, with the fixture adapter that stands
 * for a reversible external service.
 */
module ReceiptStore {
  import opened Wrappers
  import opened ActionGovernance
  import opened ByteStrings
  import opened CapabilitySignature
  import opened ReceiptLedger
  import opened ReceiptRuns
  import opened Text

  class Store {
    const hashes: Hashes
    var rows: map<string, Receipt>
    var uses: map<string, CapabilityUse>

    function Contents(): Ledger
      reads this
    {
      Ledger(rows, uses)
    }

    ghost predicate Valid()
      reads this
    {
      Sound(Contents(), hashes)
    }

    constructor (hashes: Hashes)
      ensures this.hashes == hashes && Contents() == Ledger(map[], map[]) && Valid()
    {
      this.hashes := hashes;
      rows, uses := map[], map[];
    }

    /** Looks for a replay, decides, and inserts receipt and capability use together or not at all. */
    method ReserveRow(workspace: string, r: ActionRequest, policy: ActionPolicy, v: Option<Verified>, now: int)
      returns (id: Option<string>)
      requires Valid()
      modifies this
      ensures Valid() && Grows(old(Contents()), Contents())
      ensures id.None? ==> Contents() == old(Contents())
      ensures (if id.Some? then Some((Contents(), id.value)) else None)
        == Reserve(old(Contents()), hashes, workspace, r, policy, v, now)
    {
      hide Sound, Evaluate;
      id := None;
      ghost var before := Contents();
      var hash := hashes.request(r);
      if Blank(workspace) { return; }
      if v.Some? && !Scoped(v.value, workspace, r, hash) { return; }
      var replay :=
        exists k :: k in rows && (rows[k].requestHash == hash || rows[k].idempotencyKey == r.idempotencyKey);
      if replay { return; }
      var decision := Evaluate(r, hash, policy, if v.Some? then Some(v.value.lease) else None, [], now);
      if !decision.Allow? { return; }
      var receiptId := hashes.receipt(hash, r.idempotencyKey);
      var capabilityId: Option<string> := None;
      if decision.authorization.Capability? {
        if v.None? { return; }
        if decision.authorization.grantId in uses { return; }
        capabilityId := Some(decision.authorization.grantId);
      }
      // Primary keys and UNIQUE columns make the statements fail and the transaction roll back.
      if receiptId in rows { return; }
      if capabilityId.Some? && exists c :: c in uses && uses[c].receiptId == receiptId { return; }
      rows := rows[receiptId := NewReceipt(workspace, r, hash, capabilityId, now)];
      if capabilityId.Some? {
        uses := uses[capabilityId.value := CapabilityUse(v.value.issuer, receiptId)];
      }
      id := Some(receiptId);
      assert Reserve(before, hashes, workspace, r, policy, v, now) == Some((Contents(), receiptId));
      ReserveKeepsSound(before, hashes, workspace, r, policy, v, now);
    }

    /** UPDATE of one row, guarded by the state that was read in the same transaction. */
    method StartRow(id: string, at: int) returns (ok: bool)
      requires Valid()
      modifies this`rows
      ensures Valid() && Grows(old(Contents()), Contents())
      ensures (if ok then Some(Contents()) else None) == StartExecution(old(Contents()), id, at)
      ensures !ok ==> rows == old(rows)
    {
      ok := false;
      ghost var before := Contents();
      if id !in rows { return; }
      var current := rows[id];
      if current.status != Pending || current.startedAt.Some? { return; }
      if at < current.reservedAt { return; }
      rows := rows[id := current.(startedAt := Some(at))];
      ok := true;
      StartKeepsSound(before, hashes, id, at);
    }

    method FinalizeRow(id: string, o: Report) returns (ok: bool)
      requires Valid()
      modifies this`rows
      ensures Valid() && Grows(old(Contents()), Contents())
      ensures (if ok then Some(Contents()) else None) == Finalize(old(Contents()), id, o)
      ensures !ok ==> rows == old(rows)
    {
      ok := false;
      ghost var before := Contents();
      if o.reference.Some? && Blank(o.reference.value) { return; }
      if o.outcome == OutcomeSucceeded && (o.reference.None? || o.target.None?) { return; }
      if id !in rows { return; }
      var current := rows[id];
      if current.status != Pending || current.startedAt.None? { return; }
      if o.completedAt < current.startedAt.value { return; }
      if o.target.Some? && o.target.value != current.request.target { return; }
      if current.request.reversible && o.outcome == OutcomeSucceeded && o.deadline.None? { return; }
      if o.deadline.Some? && o.deadline.value < o.completedAt { return; }
      if o.outcome == OutcomeFailed && (o.reference.Some? || o.target.Some? || o.deadline.Some?) { return; }
      var status := if o.outcome == OutcomeSucceeded then Succeeded else Failed;
      rows := rows[id := current.(status := status, reference := o.reference, target := o.target,
                                  completedAt := Some(o.completedAt), deadline := o.deadline)];
      ok := true;
      FinalizeKeepsSound(before, hashes, id, o);
    }

    method FailRowBeforeExecution(id: string, at: int) returns (ok: bool)
      requires Valid()
      modifies this`rows
      ensures Valid() && Grows(old(Contents()), Contents())
      ensures (if ok then Some(Contents()) else None) == FailBeforeExecution(old(Contents()), id, at)
      ensures !ok ==> rows == old(rows)
    {
      ok := false;
      ghost var before := Contents();
      if id !in rows { return; }
      var current := rows[id];
      if current.status != Pending || current.startedAt.Some? { return; }
      if at < current.reservedAt { return; }
      rows := rows[id := current.(status := Failed, completedAt := Some(at))];
      ok := true;
      FailBeforeKeepsSound(before, hashes, id, at);
    }

    /** The receipt, if there is one, allows a compensation at this time. */
    predicate Timely(id: string, at: int)
      reads this
    {
      id in rows ==> rows[id].request.reversible && rows[id].deadline.Some? && at <= rows[id].deadline.value
    }

    /** The statement itself looks only at the status; whether the time is right is for the gate to check before. */
    method MarkRowCompensated(id: string, at: int) returns (ok: bool)
      requires Valid()
      modifies this`rows
      ensures (if ok then Some(Contents()) else None) == MarkCompensated(old(Contents()), id, at)
      ensures !ok ==> rows == old(rows)
      ensures old(Timely(id, at)) ==> Valid() && Grows(old(Contents()), Contents())
    {
      ok := false;
      ghost var before := Contents();
      if id !in rows { return; }
      if rows[id].status == Succeeded && rows[id].compensatedAt.None? {
        ghost var timely := Timely(id, at);
        rows := rows[id := rows[id].(compensatedAt := Some(at))];
        ok := true;
        if timely {
          CompensationKeepsSound(before, hashes, id, at);
        }
      }
    }
  }

  // ---- the fixture adapter ----

  datatype FixtureObject = FixtureObject(reference: string, target: string, completedAt: int, deadline: int,
                                         active: bool)

  class ReversibleFixtureAdapter {
    const referenceFor: (string, string) -> string
    var objects: map<string, FixtureObject>
    var hidden: set<string>
    var now: int
    var window: int
    /** Every permit that was ever executed. */
    ghost var calls: seq<Permit>

    constructor (referenceFor: (string, string) -> string, now: int, window: int)
      requires window > 0
      ensures this.referenceFor == referenceFor && objects == map[] && hidden == {} && this.now == now &&
        this.window == window
      ensures calls == []
    {
      calls := [];
      this.referenceFor := referenceFor;
      objects, hidden := map[], {};
      this.now, this.window := now, window;
    }

    function Told(o: FixtureObject): Report
    {
      Report(OutcomeSucceeded, Some(o.reference), Some(o.target), o.completedAt, Some(o.deadline))
    }

    function NewObject(key: string, target: string): FixtureObject
      reads this
    {
      FixtureObject(referenceFor(key, target), target, now, now + window, true)
    }

    /** Creates the object of an idempotency key once; every later call reports the same object. */
    method Execute(permit: Permit) returns (report: Report)
      modifies this`objects, this`calls
      ensures calls == old(calls) + [permit]
      ensures objects.Keys == old(objects).Keys + {permit.idempotencyKey}
      ensures forall k :: k in old(objects) ==> objects[k] == old(objects)[k]
      ensures permit.idempotencyKey !in old(objects) ==>
        objects[permit.idempotencyKey] == NewObject(permit.idempotencyKey, permit.target)
      ensures report == Told(objects[permit.idempotencyKey])
      ensures var o := objects[permit.idempotencyKey];
        && report.outcome == OutcomeSucceeded && report.reference == Some(o.reference)
        && report.target == Some(o.target) && report.completedAt == o.completedAt && report.deadline == Some(o.deadline)
      ensures permit.idempotencyKey !in old(objects) ==>
        var o := objects[permit.idempotencyKey];
        && o.reference == referenceFor(permit.idempotencyKey, permit.target) && o.target == permit.target
        && o.completedAt == now && o.deadline == now + window && o.active
    {
      calls := calls + [permit];
      var key := permit.idempotencyKey;
      if key !in objects {
        objects := objects[key := NewObject(key, permit.target)];
      }
      report := Told(objects[key]);
    }

    /** Answers from the objects that exist; None while the key is hidden. */
    method Query(key: string) returns (answer: Option<Report>)
      ensures answer.None? <==> key in hidden
      ensures answer.Some? ==>
        answer.value == if key in objects then Told(objects[key]).(completedAt := now)
          else Report(OutcomeFailed, None, None, now, None)
      ensures answer.Some? && key in objects ==>
        && answer.value.outcome == OutcomeSucceeded && answer.value.reference == Some(objects[key].reference)
        && answer.value.target == Some(objects[key].target) && answer.value.completedAt == now
        && answer.value.deadline == Some(objects[key].deadline)
    {
      if key in hidden {
        answer := None;
      } else if key !in objects {
        answer := Some(Report(OutcomeFailed, None, None, now, None));
      } else {
        answer := Some(Report(OutcomeSucceeded, Some(objects[key].reference), Some(objects[key].target), now,
          Some(objects[key].deadline)));
      }
    }

    /** Some object has the reference, and every object that has it is at the target. */
    static predicate Known(objects: map<string, FixtureObject>, reference: string, target: string)
    {
      && (exists k :: k in objects && objects[k].reference == reference)
      && forall k :: k in objects && objects[k].reference == reference ==> objects[k].target == target
    }

    /** One object that has the reference and the target was deactivated; every other is as it was. */
    static ghost predicate Undone(before: map<string, FixtureObject>, after: map<string, FixtureObject>,
                                  reference: string, target: string)
    {
      exists k ::
        && k in before
        && before[k].reference == reference
        && before[k].target == target
        && after == before[k := before[k].(active := false)]
    }

    method Undo(reference: string, target: string) returns (completedAt: Option<int>)
      modifies this`objects
      ensures objects.Keys == old(objects).Keys
      ensures forall k :: k in objects ==>
        objects[k] == old(objects)[k] || objects[k] == old(objects)[k].(active := false)
      ensures completedAt.Some? ==> completedAt == Some(now) && Undone(old(objects), objects, reference, target)
      ensures completedAt.None? ==> objects == old(objects)
      ensures Known(old(objects), reference, target) ==> completedAt.Some?
    {
      completedAt := None;
      if exists k :: k in objects && objects[k].reference == reference {
        var key :| key in objects && objects[key].reference == reference;
        if objects[key].target == target {
          objects := objects[key := objects[key].(active := false)];
          completedAt := Some(now);
        }
      }
    }
  }

  // ---- the gate ----

  class Gate {
    const store: Store
    const workspace: string
    const issuers: TrustedCapabilityIssuers

    constructor (store: Store, workspace: string, issuers: TrustedCapabilityIssuers)
      ensures this.store == store && this.workspace == workspace && this.issuers == issuers
    {
      this.store, this.workspace, this.issuers := store, workspace, issuers;
    }

    /** What a signed capability claims, once it is verified. */
    function Presented(signed: Option<SignedCapability>): Option<Verified>
    {
      if signed.None? then None
      else
        var c := signed.value;
        Some(Verified(c.workspace, c.actor, c.clientSurface, c.issuer, c.lease))
    }

    /** Verifies the capability, if one is shown, and reserves. */
    method Admit(request: ActionRequest, policy: ActionPolicy, signed: Option<SignedCapability>, now: int, hash: Hash,
                 serialise: Serialiser)
      returns (id: Option<string>)
      requires store.Valid() && IsHash(hash)
      modifies store
      ensures store.Valid() && Grows(old(store.Contents()), store.Contents())
      ensures id.None? ==> store.Contents() == old(store.Contents())
      ensures id.Some? ==> id.value !in old(store.rows) && id.value in store.rows
      ensures id.Some? ==>
        store.rows[id.value]
          == NewReceipt(workspace, request, store.hashes.request(request), store.rows[id.value].capabilityId, now)
      ensures id.Some? ==>
        && id.value == store.hashes.receipt(store.hashes.request(request), request.idempotencyKey)
        && store.rows == old(store.rows)[id.value := Receipt(workspace, store.hashes.request(request),
            request.idempotencyKey, store.rows[id.value].capabilityId, request, Pending, now, None, None, None, None,
            None, None)]
        && (store.rows[id.value].capabilityId.None? ==> Standing(request, policy) && store.uses == old(store.uses))
        && (store.rows[id.value].capabilityId.Some? ==>
              && signed.Some? && store.rows[id.value].capabilityId == Some(signed.value.lease.grantId)
              && store.uses
                 == old(store.uses)[signed.value.lease.grantId := CapabilityUse(signed.value.issuer, id.value)])
      ensures id.Some? && signed.Some? ==>
        && signed.value.actor == request.actor && signed.value.clientSurface == request.clientSurface
        && signed.value.lease.requestHash == store.hashes.request(request)
        && signed.value.lease.action == request.action && signed.value.lease.target == request.target
      ensures id.Some? && signed.Some? ==>
        Genuine(issuers.keys, signed.value, now, hash, serialise) && signed.value.workspace == workspace
      ensures id.Some? && signed.None? ==>
        request.action == Read || ((request.action == Create || request.action == Update) && request.reversible)
      ensures id.Some? ==>
        (Reserve(old(store.Contents()), store.hashes, workspace, request, policy, Presented(signed), now)
          == Some((store.Contents(), id.value)))
      ensures id.Some? <==>
        && (signed.Some? ==> Genuine(issuers.keys, signed.value, now, hash, serialise))
        && Reserve(old(store.Contents()), store.hashes, workspace, request, policy, Presented(signed), now).Some?
    {
      id := None;
      if signed.Some? {
        var failure := issuers.Verify(signed.value, now, hash, serialise);
        if failure.Some? { return; }
      }
      var verified := Presented(signed);
      ghost var before := store.Contents();
      id := store.ReserveRow(workspace, request, policy, verified, now);
      if id.Some? {
        var k, c, i := ReserveInserts(before, store.hashes, workspace, request, policy, verified, now);
      }
    }

    /** A reserved receipt that nobody started. */
    predicate Waiting(id: string, now: int)
      reads store
    {
      id in store.rows && store.rows[id].status == Pending && store.rows[id].startedAt.None? &&
        store.rows[id].reservedAt <= now
    }

    /**
     * Records the start and only then calls the adapter; cut says that the process ends in between. Another
     * gate may have settled the receipt since it was reserved; then nothing is called.
     */
    method Launch(id: string, now: int, adapter: ReversibleFixtureAdapter, cut: bool)
      returns (started: bool, report: Option<Report>)
      requires store.Valid()
      modifies store`rows, adapter`objects, adapter`calls
      ensures store.Valid() && Grows(old(store.Contents()), store.Contents())
      ensures (if started then Some(store.Contents()) else None) == StartExecution(old(store.Contents()), id, now)
      ensures started <==> old(Waiting(id, now))
      ensures !started ==> store.rows == old(store.rows)
      ensures !started || cut ==>
        report.None? && adapter.objects == old(adapter.objects) && adapter.calls == old(adapter.calls)
      ensures started ==> store.rows == old(store.rows)[id := old(store.rows)[id].(startedAt := Some(now))]
      ensures started && !cut ==>
        && adapter.calls == old(adapter.calls) + [PermitFor(id, store.rows[id])]
        && adapter.calls[|old(adapter.calls)|] == Permit(id, store.rows[id].workspace, store.rows[id].requestHash,
            store.rows[id].idempotencyKey, store.rows[id].request.target)
        && store.rows[id].idempotencyKey in adapter.objects
        && report == Some(adapter.Told(adapter.objects[store.rows[id].idempotencyKey]))
        && adapter.objects.Keys == old(adapter.objects).Keys + {store.rows[id].idempotencyKey}
        && forall k :: k in old(adapter.objects) ==> adapter.objects[k] == old(adapter.objects)[k]
      ensures started && !cut && store.rows[id].idempotencyKey !in old(adapter.objects) ==>
        && report == Some(adapter.Told(adapter.NewObject(store.rows[id].idempotencyKey, store.rows[id].request.target)))
        && adapter.objects[store.rows[id].idempotencyKey]
           == adapter.NewObject(store.rows[id].idempotencyKey, store.rows[id].request.target)
    {
      report := None;
      started := store.StartRow(id, now);
      if started && !cut {
        var told := adapter.Execute(PermitFor(id, store.rows[id]));
        report := Some(told);
      }
    }

    /** The ledger after a start and, if it could be recorded, its outcome; or as it was, if there was no start. */
    ghost predicate Recorded(before: Ledger, id: string, now: int, outcome: Report, after: Ledger, finished: bool)
    {
      var started := StartExecution(before, id, now);
      if started.None? then FinishedAs(before, None, after, finished)
      else FinishedAs(started.value, Finalize(started.value, id, outcome), after, finished)
    }

    /** A transaction took effect as a whole, or not at all. */
    ghost predicate FinishedAs(before: Ledger, result: Option<Ledger>, after: Ledger, done: bool)
    {
      done == result.Some? && after == if result.Some? then result.value else before
    }

    /** A whole run after its reservation: a first execution of the key always ends in success. */
    method Perform(id: string, now: int, adapter: ReversibleFixtureAdapter)
      returns (finished: bool, ghost outcome: Report)
      requires store.Valid()
      modifies store`rows, adapter`objects, adapter`calls
      ensures Recorded(old(store.Contents()), id, now, outcome, store.Contents(), finished)
      ensures store.Valid() && Grows(old(store.Contents()), store.Contents())
      ensures !old(Waiting(id, now)) ==>
        !finished && adapter.objects == old(adapter.objects) && adapter.calls == old(adapter.calls)
      ensures old(Waiting(id, now)) ==>
        && adapter.calls == old(adapter.calls) + [PermitFor(id, old(store.rows)[id])]
        && id in store.rows && store.rows[id].startedAt == Some(now)
        && old(store.rows)[id].idempotencyKey in adapter.objects
        && adapter.objects.Keys == old(adapter.objects).Keys + {old(store.rows)[id].idempotencyKey}
        && (forall k :: k in old(adapter.objects) ==> adapter.objects[k] == old(adapter.objects)[k])
        && (finished ==> store.rows[id].status == Succeeded)
        && (finished ==>
              store.rows[id].reference == Some(adapter.objects[old(store.rows)[id].idempotencyKey].reference))
        && (FirstExecution(old(store.rows)[id], old(adapter.objects), now, adapter) ==> finished)
      ensures finished ==>
        && old(Waiting(id, now))
        && var o := adapter.objects[old(store.rows)[id].idempotencyKey];
           store.rows == old(store.rows)[id := old(store.rows)[id].(
             status := Succeeded, startedAt := Some(now), completedAt := Some(o.completedAt),
             reference := Some(o.reference), target := Some(o.target), deadline := Some(o.deadline))]
      ensures old(Waiting(id, now)) ==>
        var c := old(store.rows)[id];
        (c.idempotencyKey !in old(adapter.objects) && now <= adapter.now && adapter.window > 0 &&
        !Blank(adapter.referenceFor(c.idempotencyKey, c.request.target))) ==> finished
      ensures finished && old(store.rows)[id].idempotencyKey !in old(adapter.objects) ==>
        && store.rows[id].completedAt == Some(adapter.now)
        && store.rows[id].deadline == Some(adapter.now + adapter.window)
        && store.rows[id].reference
           == Some(adapter.referenceFor(old(store.rows)[id].idempotencyKey, old(store.rows)[id].request.target))
        && store.rows[id].target == Some(old(store.rows)[id].request.target)
    {
      hide Sound, Grows;
      finished, outcome := false, Report(OutcomeFailed, None, None, now, None);
      ghost var before := store.Contents();
      var begun, report := Launch(id, now, adapter, false);
      if !begun { return; }
      ghost var started := store.Contents();
      outcome := report.value;
      finished := store.FinalizeRow(id, report.value);
      GrowsIsTransitive(before, started, store.Contents());
    }

    predicate FirstExecution(c: Receipt, objects: map<string, FixtureObject>, now: int,
                             adapter: ReversibleFixtureAdapter)
      reads adapter
    {
      && c.idempotencyKey !in objects && now <= adapter.now && adapter.window > 0
      && !Blank(adapter.referenceFor(c.idempotencyKey, c.request.target))
    }

    /**
     * Pending here, and either never started, or known to the adapter to be absent, or known to it as
     * asked for and still within the compensation deadline.
     */
    predicate Settles(rows: map<string, Receipt>, id: string, observedAt: int, adapter: ReversibleFixtureAdapter)
      reads adapter
    {
      && id in rows && rows[id].workspace == workspace && rows[id].status == Pending
      && if rows[id].startedAt.None? then rows[id].reservedAt <= observedAt
         else
           && rows[id].startedAt.value <= observedAt && adapter.now == observedAt &&
             rows[id].idempotencyKey !in adapter.hidden
           && (rows[id].idempotencyKey in adapter.objects ==>
                 var o := adapter.objects[rows[id].idempotencyKey];
                 o.target == rows[id].request.target && !Blank(o.reference) && observedAt <= o.deadline)
    }

    /** The one transaction that a reconciliation comes to, given what the adapter told it. */
    function Reconciled(l: Ledger, id: string, observedAt: int, clock: int, told: Option<Report>): Option<Ledger>
    {
      if id !in l.rows || l.rows[id].workspace != workspace || l.rows[id].status != Pending then None
      else if l.rows[id].startedAt.None? then FailBeforeExecution(l, id, observedAt)
      else if clock != observedAt || told.None? then None
      else Finalize(l, id, told.value.(completedAt := clock))
    }

    /** Settles a receipt that its runner left pending, by asking the adapter what became of it. */
    method Reconcile(id: string, observedAt: int, adapter: ReversibleFixtureAdapter)
      returns (settled: bool, ghost told: Option<Report>)
      requires store.Valid()
      modifies store`rows
      ensures FinishedAs(old(store.Contents()), Reconciled(old(store.Contents()), id, observedAt, adapter.now, told),
        store.Contents(), settled)
      ensures store.Valid() && Grows(old(store.Contents()), store.Contents())
      ensures !settled ==> store.rows == old(store.rows)
      ensures settled ==>
        id in store.rows && id in old(store.rows) && store.rows[id].status != Pending &&
          old(store.rows)[id].status == Pending
      ensures settled && store.rows[id].status == Succeeded ==>
        store.rows[id].idempotencyKey in adapter.objects &&
          store.rows[id].reference == Some(adapter.objects[store.rows[id].idempotencyKey].reference)
      ensures settled && store.rows[id].status == Failed && store.rows[id].startedAt.Some? ==>
        store.rows[id].idempotencyKey !in adapter.objects
      ensures settled ==>
        var before := old(store.rows)[id];
        var known := before.startedAt.Some? && before.idempotencyKey in adapter.objects;
        store.rows == old(store.rows)[id :=
          if known then
            var o := adapter.objects[before.idempotencyKey];
            before.(status := Succeeded, completedAt := Some(observedAt), reference := Some(o.reference),
                    target := Some(o.target), deadline := Some(o.deadline))
          else before.(status := Failed, completedAt := Some(observedAt))]
      ensures settled <==> old(Settles(store.rows, id, observedAt, adapter))
    {
      hide Sound;
      settled, told := false, None;
      if id !in store.rows { return; }
      var current := store.rows[id];
      if current.workspace != workspace || current.status != Pending { return; }
      PendingHasNothing(store.Contents(), store.hashes, id);
      if current.startedAt.None? {
        settled := store.FailRowBeforeExecution(id, observedAt);
        return;
      }
      var answer := adapter.Query(current.idempotencyKey);
      told := answer;
      if adapter.now != observedAt || answer.None? { return; }
      settled := store.FinalizeRow(id, answer.value);
    }

    /** The receipt may be compensated, the object is known, and the clock is in the permitted window. */
    predicate Undoable(rows: map<string, Receipt>, id: string, now: int, adapter: ReversibleFixtureAdapter)
      reads adapter
    {
      && id in rows && Compensable(rows[id], workspace, now)
      && now <= adapter.now <= rows[id].deadline.value
      && ReversibleFixtureAdapter.Known(adapter.objects, rows[id].reference.value, rows[id].target.value)
    }

    /** The one transaction that a compensation comes to, given when the adapter says it undid the action. */
    function CompensatedAt(l: Ledger, id: string, now: int, undone: Option<int>): Option<Ledger>
    {
      if id !in l.rows || !Compensable(l.rows[id], workspace, now) || undone.None? then None
      else if undone.value < now || undone.value > l.rows[id].deadline.value then None
      else MarkCompensated(l, id, undone.value)
    }

    /** Undoes a reversible success within its deadline and records that once. */
    method Compensate(id: string, now: int, adapter: ReversibleFixtureAdapter)
      returns (done: bool, ghost undone: Option<int>)
      requires store.Valid()
      modifies store`rows, adapter`objects
      ensures FinishedAs(old(store.Contents()), CompensatedAt(old(store.Contents()), id, now, undone),
        store.Contents(), done)
      ensures store.Valid() && Grows(old(store.Contents()), store.Contents())
      ensures adapter.objects != old(adapter.objects) ==>
        id in old(store.rows) && Compensable(old(store.rows)[id], workspace, now)
      ensures done ==> id in old(store.rows) && old(store.rows)[id].compensatedAt.None?
      ensures done ==> store.rows == old(store.rows)[id := old(store.rows)[id].(compensatedAt := Some(adapter.now))]
      ensures done ==>
        exists k :: k in adapter.objects && Some(adapter.objects[k].reference) == old(store.rows)[id].reference &&
          !adapter.objects[k].active
      ensures done ==>
        now <= adapter.now && old(store.rows)[id].deadline.Some? && adapter.now <= old(store.rows)[id].deadline.value
      ensures done ==>
        && old(store.rows)[id].reference.Some? && old(store.rows)[id].target.Some?
        && ReversibleFixtureAdapter.Undone(old(adapter.objects), adapter.objects,
             old(store.rows)[id].reference.value, old(store.rows)[id].target.value)
      ensures done ==>
        var c := old(store.rows)[id];
        && c.workspace == workspace && c.status == Succeeded && c.request.reversible
        && c.target == Some(c.request.target) && c.deadline.Some? && now <= c.deadline.value
      ensures !done ==> store.rows == old(store.rows)
      ensures old(Undoable(store.rows, id, now, adapter)) ==> done
      ensures id in old(store.rows) ==>
        var c, objects := old(store.rows)[id], old(adapter.objects);
        && c.workspace == workspace && c.status == Succeeded && c.compensatedAt.None? && c.request.reversible
        && c.target == Some(c.request.target) && c.deadline.Some? && now <= adapter.now <= c.deadline.value
        && (exists k :: k in objects && Some(objects[k].reference) == c.reference)
        && (forall k :: k in objects && Some(objects[k].reference) == c.reference ==>
              objects[k].target == c.request.target)
        ==> done
    {
      done, undone := false, None;
      if id !in store.rows { return; }
      var current := store.rows[id];
      if !Compensable(current, workspace, now) { return; }
      var completedAt := adapter.Undo(current.reference.value, current.target.value);
      undone := completedAt;
      if completedAt.None? { return; }
      if completedAt.value < now || completedAt.value > current.deadline.value { return; }
      done := store.MarkRowCompensated(id, completedAt.value);
    }
  }
}
