/**
 * The receipts of external actions and the serialised transactions that change them: reserving,
 * marking the start, fixing the outcome, failing before the start, and recording a compensation.
 */
module ReceiptLedger {
  import opened Wrappers
  import opened ActionGovernance
  import opened Text

  datatype Status = Pending | Succeeded | Failed

  datatype Receipt = Receipt(
    workspace: string,
    requestHash: string,
    idempotencyKey: string,
    capabilityId: Option<string>,
    request: ActionRequest,
    status: Status,
    reservedAt: int,
    startedAt: Option<int>,
    completedAt: Option<int>,
    reference: Option<string>,
    target: Option<string>,
    deadline: Option<int>,
    compensatedAt: Option<int>)

  datatype CapabilityUse = CapabilityUse(issuer: string, receiptId: string)

  datatype Ledger = Ledger(rows: map<string, Receipt>, uses: map<string, CapabilityUse>)

  /** The two hash functions; nothing is assumed about them. */
  datatype Hashes = Hashes(request: ActionRequest -> string, receipt: (string, string) -> string)

  /** A capability whose signature, times and single use were verified. */
  datatype Verified = Verified(workspace: string, actor: string, clientSurface: string, issuer: string,
                               lease: CapabilityLease)

  datatype Outcome = OutcomeSucceeded | OutcomeFailed

  /** What an adapter reports about an execution, or about a query for one. */
  datatype Report = Report(outcome: Outcome, reference: Option<string>, target: Option<string>, completedAt: int,
                           deadline: Option<int>)

  // ---- the transactions as functions; None means that nothing was committed ----

  predicate Scoped(v: Verified, workspace: string, r: ActionRequest, hash: string)
  {
    && v.workspace == workspace && v.actor == r.actor && v.clientSurface == r.clientSurface
    && v.lease.requestHash == hash && v.lease.action == r.action && v.lease.target == r.target
  }

  predicate Known(l: Ledger, hash: string, key: string)
  {
    exists id :: id in l.rows && (l.rows[id].requestHash == hash || l.rows[id].idempotencyKey == key)
  }

  function NewReceipt(workspace: string, r: ActionRequest, hash: string, capabilityId: Option<string>,
                      now: int): Receipt
  {
    Receipt(workspace, hash, r.idempotencyKey, capabilityId, r, Pending, now, None, None, None, None, None, None)
  }

  function Reserve(l: Ledger, h: Hashes, workspace: string, r: ActionRequest, policy: ActionPolicy, v: Option<Verified>,
                   now: int): Option<(Ledger, string)>
  {
    var hash := h.request(r);
    var id := h.receipt(hash, r.idempotencyKey);
    var decision := Evaluate(r, hash, policy, if v.Some? then Some(v.value.lease) else None, [], now);
    if Blank(workspace) then None
    else if v.Some? && !Scoped(v.value, workspace, r, hash) then None
    else if Known(l, hash, r.idempotencyKey) || id in l.rows || !decision.Allow? then None
    else
      match decision.authorization
      case StandingPolicy => Some((l.(rows := l.rows[id := NewReceipt(workspace, r, hash, None, now)]), id))
      case Capability(grantId) =>
        if v.None? || grantId in l.uses || (exists c :: c in l.uses && l.uses[c].receiptId == id) then None
        else Some((Ledger(l.rows[id := NewReceipt(workspace, r, hash, Some(grantId), now)],
          l.uses[grantId := CapabilityUse(v.value.issuer, id)]), id))
  }

  function StartExecution(l: Ledger, id: string, at: int): Option<Ledger>
  {
    if id !in l.rows then None
    else
      var c := l.rows[id];
      if c.status != Pending || c.startedAt.Some? || at < c.reservedAt then None
      else Some(l.(rows := l.rows[id := c.(startedAt := Some(at))]))
  }

  predicate Consistent(c: Receipt, o: Report)
  {
    && (o.reference.Some? ==> !Blank(o.reference.value))
    && (o.outcome == OutcomeSucceeded ==> o.reference.Some? && o.target.Some?)
    && (o.target.Some? ==> o.target.value == c.request.target)
    && (c.request.reversible && o.outcome == OutcomeSucceeded ==> o.deadline.Some?)
    && (o.deadline.Some? ==> o.completedAt <= o.deadline.value)
    && (o.outcome == OutcomeFailed ==> o.reference.None? && o.target.None? && o.deadline.None?)
  }

  function Finalize(l: Ledger, id: string, o: Report): Option<Ledger>
  {
    if id !in l.rows then None
    else
      var c := l.rows[id];
      if c.status != Pending || c.startedAt.None? || o.completedAt < c.startedAt.value || !Consistent(c, o) then None
      else Some(l.(rows := l.rows[id := c.(status := if o.outcome == OutcomeSucceeded then Succeeded else Failed,
                                           reference := o.reference, target := o.target,
                                           completedAt := Some(o.completedAt), deadline := o.deadline)]))
  }

  function FailBeforeExecution(l: Ledger, id: string, at: int): Option<Ledger>
  {
    if id !in l.rows then None
    else
      var c := l.rows[id];
      if c.status != Pending || c.startedAt.Some? || at < c.reservedAt then None
      else Some(l.(rows := l.rows[id := c.(status := Failed, completedAt := Some(at))]))
  }

  function MarkCompensated(l: Ledger, id: string, at: int): Option<Ledger>
  {
    if id !in l.rows || l.rows[id].status != Succeeded || l.rows[id].compensatedAt.Some? then None
    else Some(l.(rows := l.rows[id := l.rows[id].(compensatedAt := Some(at))]))
  }

  /** What recording an outcome comes to: when it can be recorded, and what the row says then. */
  lemma FinalizeRecords(l: Ledger, id: string, o: Report)
    ensures Finalize(l, id, o).Some? <==>
      && id in l.rows && l.rows[id].status == Pending && l.rows[id].startedAt.Some?
      && l.rows[id].startedAt.value <= o.completedAt
      && (o.outcome == OutcomeSucceeded ==>
            && o.reference.Some? && !Blank(o.reference.value) && o.target == Some(l.rows[id].request.target)
            && (o.deadline.None? ==> !l.rows[id].request.reversible)
            && (o.deadline.Some? ==> o.completedAt <= o.deadline.value))
      && (o.outcome == OutcomeFailed ==> o.reference.None? && o.target.None? && o.deadline.None?)
    ensures Finalize(l, id, o).Some? ==>
      var m := Finalize(l, id, o).value;
      && m.uses == l.uses && m.rows.Keys == l.rows.Keys
      && (forall other :: other in l.rows && other != id ==> m.rows[other] == l.rows[other])
      && (m.rows[id].status == Succeeded <==> o.outcome == OutcomeSucceeded) && m.rows[id].status != Pending
      && m.rows[id].completedAt == Some(o.completedAt) && m.rows[id].deadline == o.deadline
      && m.rows[id].reference == o.reference && m.rows[id].target == o.target
      && m.rows[id].startedAt == l.rows[id].startedAt && m.rows[id].compensatedAt == l.rows[id].compensatedAt
      && m.rows[id].request == l.rows[id].request && m.rows[id].workspace == l.rows[id].workspace
  {
  }

  // ---- what every committed ledger satisfies ----

  /** One receipt tells a possible history. */
  predicate Plausible(c: Receipt)
  {
    && (c.capabilityId.None? ==> Harmless(c.request))
    && (c.startedAt.Some? ==> c.reservedAt <= c.startedAt.value)
    && (c.completedAt.Some? <==> c.status != Pending)
    && (c.completedAt.Some? ==> c.reservedAt <= c.completedAt.value)
    && (c.completedAt.Some? && c.startedAt.Some? ==> c.startedAt.value <= c.completedAt.value)
    && (if c.status == Succeeded then
          && c.startedAt.Some?
          && c.reference.Some? && !Blank(c.reference.value)
          && c.target == Some(c.request.target)
          && (c.request.reversible ==> c.deadline.Some?)
          && (c.deadline.Some? ==> c.completedAt.value <= c.deadline.value)
        else
          c.reference.None? && c.target.None? && c.deadline.None? && c.compensatedAt.None?)
    && (c.compensatedAt.Some? ==> c.request.reversible && c.deadline.Some? && c.compensatedAt.value <= c.deadline.value)
  }

  predicate Named(h: Hashes, id: string, c: Receipt)
  {
    && c.requestHash == h.request(c.request)
    && c.idempotencyKey == c.request.idempotencyKey
    && id == h.receipt(c.requestHash, c.idempotencyKey)
  }

  ghost predicate Unique(l: Ledger)
  {
    forall a, b :: a in l.rows && b in l.rows && a != b ==>
      l.rows[a].requestHash != l.rows[b].requestHash && l.rows[a].idempotencyKey != l.rows[b].idempotencyKey
  }

  /** Consumed capabilities and the receipts they paid for are in one-to-one correspondence. */
  ghost predicate Paired(l: Ledger)
  {
    && (forall c :: c in l.uses ==>
      l.uses[c].receiptId in l.rows && l.rows[l.uses[c].receiptId].capabilityId == Some(c))
    && (forall id :: id in l.rows && l.rows[id].capabilityId.Some? ==>
          l.rows[id].capabilityId.value in l.uses && l.uses[l.rows[id].capabilityId.value].receiptId == id)
  }

  ghost predicate Sound(l: Ledger, h: Hashes)
  {
    && Unique(l) && Paired(l)
    && forall id :: id in l.rows ==> Named(h, id, l.rows[id]) && Plausible(l.rows[id])
  }

  /** How a receipt may change: its identity never, its outcome once, its compensation once. */
  predicate Evolves(a: Receipt, b: Receipt)
  {
    && b.workspace == a.workspace && b.requestHash == a.requestHash && b.idempotencyKey == a.idempotencyKey
    && b.capabilityId == a.capabilityId && b.request == a.request && b.reservedAt == a.reservedAt
    && (a.startedAt.Some? ==> b.startedAt == a.startedAt)
    && (a.status != Pending ==> b == a.(compensatedAt := b.compensatedAt))
    && (a.compensatedAt.Some? ==> b == a)
  }

  ghost predicate Grows(l: Ledger, m: Ledger)
  {
    && (forall id :: id in l.rows ==> id in m.rows && Evolves(l.rows[id], m.rows[id]))
    && (forall c :: c in l.uses ==> c in m.uses && m.uses[c] == l.uses[c])
  }

  lemma GrowsIsTransitive(l: Ledger, m: Ledger, n: Ledger)
    requires Grows(l, m) && Grows(m, n)
    ensures Grows(l, n)
  {
  }

  function Inserted(l: Ledger, id: string, c: Receipt, issuer: string): Ledger
  {
    Ledger(l.rows[id := c],
           if c.capabilityId.Some? then l.uses[c.capabilityId.value := CapabilityUse(issuer, id)] else l.uses)
  }

  lemma InsertKeepsUnique(l: Ledger, id: string, c: Receipt, issuer: string)
    requires Unique(l) && id !in l.rows && !Known(l, c.requestHash, c.idempotencyKey)
    ensures Unique(Inserted(l, id, c, issuer))
  {
    var m := Inserted(l, id, c, issuer);
    forall a, b | a in m.rows && b in m.rows && a != b
      ensures m.rows[a].requestHash != m.rows[b].requestHash && m.rows[a].idempotencyKey != m.rows[b].idempotencyKey
    {
      assert a in l.rows || b in l.rows;
    }
  }

  lemma InsertKeepsPaired(l: Ledger, id: string, c: Receipt, issuer: string)
    requires Paired(l) && id !in l.rows && (c.capabilityId.Some? ==> c.capabilityId.value !in l.uses)
    ensures Paired(Inserted(l, id, c, issuer))
  {
    var m := Inserted(l, id, c, issuer);
    forall k | k in m.uses ensures m.uses[k].receiptId in m.rows &&
      m.rows[m.uses[k].receiptId].capabilityId == Some(k) {
      assert k in l.uses || c.capabilityId == Some(k);
    }
    forall k | k in m.rows && m.rows[k].capabilityId.Some?
      ensures m.rows[k].capabilityId.value in m.uses && m.uses[m.rows[k].capabilityId.value].receiptId == k
    {
      assert k in l.rows || k == id;
    }
  }

  lemma InsertKeepsSound(l: Ledger, h: Hashes, id: string, c: Receipt, issuer: string)
    requires Sound(l, h) && id !in l.rows && !Known(l, c.requestHash, c.idempotencyKey)
    requires c.capabilityId.Some? ==> c.capabilityId.value !in l.uses
    requires Named(h, id, c) && Plausible(c)
    ensures Sound(Inserted(l, id, c, issuer), h) && Grows(l, Inserted(l, id, c, issuer))
  {
    InsertKeepsUnique(l, id, c, issuer);
    InsertKeepsPaired(l, id, c, issuer);
    forall k | k in Inserted(l, id, c, issuer).rows
      ensures Named(h, k, Inserted(l, id, c, issuer).rows[k]) && Plausible(Inserted(l, id, c, issuer).rows[k])
    {
      assert k == id || k in l.rows;
    }
  }

  /** What a successful reservation inserts: a receipt for an unknown request that is harmless or paid for. */
  lemma ReserveInserts(l: Ledger, h: Hashes, workspace: string, r: ActionRequest, policy: ActionPolicy,
                       v: Option<Verified>, now: int)
    returns (id: string, c: Receipt, issuer: string)
    requires Reserve(l, h, workspace, r, policy, v, now).Some?
    ensures Reserve(l, h, workspace, r, policy, v, now).value == (Inserted(l, id, c, issuer), id)
    ensures id !in l.rows && !Known(l, c.requestHash, c.idempotencyKey) && Named(h, id, c)
    ensures c.capabilityId.Some? ==> c.capabilityId.value !in l.uses
    ensures c == NewReceipt(workspace, r, h.request(r), c.capabilityId, now) && (c.capabilityId.None? ==> Harmless(r))
    ensures c == Receipt(workspace, h.request(r), r.idempotencyKey, c.capabilityId, r, Pending, now, None, None, None,
      None, None, None)
    ensures id == h.receipt(h.request(r), r.idempotencyKey)
    ensures c.capabilityId.None? <==> Standing(r, policy)
    ensures c.capabilityId.Some? ==>
      v.Some? && c.capabilityId == Some(v.value.lease.grantId) && issuer == v.value.issuer
    ensures var (m, _) := Reserve(l, h, workspace, r, policy, v, now).value;
      && m.rows == l.rows[id := c]
      && m.uses == if c.capabilityId.None? then l.uses else l.uses[c.capabilityId.value := CapabilityUse(issuer, id)]
  {
    var hash := h.request(r);
    var lease := if v.Some? then Some(v.value.lease) else None;
    var decision := Evaluate(r, hash, policy, lease, [], now);
    issuer := if v.Some? then v.value.issuer else "";
    id := h.receipt(hash, r.idempotencyKey);
    AllowedIffInOrderAndAuthorised(r, hash, policy, lease, [], now);
    if decision.authorization.StandingPolicy? {
      StandingPolicyAllowsOnlyHarmless(r, hash, policy, lease, [], now);
      c := NewReceipt(workspace, r, hash, None, now);
    } else {
      CapabilityAllowsOnlyItsRequest(r, hash, policy, lease, [], now);
      c := NewReceipt(workspace, r, hash, Some(decision.authorization.grantId), now);
    }
  }

  /**
   * A request is reserved exactly if it is in order, authorised and new, and its capability unspent;
   * the ledger's own identifiers never stand in the way, unless the hash that makes them confuses two keys.
   */
  lemma ReservedIffAllowedAndNew(l: Ledger, h: Hashes, workspace: string, r: ActionRequest, policy: ActionPolicy,
                                 v: Option<Verified>, now: int)
    requires Sound(l, h)
    requires forall id :: id in l.rows && id == h.receipt(h.request(r), r.idempotencyKey) ==>
      l.rows[id].idempotencyKey == r.idempotencyKey
    ensures Reserve(l, h, workspace, r, policy, v, now).Some? <==>
      && !Blank(workspace)
      && (forall id :: id in l.rows ==>
            l.rows[id].requestHash != h.request(r) && l.rows[id].idempotencyKey != r.idempotencyKey)
      && (v.Some? ==>
            && v.value.workspace == workspace && v.value.actor == r.actor && v.value.clientSurface == r.clientSurface
            && v.value.lease.requestHash == h.request(r) && v.value.lease.action == r.action
            && v.value.lease.target == r.target)
      && InOrder(r, h.request(r), policy, [], now)
      && (Standing(r, policy)
          || (v.Some? && Binding(v.value.lease, r, h.request(r), now) && Covered(r.cost, v.value.lease.maxCost)
              && v.value.lease.grantId !in l.uses))
  {
    var lease := if v.Some? then Some(v.value.lease) else None;
    var hash := h.request(r);
    AllowedIffInOrderAndAuthorised(r, hash, policy, lease, [], now);
    if lease.Some? && Evaluate(r, hash, policy, lease, [], now).Allow? && !Standing(r, policy) {
      CapabilityAllowsOnlyItsRequest(r, hash, policy, lease, [], now);
    }
    hide Evaluate, InOrder, Binding, Covered;
    assert Known(l, hash, r.idempotencyKey) || h.receipt(hash, r.idempotencyKey) !in l.rows;
  }

  lemma PendingHasNothing(l: Ledger, h: Hashes, id: string)
    requires Sound(l, h) && id in l.rows && l.rows[id].status == Pending
    ensures var c := l.rows[id];
      c.completedAt.None? && c.reference.None? && c.target.None? && c.deadline.None? && c.compensatedAt.None?
  {
  }

  lemma NewIsPlausible(workspace: string, r: ActionRequest, hash: string, capabilityId: Option<string>, now: int)
    requires capabilityId.None? ==> Harmless(r)
    ensures Plausible(NewReceipt(workspace, r, hash, capabilityId, now))
  {
  }

  lemma ReserveKeepsSound(l: Ledger, h: Hashes, workspace: string, r: ActionRequest, policy: ActionPolicy,
                          v: Option<Verified>, now: int)
    requires Sound(l, h) && Reserve(l, h, workspace, r, policy, v, now).Some?
    ensures var (m, id) := Reserve(l, h, workspace, r, policy, v, now).value;
      Sound(m, h) && Grows(l, m) && id !in l.rows && m.rows.Keys == l.rows.Keys + {id}
      && m.rows[id].status == Pending && m.rows[id].startedAt.None?
  {
    hide Reserve, Evaluate, Known;
    var id, c, issuer := ReserveInserts(l, h, workspace, r, policy, v, now);
    NewIsPlausible(workspace, r, h.request(r), c.capabilityId, now);
    hide Sound, Grows, Plausible, Harmless, Named;
    InsertKeepsSound(l, h, id, c, issuer);
  }

  lemma UpdateKeepsUnique(l: Ledger, id: string, c: Receipt)
    requires Unique(l) && id in l.rows && Evolves(l.rows[id], c)
    ensures Unique(l.(rows := l.rows[id := c]))
  {
    var m := l.(rows := l.rows[id := c]);
    forall a, b | a in m.rows && b in m.rows && a != b
      ensures m.rows[a].requestHash != m.rows[b].requestHash && m.rows[a].idempotencyKey != m.rows[b].idempotencyKey
    {
      assert l.rows[a].requestHash != l.rows[b].requestHash;
    }
  }

  lemma UpdateKeepsPaired(l: Ledger, id: string, c: Receipt)
    requires Paired(l) && id in l.rows && Evolves(l.rows[id], c)
    ensures Paired(l.(rows := l.rows[id := c]))
  {
    var m := l.(rows := l.rows[id := c]);
    forall k | k in m.rows ensures m.rows[k].capabilityId == l.rows[k].capabilityId {
    }
  }

  /** Replaces one row by a later version of itself. */
  lemma UpdateKeepsSound(l: Ledger, h: Hashes, id: string, c: Receipt)
    requires Sound(l, h) && id in l.rows && Evolves(l.rows[id], c) && Plausible(c)
    ensures Sound(l.(rows := l.rows[id := c]), h) && Grows(l, l.(rows := l.rows[id := c]))
  {
    hide Unique, Paired, Evolves, Plausible, Named;
    UpdateKeepsUnique(l, id, c);
    UpdateKeepsPaired(l, id, c);
    UpdateEvolves(l, h, id, c);
  }

  lemma UpdateEvolves(l: Ledger, h: Hashes, id: string, c: Receipt)
    requires id in l.rows && Evolves(l.rows[id], c) && Named(h, id, l.rows[id])
    ensures Named(h, id, c)
    ensures forall k :: k in l.rows ==> Evolves(l.rows[k], l.rows[k])
  {
  }

  lemma StartKeepsSound(l: Ledger, h: Hashes, id: string, at: int)
    requires Sound(l, h) && StartExecution(l, id, at).Some?
    ensures var m := StartExecution(l, id, at).value; Sound(m, h) && Grows(l, m)
  {
    UpdateKeepsSound(l, h, id, l.rows[id].(startedAt := Some(at)));
  }

  lemma FinalizeKeepsSound(l: Ledger, h: Hashes, id: string, o: Report)
    requires Sound(l, h) && Finalize(l, id, o).Some?
    ensures var m := Finalize(l, id, o).value; Sound(m, h) && Grows(l, m)
  {
    UpdateKeepsSound(l, h, id, Finalize(l, id, o).value.rows[id]);
  }

  lemma FailBeforeKeepsSound(l: Ledger, h: Hashes, id: string, at: int)
    requires Sound(l, h) && FailBeforeExecution(l, id, at).Some?
    ensures var m := FailBeforeExecution(l, id, at).value; Sound(m, h) && Grows(l, m)
  {
    UpdateKeepsSound(l, h, id, FailBeforeExecution(l, id, at).value.rows[id]);
  }

  lemma CompensationKeepsSound(l: Ledger, h: Hashes, id: string, at: int)
    requires Sound(l, h) && MarkCompensated(l, id, at).Some?
    requires l.rows[id].request.reversible && l.rows[id].deadline.Some? && at <= l.rows[id].deadline.value
    ensures var m := MarkCompensated(l, id, at).value; Sound(m, h) && Grows(l, m)
  {
    UpdateKeepsSound(l, h, id, MarkCompensated(l, id, at).value.rows[id]);
  }
}
