/** One supervised update, from taking over the lock to acceptance or restoration. */
module UpdateSupervision {
  import opened Wrappers
  import opened BundleProtocol
  import opened BundleTransaction
  import opened AcceptanceWait
  import opened UpdateAcceptance
  import opened UpdateSupervisor

  /** What the supervisor started in the installation directory, in order. */
  datatype Launch = BootLaunch | OldLaunch

  /** What the surroundings answer during one supervised update. */
  datatype Surroundings = Surroundings(
    /** The record that the supervisor is there can be written. */
    readyRecorded: bool,
    /** Whether the application still runs can be found out, and it leaves in time. */
    guiWatched: bool,
    guiLeaves: bool,
    compatible: bool,
    bootStarts: bool,
    polls: nat -> Poll,
    start: nat,
    timeout: nat,
    stable: nat,
    /**
     * After a failed start: the journal can be read, the child stopped, the failure recorded, the old version
     * started.
     */
    inspectable: bool,
    stoppable: bool,
    failureRecorded: bool,
    oldStarts: bool)

  /** The application leaves, the versions fit, the candidate starts and reports in time. */
  ghost predicate Favourable(w: Surroundings, expected: Receipt)
  {
    && w.readyRecorded && w.guiWatched && w.guiLeaves && w.compatible && w.bootStarts
    && Accepting(w.polls, expected, w.start, w.timeout, w.stable)
  }

  /** An update that is not accepted gets as far as its restoration. */
  predicate Restoring(w: Surroundings)
  {
    w.readyRecorded && w.guiWatched && (w.guiLeaves && w.compatible && w.bootStarts ==> w.inspectable && w.stoppable)
  }

  /** The old version is started again after its restoration. */
  predicate StartsAgain(w: Surroundings)
  {
    Restoring(w) && w.guiLeaves && (w.compatible && w.bootStarts ==> w.failureRecorded) && w.oldStarts
  }

  predicate Ready(disk: Disk, compiled: string, nonce: string)
    reads disk
  {
    && !disk.foreign && disk.journal.Some? && ValidJournal(disk.journal.value, compiled)
    && disk.journal.value.nonce == nonce && disk.State() == FreshFor(disk.journal.value)
  }

  /** The child is started: waits for its records, and accepts the update or puts the old bundle back. */
  method Conclude(pending: Transaction, expected: Receipt, w: Surroundings)
    returns (o: Outcome, launches: seq<Launch>, killed: bool)
    requires pending.disk.Valid() && pending.Readable() && pending.disk.State() == Placed(pending.disk.journal.value)
    requires pending.journal == pending.disk.journal && expected == Own(pending.disk.State())
    requires w.start <= w.polls(0).checkedAt
    requires forall i: nat :: TimeAdvances(w.polls, i)
    modifies pending`journal, pending.disk
    ensures var disk := pending.disk;
      && disk.Valid() && (old(disk.Tracked()) ==> disk.Tracked() && old(disk.history) <= disk.history)
      && disk.journal.Some? && SameUpdate(old(disk.journal.value), disk.journal.value) && Accepts(disk.State())
    ensures launches == [BootLaunch] || launches == [BootLaunch, OldLaunch]
    ensures o.Done? ==> pending.disk.State() == Mark(Placed(pending.disk.journal.value), Accepted, None)
    ensures o.Done? ==> launches == [BootLaunch]
    ensures OldLaunch in launches ==> Restored(pending.disk.State())
    ensures killed ==> Open(pending.disk.State())
    ensures killed <==>
      o.Failed? && w.inspectable && w.stoppable && pending.disk.journal.value.phase != Accepted
    ensures OldLaunch in launches ==> killed
    ensures pending.disk.journal.value.phase == Accepted ==>
      Accepting(w.polls, expected, w.start, w.timeout, w.stable)
    ensures old(pending.disk.faults) == 0 ==>
      (o.Done? <==> Accepting(w.polls, expected, w.start, w.timeout, w.stable))
    ensures old(pending.disk.faults) == 0 && !o.Done? ==>
      && (Restored(pending.disk.State()) <==> w.inspectable && w.stoppable)
      && (OldLaunch in launches <==> w.inspectable && w.stoppable && w.failureRecorded && w.oldStarts)
  {
    hide Chain, RollbackEnd, StableAt, Healthy;
    launches, killed := [BootLaunch], false;
    var receipt, _ := WaitForAcceptance(w.polls, expected, w.start, w.timeout, w.stable);
    o := Failed;
    if receipt.Some? {
      o := pending.Accept(receipt.value);
    }
    if o.Failed? {
      if !w.inspectable { return o, launches, killed; }
      // Saving the acceptance can report an error although it took effect.
      if pending.disk.journal.value.phase == Accepted && pending.disk.layout.target == Some(expected.identity) {
        return o, launches, killed;
      }
      if !w.stoppable { return o, launches, killed; }
      killed := true;
      o := pending.Rollback();
      if o.Done? && w.failureRecorded && w.oldStarts { launches := [BootLaunch, OldLaunch]; }
      return Failed, launches, killed;
    }
  }

  /**
   * Replaces the bundle after the application has gone, starts the candidate, and accepts it or
   * puts the old one back. Killed says that the boot child was stopped.
   */
  method Supervise(disk: Disk, compiled: string, nonce: string, w: Surroundings)
    returns (o: Outcome, launches: seq<Launch>, killed: bool)
    requires disk.Valid()
    requires w.start <= w.polls(0).checkedAt
    requires forall i: nat :: TimeAdvances(w.polls, i)
    modifies disk
    ensures disk.Valid() && (old(disk.Tracked()) ==> disk.Tracked() && old(disk.history) <= disk.history)
    ensures launches in {[], [BootLaunch], [OldLaunch], [BootLaunch, OldLaunch]}
    ensures o.Done? ==>
      disk.journal.Some? && disk.State() == Mark(Placed(disk.journal.value), Accepted, None) && launches == [BootLaunch]
    ensures OldLaunch in launches ==> disk.journal.Some? && Restored(disk.State())
    ensures killed ==> launches != [] && launches[0] == BootLaunch && disk.journal.Some? && Open(disk.State())
    ensures BootLaunch in launches && OldLaunch in launches ==> killed
    ensures BootLaunch in launches ==> w.readyRecorded && w.guiWatched && w.guiLeaves && w.compatible && w.bootStarts
    ensures BootLaunch in launches ==>
      disk.journal.Some? &&
        (killed <==> o.Failed? && w.inspectable && w.stoppable && disk.journal.value.phase != Accepted)
    ensures old(Ready(disk, compiled, nonce)) && old(disk.faults) == 0 ==>
      (w.readyRecorded && w.guiWatched && w.guiLeaves && w.compatible && w.bootStarts ==> BootLaunch in launches)
    ensures !w.readyRecorded ==> disk.journal == old(disk.journal) && disk.layout == old(disk.layout) && !o.Done?
    ensures old(Ready(disk, compiled, nonce)) ==>
      disk.journal.Some? && SameUpdate(old(disk.journal.value), disk.journal.value) && Accepts(disk.State())
    ensures old(Ready(disk, compiled, nonce)) && disk.journal.value.phase == Accepted ==>
      Favourable(w, Receipt(nonce, disk.journal.value.candidate))
    ensures old(Ready(disk, compiled, nonce)) && old(disk.faults) == 0 ==>
      (o.Done? <==> Favourable(w, Receipt(nonce, old(disk.journal.value.candidate))))
    ensures old(Ready(disk, compiled, nonce)) && old(disk.faults) == 0 && !o.Done? ==>
      (Restored(disk.State()) <==> Restoring(w)) && (OldLaunch in launches <==> StartsAgain(w))
  {
    hide Chain, RollbackEnd, StableAt, Healthy, Accepting, Custody, IsDigest, Step, NextReplace, NextRollback;
    launches, killed := [], false;
    var resumed := Transaction.Resume(disk, compiled);
    if resumed.None? { return Failed, launches, killed; }
    var pending := resumed.value;
    if pending.journal.value.nonce != nonce || pending.journal.value.phase != Prepared {
      return Failed, launches, killed;
    }
    var expected := Receipt(nonce, pending.journal.value.candidate);
    if !w.readyRecorded || !w.guiWatched { return Failed, launches, killed; }
    if !w.guiLeaves {
      var _ := pending.Rollback();
      return Failed, launches, killed;
    }
    if !w.compatible {
      o := pending.Rollback();
      if o.Done? && w.oldStarts { launches := [OldLaunch]; }
      return Failed, launches, killed;
    }
    o := pending.Replace();
    if !o.Done? {
      if o.Failed? && pending.journal.Some? && pending.journal.value.phase == RolledBack && w.oldStarts {
        launches := [OldLaunch];
      }
      return o, launches, killed;
    }
    if !w.bootStarts {
      o := pending.Rollback();
      if o.Done? && w.oldStarts { launches := [OldLaunch]; }
      return Failed, launches, killed;
    }
    o, launches, killed := Conclude(pending, expected, w);
  }

  // ---- the supervised update as a run of the whole system ----

  /**
   * How many of the other processes' events each poll comes after, when it looks for the child, reads the one
   * record, and reads the other.
   */
  datatype Moments = Moments(child: nat -> nat, bootstrap: nat -> nat, startup: nat -> nat)

  /** A record that is not complete reads as missing; and reading can fail. */
  predicate ReadFrom(reading: Reading, record: Record<Receipt>)
  {
    match reading
    case Unreadable => true
    case Missing => !record.Whole?
    case Found(receipt) => record == Whole(receipt)
  }

  /**
   * Poll i finds the child as the events before it have left it, and reads what they have left in the files;
   * time goes on from one of these moments to the next. Looking for the child can fail, which counts as an exit.
   */
  ghost predicate PollReads(s: System, during: seq<Event>, at: Moments, p: Poll, i: nat)
    requires s.supervisor.Waiting?
  {
    && at.child(i) <= at.bootstrap(i) <= at.startup(i) <= at.child(i + 1) && at.startup(i) <= |during|
    && (p.exited || s.supervisor.child in Run(s, during[..at.child(i)]).processes)
    && ReadFrom(p.bootstrap, Run(s, during[..at.bootstrap(i)]).bootstrap)
    && ReadFrom(p.startup, Run(s, during[..at.startup(i)]).startup)
  }

  /** While others start and report, a complete record stays what it is. */
  lemma {:induction false} WholeStaysWhole(s: System, during: seq<Event>, k: nat)
    requires k <= |during| && forall ev :: ev in during ==> Passive(ev)
    ensures Run(s, during[..k]).bootstrap.Whole? ==> Run(s, during).bootstrap == Run(s, during[..k]).bootstrap
    ensures Run(s, during[..k]).startup.Whole? ==> Run(s, during).startup == Run(s, during[..k]).startup
    decreases |during|
  {
    if k == |during| {
      assert during[..k] == during;
    } else {
      var n := |during| - 1;
      assert during[..n][..k] == during[..k];
      WholeStaysWhole(s, during[..n], k);
      assert during[n] in during;
    }
  }

  /** The child was found alive after some of the events, and both records are there after all of them. */
  ghost predicate Seen(s: System, during: seq<Event>, k: nat, expected: Receipt)
    requires s.supervisor.Waiting? && k <= |during|
  {
    s.supervisor.child in Run(s, during[..k]).processes && BothSay(Run(s, during), expected)
  }

  /** What a healthy poll found is there at the end. */
  lemma FoundIsReported(s: System, during: seq<Event>, at: Moments, polls: nat -> Poll, expected: Receipt, i: nat)
    requires s.supervisor.Waiting? && forall ev :: ev in during ==> Passive(ev)
    requires PollReads(s, during, at, polls(i), i) && Matching(polls(i), expected) && !polls(i).exited
    ensures Seen(s, during, at.child(i), expected)
  {
    WholeStaysWhole(s, during, at.bootstrap(i));
    WholeStaysWhole(s, during, at.startup(i));
  }

  lemma {:induction false} ProcessesIgnoreSupervisor(s: System, x: Supervisor, during: seq<Event>)
    requires forall ev :: ev in during ==> Passive(ev)
    ensures Run(s.(supervisor := x), during) == Run(s, during).(supervisor := x)
  {
    if during != [] {
      var n := |during| - 1;
      assert during[n] in during;
      ProcessesIgnoreSupervisor(s, x, during[..n]);
      StepIgnoresSupervisor(Run(s, during[..n]), x, during[n]);
    }
  }

  lemma StepIgnoresSupervisor(s: System, x: Supervisor, ev: Event)
    requires Passive(ev)
    ensures Apply(s.(supervisor := x), ev) == Apply(s, ev).(supervisor := x)
  {
  }

  /** Looking for the child in the midst of what others do. */
  lemma LooksInBetween(s: System, during: seq<Event>, k: nat)
    requires s.supervisor.Waiting? && k <= |during| && forall ev :: ev in during ==> Passive(ev)
    requires s.supervisor.child in Run(s, during[..k]).processes
    ensures Run(s, during[..k] + [Look] + during[k..]) == Run(s, during).(supervisor := s.supervisor.(looked := true))
  {
    hide Run, Passive, Apply;
    var before, after, x := during[..k], during[k..], s.supervisor.(looked := true);
    assert during == before + after;
    PassiveKeepsDisk(s, before);
    FindsChild(Run(s, before));
    RunOfTwo(s, before, [Look]);
    RunOfTwo(s, before + [Look], after);
    RunOfTwo(s, before, after);
    ProcessesIgnoreSupervisor(Run(s, before), x, after);
  }

  /** The state just before the first acceptance in a history that ends accepted. */
  lemma {:induction false} AcceptedInHistory(h: seq<Durable>, i: nat, k: nat) returns (j: nat)
    requires Chain(h) && i < k < |h| && h[i].journal.phase != Accepted && h[k].journal.phase == Accepted
    ensures i <= j < k && h[j].journal.phase != Accepted && h[j + 1] == h[k]
    ensures Accepts(h[j]) && Acceptance(h[j], h[k]) && SameUpdate(h[j].journal, h[k].journal)
    decreases k
  {
    hide Accepts, Custody, ShapeOf, Fresh, NextReplace, NextRollback;
    RecognisedInChain(h, k - 1);
    if h[k - 1].journal.phase == Accepted {
      AcceptedIsFinal(h, k - 1, k);
      j := AcceptedInHistory(h, i, k - 1);
    } else {
      j := k - 1;
      AcceptanceIsTheOnlyWay(h[j], h[k]);
    }
  }

  lemma AcceptanceIsTheOnlyWay(d: Durable, e: Durable)
    requires d.journal.source != d.journal.candidate && Accepts(d) && Step(d, e)
    requires d.journal.phase != Accepted && e.journal.phase == Accepted
    ensures Acceptance(d, e) && SameUpdate(d.journal, e.journal)
  {
  }

  /**
   * Whatever a disk went through since a state of the system is a run of the system, provided that an
   * acceptance came from the placed candidate, with the child found alive and both records written.
   */
  lemma HistoryIsRun(s: System, h: seq<Durable>, i: nat, during: seq<Event>, k: nat) returns (events: seq<Event>)
    requires Chain(h) && i < |h| && s.disk == Some(h[i]) && h[i].journal.phase != Accepted
    requires s.supervisor.Replacing? && k <= |during| && forall ev :: ev in during ==> Passive(ev)
    requires h[|h| - 1].journal.phase == Accepted ==>
      && h[|h| - 1] == Mark(Placed(h[i].journal), Accepted, None)
      && Seen(AtWait(s, h[i].journal), during, k, Own(h[i]))
    ensures Run(s, events).disk == Some(h[|h| - 1])
    ensures Run(s, events).ready == s.ready
  {
    hide Run, Chain, Acceptance, Accepts, BothSay, Passive;
    var n := |h| - 1;
    if h[n].journal.phase != Accepted {
      HistoryIsWrites(s, h, i, n);
      events := Writes(h[i..n + 1]);
    } else {
      var j := AcceptedInHistory(h, i, n);
      PlacedBefore(h[j], h[n], h[i].journal);
      HistoryIsWrites(s, h, i, j);
      var rest := AcceptedAtWait(s.(disk := Some(h[j])), during, k);
      events := Writes(h[i..j + 1]) + rest;
      RunOfTwo(s, Writes(h[i..j + 1]), rest);
    }
  }

  /** From the placed candidate to its acceptance: the child is started, found alive, and reports. */
  lemma AcceptedAtWait(s: System, during: seq<Event>, k: nat) returns (events: seq<Event>)
    requires s.disk.Some? && s.disk.value == Placed(s.disk.value.journal) && Accepts(s.disk.value)
    requires s.supervisor.Replacing? && k <= |during| && forall ev :: ev in during ==> Passive(ev)
    requires Seen(AtWait(s, s.disk.value.journal), during, k, Own(s.disk.value))
    ensures Run(s, events).disk == Some(Mark(s.disk.value, Accepted, None)) && Run(s, events).ready == s.ready
  {
    hide Run, Apply, Accepts, BothSay, Passive;
    var waiting := AtWait(s, s.disk.value.journal);
    var looking := during[..k] + [Look] + during[k..];
    LaunchesChild(s);
    PassiveKeepsDisk(waiting, during);
    LooksInBetween(waiting, during, k);
    var seen := Run(waiting, looking);
    SeenIsSaid(Run(waiting, during), seen.supervisor, Own(s.disk.value));
    RecordsFound(seen);
    AcceptTakesEffect(Run(seen, [FinishWait]));
    RunOfTwo(s, [Launch], looking);
    RunOfTwo(s, [Launch] + looking, [FinishWait]);
    RunOfTwo(s, [Launch] + looking + [FinishWait], [Accept]);
    events := [Launch] + looking + [FinishWait] + [Accept];
  }

  lemma SeenIsSaid(s: System, x: Supervisor, r: Receipt)
    requires BothSay(s, r)
    ensures BothSay(s.(supervisor := x), r)
  {
  }

  lemma PlacedBefore(d: Durable, e: Durable, j: Journal)
    requires Acceptance(d, e) && e == Mark(Placed(j), Accepted, None)
    ensures d == Placed(j) && Placed(d.journal) == d && e == Mark(d, Accepted, None)
  {
  }

  /** The system once a supervisor has taken over and goes on to its replacement. */
  function Begun(past: seq<Event>, me: Watcher): System
  {
    Run(UNTOUCHED, past).(ready := Whole(me), supervisor := Replacing)
  }

  /** A supervisor that can record itself takes over a prepared update; one that cannot leaves it. */
  lemma TakesOver(past: seq<Event>, me: Watcher, announcing: Ending)
    requires var s := Run(UNTOUCHED, past);
      && s.supervisor.Gone? && s.disk.Some? && s.disk.value == FreshFor(s.disk.value.journal)
      && s.disk.value.journal.nonce == me.nonce && s.disk.value.journal.source != s.disk.value.journal.candidate
    ensures var s := Run(UNTOUCHED, past);
      var (record, goesOn) := Written(s.ready, me, announcing);
      && (goesOn ==> Run(UNTOUCHED, past + [Attach(me, announcing)] + [BeginReplace]) == Begun(past, me))
      && (!goesOn ==> Run(UNTOUCHED, past + [Attach(me, announcing)]) == s.(ready := record))
  {
    RunOneMore(UNTOUCHED, past, Attach(me, announcing));
    RunOneMore(UNTOUCHED, past + [Attach(me, announcing)], BeginReplace);
  }

  /**
   * A supervised update on the disk of a reachable system is a run of that system. Me and announcing say how it
   * records itself; during stands for what other processes do while it waits, and each poll finds the child and
   * the files as they have left them by then. The supervisor is gone at the end, and its record stays; an
   * accepted update has its evidence.
   */
  method SuperviseInSystem(disk: Disk, compiled: string, nonce: string, w: Surroundings, ghost past: seq<Event>,
                           ghost me: Watcher, ghost announcing: Ending, ghost during: seq<Event>, ghost at: Moments)
    returns (o: Outcome, launches: seq<Launch>, killed: bool, ghost events: seq<Event>)
    requires disk.Valid() && Ready(disk, compiled, nonce) && disk.Tracked()
    requires Run(UNTOUCHED, past).disk == Some(disk.State()) && Run(UNTOUCHED, past).supervisor.Gone?
    requires me.nonce == nonce && w.readyRecorded == Written(Run(UNTOUCHED, past).ready, me, announcing).1
    requires w.start <= w.polls(0).checkedAt
    requires forall i: nat :: TimeAdvances(w.polls, i)
    requires forall ev :: ev in during ==> Passive(ev)
    requires forall i: nat ::
      PollReads(AtWait(Begun(past, me), disk.journal.value), during, at, w.polls(i), i)
    modifies disk
    ensures disk.Valid() && disk.journal.Some? && Run(UNTOUCHED, past + events).disk == Some(disk.State())
    ensures Run(UNTOUCHED, past + events).supervisor.Gone?
    ensures Run(UNTOUCHED, past + events).ready == Written(Run(UNTOUCHED, past).ready, me, announcing).0
    ensures disk.journal.value.phase == Accepted ==>
      AcceptedOnEvidence(Run(UNTOUCHED, past + events), disk.journal.value)
  {
    hide Run, Accepting, PollReads, Passive, Seen;
    ghost var s, g := Begun(past, me), disk.history;
    ghost var i := |g| - 1;
    ghost var first := disk.journal.value;
    TakesOver(past, me, announcing);
    o, launches, killed := Supervise(disk, compiled, nonce, w);
    if !w.readyRecorded {
      events := [Attach(me, announcing)];
      return;
    }
    ghost var h, k := disk.history, 0;
    if disk.journal.value.phase == Accepted {
      k := AcceptedWasSeen(AtWait(s, first), during, at, w, Own(Placed(first)));
    }
    ghost var work := HistoryIsRun(s, h, i, during, k);
    ghost var begun := past + [Attach(me, announcing)] + [BeginReplace];
    RunOfTwo(UNTOUCHED, begun, work);
    Ends(begun + work);
    events := [Attach(me, announcing)] + [BeginReplace] + work + [Leave];
    assert past + events == begun + work + [Leave];
    AcceptedMeansStartedAndReported(past + events);
  }

  lemma Ends(events: seq<Event>)
    ensures var s := Run(UNTOUCHED, events);
      Run(UNTOUCHED, events + [Leave]) == s.(supervisor := Gone)
  {
    RunOneMore(UNTOUCHED, events, Leave);
  }

  lemma AcceptedWasSeen(s: System, during: seq<Event>, at: Moments, w: Surroundings, expected: Receipt) returns (k: nat)
    requires s.supervisor.Waiting? && forall ev :: ev in during ==> Passive(ev)
    requires forall i: nat :: PollReads(s, during, at, w.polls(i), i)
    requires Accepting(w.polls, expected, w.start, w.timeout, w.stable)
    ensures k <= |during| && Seen(s, during, k, expected)
  {
    var i: nat :| StableAt(w.polls, expected, w.stable, i) && forall k: nat :: k <= i ==>
      Healthy(w.polls(k), w.start, w.timeout);
    assert PollReads(s, during, at, w.polls(i), i) && Healthy(w.polls(i), w.start, w.timeout);
    FoundIsReported(s, during, at, w.polls, expected, i);
    k := at.child(i);
  }
}
