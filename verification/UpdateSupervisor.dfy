/**
 * Who may run during an update: the gate every starting process passes, the records the boot
 * child leaves, and the supervisor that accepts the update only on their evidence.
 */
module UpdateSupervisor {
  import opened Wrappers
  import opened BundleProtocol

  const BOOT_FLAG := "--app-update-boot"

  // ---- the gate ----

  datatype Admission =
    | Normal
    | BootChild(receipt: Receipt)
    | RestoreFirst
    | Refused

  /**
   * Decides before the database is opened. Vouched sums up signature and compatibility checks;
   * idle says that an update directory without a journal holds nothing left over.
   */
  function Gate(disk: Option<Durable>, target: Option<Identity>, idle: bool, args: seq<string>,
                vouched: bool): Admission
  {
    if disk.None? then
      if !idle || BOOT_FLAG in args then Refused else Normal
    else
      var j := disk.value.journal;
      if Finished(j.phase) then
        if BOOT_FLAG in args then Refused else Normal
      else if args == [BOOT_FLAG, j.nonce] then
        if j.phase == NewPlaced && j.intent.None? && target == Some(j.candidate) && vouched
        then BootChild(Receipt(j.nonce, j.candidate)) else Refused
      else if args == [] then RestoreFirst
      else Refused
  }

  /** With no update recorded a start goes on exactly if nothing is left over and no update asked for it. */
  lemma WithoutUpdateGoesOn(target: Option<Identity>, idle: bool, args: seq<string>, vouched: bool)
    ensures var admission := Gate(None, target, idle, args, vouched);
      && (admission == Normal <==> idle && "--app-update-boot" !in args)
      && (admission == Refused <==> !idle || "--app-update-boot" in args)
  {
  }

  /** With a finished update a start goes on exactly if no update asked for it. */
  lemma FinishedUpdateGoesOn(d: Durable, target: Option<Identity>, idle: bool, args: seq<string>, vouched: bool)
    requires d.journal.phase in {Accepted, RolledBack}
    ensures var admission := Gate(Some(d), target, idle, args, vouched);
      && (admission == Normal <==> "--app-update-boot" !in args)
      && (admission == Refused <==> "--app-update-boot" in args)
  {
  }

  /**
   * With an open update nothing goes on but the boot child of that very update with the candidate in place; a
   * start without arguments restores first, and every other is refused.
   */
  lemma OpenUpdateLetsOnlyItsChildGoOn(d: Durable, target: Option<Identity>, idle: bool, args: seq<string>,
                                       vouched: bool)
    requires d.journal.phase !in {Accepted, RolledBack}
    ensures var admission := Gate(Some(d), target, idle, args, vouched);
      var own := && args == ["--app-update-boot", d.journal.nonce] && d.journal.phase == NewPlaced
        && d.journal.intent == None && target == Some(d.journal.candidate) && vouched;
      && (admission.BootChild? <==> own)
      && (own ==> admission == BootChild(Receipt(d.journal.nonce, d.journal.candidate)))
      && (admission == RestoreFirst <==> |args| == 0)
      && (admission == Refused <==> |args| > 0 && !own)
  {
  }

  // ---- everything that can happen around one installation ----

  datatype System = System(
    /** The recorded update with its bundles, or only the installed bundle. */
    disk: Option<Durable>,
    bootstrap: Record<Receipt>,
    startup: Record<Receipt>,
    ready: Record<Watcher>,
    supervisor: Supervisor,
    /** The living processes that have to do with the update, by order numbers that no two processes share. */
    processes: map<nat, Process>,
    next: nat,
    // what happened so far
    nonces: set<string>,
    /** The durable state at which each boot child passed the gate. */
    passed: map<Receipt, Durable>,
    reported: set<Receipt>)

  /** What a supervisor records of itself before it does anything. */
  datatype Watcher = Watcher(nonce: string, guiPid: nat, supervisorPid: nat)

  /**
   * The process that supervises the update, and how far it has come. While it lives it holds the lock of the
   * update directory. Waiting names its child, and says whether the current poll has found the child alive.
   */
  datatype Supervisor =
    | Gone
    | Attached
    | Replacing
    | Waiting(child: nat, looked: bool)
    | Convinced(receipt: Receipt)
    | GivenUp

  /** Where a process stands: before the gate, past the gate's checks, past its first record. */
  datatype Process = Started(args: seq<string>) | Admitted(receipt: Receipt) | Booted(receipt: Receipt)

  /** A record file: not there, begun but cut off, or complete. */
  datatype Record<+T> = Absent | Torn | Whole(content: T)

  /** How the writing of a record ends: it returns, or its process is lost, before or after the last byte. */
  datatype Ending = Returns | Lost(torn: bool)

  datatype Event =
    | Prepare(first: Durable)
    | Write(next: Durable)
    // any process
    | Spawn(args: seq<string>)
    | Pass(process: nat, idle: bool, vouched: bool)
    | RecordBoot(process: nat, ending: Ending)
    | ReportReady(process: nat, ending: Ending)
    | Exit(process: nat)
    // the supervisor
    | Attach(me: Watcher, ending: Ending)
    | BeginReplace
    | Launch
    | Look
    | Miss
    | FinishWait
    | Accept
    | GiveUp
    | Leave
    // the next update
    | LoseRetained(remains: Layout)
    | RemoveRecords(bootstrap: bool, startup: bool, ready: bool)
    | RemoveJournal

  /**
   * The file after a record is written, and whether the writer goes on. Files are created once; writing
   * the same content again succeeds, and finding another content, or a part of one, fails.
   */
  function Written<T(==)>(record: Record<T>, content: T, ending: Ending): (Record<T>, bool)
  {
    match record
    case Absent => if ending == Lost(true) then (Torn, false) else (Whole(content), ending.Returns?)
    case Torn => (Torn, false)
    case Whole(found) => (record, found == content && ending.Returns?)
  }

  /** A record is created once: whoever wants another content in it, or finds a part of one, does not go on. */
  lemma RecordsAreCreatedOnce<T>(record: Record<T>, content: T, ending: Ending)
    ensures var (after, goesOn) := Written(record, content, ending);
      && (goesOn <==> ending == Returns && (record == Absent || record == Whole(content)))
      && (goesOn ==> after == Whole(content))
      && (record != Absent ==> after == record)
      && (record == Absent && ending != Lost(true) ==> after == Whole(content))
      && (record == Absent && ending == Lost(true) ==> after == Torn)
  {
  }

  predicate BothSay(s: System, receipt: Receipt)
  {
    s.bootstrap == Whole(receipt) && s.startup == Whole(receipt)
  }

  /** The receipt by which the recorded update will be known. */
  function Own(d: Durable): Receipt
  {
    Receipt(d.journal.nonce, d.journal.candidate)
  }

  /** Nothing was written of the replacement yet. */
  predicate Untouched(d: Durable)
  {
    d.journal.phase == Prepared && d.journal.intent.None?
  }

  /** Whoever has the lock may restore; only a supervisor in its replacement goes forward. */
  predicate MayWrite(s: System, d: Durable, e: Durable)
  {
    e == d || Some(e) == NextRollback(d) || (s.supervisor.Replacing? && Some(e) == NextReplace(d))
  }

  /** The candidate is in place, and the journal says so. */
  predicate InPlace(s: System)
  {
    s.disk.Some? && s.disk.value.journal.phase == NewPlaced && s.disk.value.journal.intent.None?
  }

  /** The effect of what any process does; an event whose guard fails changes nothing. */
  function ProcessStep(s: System, ev: Event): System
  {
    match ev
    case Spawn(args) => s.(processes := s.processes[s.next := Started(args)], next := s.next + 1)
    case Pass(process, idle, vouched) =>
      if process in s.processes && s.processes[process].Started? then
        var target := if s.disk.Some? then s.disk.value.layout.target else None;
        var admission := Gate(s.disk, target, idle, s.processes[process].args, vouched);
        if admission.BootChild? && s.disk.Some? then
          var r := admission.receipt;
          s.(processes := s.processes[process := Admitted(r)],
             passed := if r in s.passed then s.passed else s.passed[r := s.disk.value])
        else s.(processes := s.processes - {process})
      else s
    case RecordBoot(process, ending) =>
      if process in s.processes && s.processes[process].Admitted? then
        var r := s.processes[process].receipt;
        var (record, goesOn) := Written(s.bootstrap, r, ending);
        s.(bootstrap := record,
           processes := if goesOn then s.processes[process := Booted(r)] else s.processes - {process})
      else s
    case ReportReady(process, ending) =>
      if process in s.processes && s.processes[process].Booted? then
        var r := s.processes[process].receipt;
        var (record, _) := Written(s.startup, r, ending);
        s.(startup := record,
           processes := if ending.Returns? then s.processes else s.processes - {process},
           reported := if record == Whole(r) then s.reported + {r} else s.reported)
      else s
    case Exit(process) => s.(processes := s.processes - {process})
    case _ => s
  }

  /** The effect of what a supervisor does. */
  function SupervisorStep(s: System, ev: Event): System
  {
    match ev
    case Attach(me, ending) =>
      if s.supervisor.Gone? && s.disk.Some? && s.disk.value.journal.nonce == me.nonce &&
        s.disk.value.journal.phase == Prepared && Accepts(s.disk.value)
      then
        var (record, goesOn) := Written(s.ready, me, ending);
        s.(ready := record, supervisor := if goesOn then Attached else Gone)
      else s
    case BeginReplace =>
      if s.supervisor.Attached? && s.disk.Some? && Untouched(s.disk.value) &&
        CheckedShape(s.disk.value) == Some(ShapePrepared)
      then s.(supervisor := Replacing) else s
    case Launch =>
      if s.supervisor.Replacing? && InPlace(s) then
        s.(supervisor := Waiting(s.next, false), next := s.next + 1,
           processes := s.processes[s.next := Started([BOOT_FLAG, s.disk.value.journal.nonce])])
      else s
    case Look =>
      if s.supervisor.Waiting? then
        s.(supervisor := if s.supervisor.child in s.processes then s.supervisor.(looked := true) else GivenUp)
      else s
    case Miss => if s.supervisor.Waiting? then s.(supervisor := s.supervisor.(looked := false)) else s
    case FinishWait =>
      if s.supervisor.Waiting? && s.supervisor.looked && InPlace(s) && BothSay(s, Own(s.disk.value))
      then s.(supervisor := Convinced(s.startup.content)) else s
    case Accept =>
      if s.supervisor.Convinced? && InPlace(s) && s.supervisor.receipt == Own(s.disk.value) &&
        CheckedShape(s.disk.value) == Some(ShapeNewPlaced)
      then s.(disk := Some(Mark(s.disk.value, Accepted, None))) else s
    case GiveUp => if s.supervisor.Gone? then s else s.(supervisor := GivenUp)
    case Leave => s.(supervisor := Gone)
    case _ => s
  }

  function Apply(s: System, ev: Event): System
  {
    match ev
    case Prepare(first) =>
      if s.disk.None? && s.supervisor.Gone? && Fresh(first) && first.journal.nonce !in s.nonces
      then s.(disk := Some(first), nonces := s.nonces + {first.journal.nonce}) else s
    case Write(next) =>
      if s.disk.Some? && !Finished(s.disk.value.journal.phase) && MayWrite(s, s.disk.value, next)
      then s.(disk := Some(next)) else s
    case LoseRetained(remains) =>
      if Clearing(s) && Eroded(s.disk.value.layout, remains)
      then s.(disk := Some(s.disk.value.(layout := remains))) else s
    case RemoveRecords(bootstrap, startup, ready) =>
      if Clearing(s) then
        s.(bootstrap := if bootstrap then Absent else s.bootstrap,
           startup := if startup then Absent else s.startup,
           ready := if ready then Absent else s.ready)
      else s
    case RemoveJournal =>
      if Clearing(s) then s.(disk := None) else s
    case _ => if Passive(ev) then ProcessStep(s, ev) else SupervisorStep(s, ev)
  }

  /** What processes other than a supervisor do: start, pass the gate, leave their records, and end. */
  predicate Passive(ev: Event)
  {
    ev.Spawn? || ev.Pass? || ev.RecordBoot? || ev.ReportReady? || ev.Exit?
  }

  predicate Supervising(ev: Event)
  {
    ev.Attach? || ev.BeginReplace? || ev.Launch? || ev.Look? || ev.Miss? || ev.FinishWait? || ev.Accept? ||
    ev.GiveUp? || ev.Leave?
  }

  /** The next update may clear this one away. */
  predicate Clearing(s: System)
  {
    s.supervisor.Gone? && s.disk.Some? && Finished(s.disk.value.journal.phase)
  }

  function Run(s: System, events: seq<Event>): System
  {
    if events == [] then s else Apply(Run(s, events[..|events| - 1]), events[|events| - 1])
  }

  const UNTOUCHED := System(None, Absent, Absent, Absent, Gone, map[], 0, {}, map[], {})

  /** A boot child's evidence: it passed the gate of that very update with the candidate in place. */
  predicate Witnessed(s: System, r: Receipt)
  {
    && r in s.passed
    && r.nonce in s.nonces
    && r == Receipt(s.passed[r].journal.nonce, s.passed[r].journal.candidate)
    && s.passed[r].journal.phase == NewPlaced && s.passed[r].journal.intent.None?
    && s.passed[r].layout.target == Some(r.identity)
  }

  predicate AcceptedOnEvidence(s: System, j: Journal)
  {
    var r := Receipt(j.nonce, j.candidate);
    r in s.reported && Witnessed(s, r) && SameUpdate(s.passed[r].journal, j)
  }

  /** What is known about the recorded update. */
  ghost predicate Settled(s: System, d: Durable)
  {
    && d.journal.nonce in s.nonces && d.journal.source != d.journal.candidate
    && (forall r :: r in s.passed && r.nonce == d.journal.nonce ==> SameUpdate(s.passed[r].journal, d.journal))
    && (!Finished(d.journal.phase) ==> Accepts(d))
    && (d.journal.phase == Accepted ==>
      d.layout.target == Some(d.journal.candidate) && AcceptedOnEvidence(s, d.journal))
    && (d.journal.phase == RolledBack ==> d.layout.target == Some(d.journal.source))
  }

  /** A process past the gate's checks is one of those that passed. */
  predicate Known(s: System, p: Process)
  {
    p.Started? || p.receipt in s.passed
  }

  ghost predicate Evidence(s: System)
  {
    && (forall r :: r in s.passed ==> Witnessed(s, r))
    && (forall p :: p in s.processes ==> p < s.next && Known(s, s.processes[p]))
    && s.reported <= s.passed.Keys
    && (s.startup.Whole? ==> s.startup.content in s.reported)
  }

  /** A supervisor has an update, its child was started, and what convinced it is there to see. */
  predicate Watched(s: System)
  {
    && (s.supervisor.Gone? || s.disk.Some?)
    && (s.supervisor.Waiting? || s.supervisor.Convinced? ==>
      s.disk.value.journal.phase != Prepared && s.disk.value.journal.phase != OldMoved)
    && (s.supervisor.Waiting? ==> s.supervisor.child < s.next)
    && (s.supervisor.Convinced? ==>
      s.supervisor.receipt == Own(s.disk.value) && BothSay(s, s.supervisor.receipt))
  }

  ghost predicate Invariant(s: System)
  {
    Evidence(s) && Watched(s) && (s.disk.Some? ==> Settled(s, s.disk.value))
  }

  lemma PassingKeepsEvidence(s: System, ev: Event)
    requires Invariant(s) && ev.Pass?
    ensures Evidence(Apply(s, ev))
  {
    hide Written, Watched, BothSay;
    var t := Apply(s, ev);
    forall r | r in t.passed ensures Witnessed(t, r) {
      assert r in s.passed ==> Witnessed(s, r);
    }
  }

  lemma ChildKeepsEvidence(s: System, ev: Event)
    requires Invariant(s) && Passive(ev) && !ev.Pass?
    ensures Evidence(Apply(s, ev))
  {
    hide Gate, Settled, Watched, BothSay;
    var t := Apply(s, ev);
    forall r | r in t.passed ensures Witnessed(t, r) {
      assert Witnessed(s, r);
    }
  }

  /** A supervisor writes no record but its own, and starts at most one process. */
  lemma SupervisorAdds(s: System, ev: Event)
    requires Supervising(ev)
    ensures var t := Apply(s, ev);
      && t.nonces == s.nonces && t.passed == s.passed && t.reported == s.reported
      && t.bootstrap == s.bootstrap && t.startup == s.startup
      && (ev.Accept? || t.disk == s.disk)
      && (|| (t.next == s.next && t.processes == s.processes)
          || (t.next == s.next + 1 && s.disk.Some? &&
              t.processes == s.processes[s.next := Started([BOOT_FLAG, s.disk.value.journal.nonce])]))
  {
    hide Written, CheckedShape, BothSay;
  }

  lemma SupervisorKeepsEvidence(s: System, ev: Event)
    requires Invariant(s) && Supervising(ev)
    ensures Evidence(Apply(s, ev))
  {
    hide Apply, Settled, Watched;
    SupervisorAdds(s, ev);
    forall r | r in Apply(s, ev).passed ensures Witnessed(Apply(s, ev), r) {
      assert Witnessed(s, r);
    }
  }

  lemma OthersKeepEvidence(s: System, ev: Event)
    requires Invariant(s) && !Passive(ev) && !Supervising(ev)
    ensures Evidence(Apply(s, ev))
  {
    var t := Apply(s, ev);
    forall r | r in t.passed ensures Witnessed(t, r) {
      assert Witnessed(s, r);
    }
  }

  lemma EventKeepsEvidence(s: System, ev: Event)
    requires Invariant(s)
    ensures Evidence(Apply(s, ev))
  {
    hide Apply, Evidence, Settled, Watched, Passive, Supervising;
    if ev.Pass? {
      PassingKeepsEvidence(s, ev);
    } else if Passive(ev) {
      ChildKeepsEvidence(s, ev);
    } else if Supervising(ev) {
      SupervisorKeepsEvidence(s, ev);
    } else {
      OthersKeepEvidence(s, ev);
    }
  }

  lemma ProcessesKeepWatched(s: System, ev: Event)
    requires Invariant(s) && Passive(ev)
    ensures Watched(Apply(s, ev))
  {
    hide Gate, Settled, Evidence;
  }

  lemma SupervisorKeepsWatched(s: System, ev: Event)
    requires Invariant(s) && Supervising(ev)
    ensures Watched(Apply(s, ev))
  {
    hide Settled, Evidence, Written, CheckedShape;
  }

  lemma EventKeepsWatched(s: System, ev: Event)
    requires Invariant(s)
    ensures Watched(Apply(s, ev))
  {
    hide Apply, Passive, Supervising, Watched, Settled, Evidence;
    if Passive(ev) {
      ProcessesKeepWatched(s, ev);
    } else if Supervising(ev) {
      SupervisorKeepsWatched(s, ev);
    } else {
      OthersKeepWatched(s, ev);
    }
  }

  lemma OthersKeepWatched(s: System, ev: Event)
    requires Invariant(s) && !Passive(ev) && !Supervising(ev)
    ensures Watched(Apply(s, ev))
  {
    if ev.Write? && Apply(s, ev) != s {
      StepKeepsAcceptance(s.disk.value, ev.next);
      if s.disk.value.journal.phase == NewPlaced {
        PlacedStaysPlaced(s.disk.value, ev.next);
      }
    }
  }

  lemma PlacedStaysPlaced(d: Durable, e: Durable)
    requires d.journal.source != d.journal.candidate && Accepts(d) && d.journal.phase == NewPlaced && Step(d, e)
    ensures e.journal.phase != Prepared && e.journal.phase != OldMoved
  {
  }

  lemma WriteKeepsSettled(s: System, d: Durable, e: Durable)
    requires Evidence(s) && Settled(s, d) && !Finished(d.journal.phase) && Step(d, e)
    requires e.journal.phase == Accepted ==> AcceptedOnEvidence(s, e.journal)
    ensures Settled(s, e)
  {
    StepKeepsAcceptance(d, e);
  }

  lemma PreparationKeepsSettled(s: System, first: Durable)
    requires Evidence(s) && Fresh(first) && first.journal.nonce !in s.nonces
    ensures Settled(s.(disk := Some(first), nonces := s.nonces + {first.journal.nonce}), first)
  {
    forall r | r in s.passed ensures r.nonce != first.journal.nonce {
      assert Witnessed(s, r);
    }
  }

  lemma RestoringIsNotAccepting(d: Durable)
    ensures NextRollback(d).Some? ==> NextRollback(d).value.journal.phase != Accepted
    ensures NextReplace(d).Some? ==> NextReplace(d).value.journal.phase != Accepted
  {
  }

  /** What is known about the recorded update stays known while more is found out about others. */
  lemma MoreKeepsSettled(s: System, t: System, d: Durable)
    requires Settled(s, d) && s.nonces <= t.nonces && s.reported <= t.reported
    requires forall r :: r in s.passed ==> r in t.passed && t.passed[r] == s.passed[r]
    requires forall r :: r in t.passed && r !in s.passed && r.nonce == d.journal.nonce ==>
      SameUpdate(t.passed[r].journal, d.journal)
    ensures Settled(t, d)
  {
    hide Accepts;
    if d.journal.phase == Accepted {
      assert Witnessed(s, Own(d));
    }
  }

  lemma ProcessesAddToSettled(s: System, ev: Event)
    requires Passive(ev)
    ensures var t := Apply(s, ev);
      && t.disk == s.disk && t.nonces == s.nonces && s.reported <= t.reported
      && (forall r :: r in s.passed ==> r in t.passed && t.passed[r] == s.passed[r])
      && (forall r :: r in t.passed && r !in s.passed ==> s.disk == Some(t.passed[r]))
  {
    hide Gate, Written;
  }

  lemma AcceptingKeepsSettled(s: System)
    requires Invariant(s) && Apply(s, Accept) != s
    ensures Apply(s, Accept).disk.Some? && Settled(Apply(s, Accept), Apply(s, Accept).disk.value)
  {
    assert Witnessed(s, s.supervisor.receipt);
    WriteKeepsSettled(s, s.disk.value, Apply(s, Accept).disk.value);
  }

  lemma SupervisorKeepsSettled(s: System, ev: Event)
    requires Invariant(s) && Supervising(ev)
    ensures Apply(s, ev).disk.Some? ==> Settled(Apply(s, ev), Apply(s, ev).disk.value)
  {
    hide Apply, Supervising, Settled, Watched, Evidence;
    SupervisorAdds(s, ev);
    if ev.Accept? {
      if Apply(s, ev) != s {
        AcceptingKeepsSettled(s);
      }
    } else if s.disk.Some? {
      MoreKeepsSettled(s, Apply(s, ev), s.disk.value);
    }
  }

  lemma OthersKeepSettled(s: System, ev: Event)
    requires Invariant(s) && !Passive(ev) && !Supervising(ev)
    ensures Apply(s, ev).disk.Some? ==> Settled(Apply(s, ev), Apply(s, ev).disk.value)
  {
    hide Watched;
    if Apply(s, ev) != s {
      if ev.Prepare? {
        PreparationKeepsSettled(s, ev.first);
      } else if ev.Write? {
        RestoringIsNotAccepting(s.disk.value);
        WriteKeepsSettled(s, s.disk.value, ev.next);
      }
    }
  }

  lemma EventKeepsSettled(s: System, ev: Event)
    requires Invariant(s)
    ensures Apply(s, ev).disk.Some? ==> Settled(Apply(s, ev), Apply(s, ev).disk.value)
  {
    hide Apply, Evidence, Settled, Watched, Passive, Supervising;
    if Passive(ev) {
      ProcessesAddToSettled(s, ev);
      if s.disk.Some? {
        MoreKeepsSettled(s, Apply(s, ev), s.disk.value);
      }
    } else if Supervising(ev) {
      SupervisorKeepsSettled(s, ev);
    } else {
      OthersKeepSettled(s, ev);
    }
  }

  lemma EventKeepsInvariant(s: System, ev: Event)
    requires Invariant(s)
    ensures Invariant(Apply(s, ev))
  {
    hide Apply, Evidence, Watched, Settled;
    EventKeepsEvidence(s, ev);
    EventKeepsWatched(s, ev);
    EventKeepsSettled(s, ev);
  }

  lemma {:induction false} RunKeepsInvariant(events: seq<Event>)
    ensures Invariant(Run(UNTOUCHED, events))
  {
    if events != [] {
      RunKeepsInvariant(events[..|events| - 1]);
      EventKeepsInvariant(Run(UNTOUCHED, events[..|events| - 1]), events[|events| - 1]);
    }
  }

  /** An accepted update was, in its own run, started through the gate and reported its first screen. */
  lemma AcceptedMeansStartedAndReported(events: seq<Event>)
    ensures var s := Run(UNTOUCHED, events);
      s.disk.Some? && s.disk.value.journal.phase == Accepted ==> AcceptedOnEvidence(s, s.disk.value.journal)
  {
    RunKeepsInvariant(events);
  }

  /**
   * In every reachable situation a process goes on into the application only if no update is
   * recorded, or the installed bundle is the accepted candidate or the restored old one, or it is
   * the boot child of the recorded update and the candidate is in place.
   */
  lemma OnlySettledBundlesRun(events: seq<Event>, idle: bool, args: seq<string>, vouched: bool)
    ensures var s := Run(UNTOUCHED, events);
      s.disk.Some? ==>
        var d := s.disk.value;
        match Gate(s.disk, d.layout.target, idle, args, vouched)
        case Normal =>
          && "--app-update-boot" !in args
          && (|| (d.journal.phase == Accepted && d.layout.target == Some(d.journal.candidate) &&
            AcceptedOnEvidence(s, d.journal))
              || (d.journal.phase == RolledBack && d.layout.target == Some(d.journal.source)))
        case BootChild(receipt) =>
          && args == ["--app-update-boot", receipt.nonce] && receipt.nonce == d.journal.nonce
          && CheckedShape(d) == Some(ShapeNewPlaced) && d.layout.previous == Some(d.journal.source)
        case RestoreFirst => args == [] && Open(d)
        case Refused => args != []
  {
    RunKeepsInvariant(events);
  }

  /** A finished update makes room for any other, whatever is left of it. */
  lemma FinishedMakesRoom(s: System, first: Durable) returns (events: seq<Event>)
    requires s.disk.Some? && s.disk.value.journal.phase in {Accepted, RolledBack}
    requires Fresh(first) && first.journal.nonce !in s.nonces
    ensures var t := Run(s, events);
      t.disk == Some(first) && t.bootstrap == Absent && t.startup == Absent && t.ready == Absent && t.supervisor == Gone
  {
    events := [Leave, RemoveRecords(true, true, true), RemoveJournal, Prepare(first)];
    RunOfOne(s, Leave);
    RunOneMore(s, events[..1], events[1]);
    RunOneMore(s, events[..2], events[2]);
    RunOneMore(s, events[..3], events[3]);
    assert events[..1] == [Leave] && events[..1] + [events[1]] == events[..2];
    assert events[..2] + [events[2]] == events[..3] && events[..3] + [events[3]] == events;
  }

  // ---- runs ----

  lemma RunOneMore(s: System, events: seq<Event>, ev: Event)
    ensures Run(s, events + [ev]) == Apply(Run(s, events), ev)
  {
    assert (events + [ev])[..|events + [ev]| - 1] == events;
  }

  lemma {:induction false} RunOfTwo(s: System, a: seq<Event>, b: seq<Event>)
    ensures Run(s, a + b) == Run(Run(s, a), b)
  {
    hide Apply;
    if b == [] {
      assert a + b == a;
    } else {
      var n := |b| - 1;
      RunOfTwo(s, a, b[..n]);
      assert a + b == a + b[..n] + [b[n]];
      RunOneMore(s, a + b[..n], b[n]);
    }
  }

  lemma RunOfOne(s: System, ev: Event)
    ensures Run(s, [ev]) == Apply(s, ev)
  {
    RunOneMore(s, [], ev);
    assert [] + [ev] == [ev];
  }

  // ---- from the disk's own history to a run ----

  lemma {:induction false} PassiveKeepsDisk(s: System, events: seq<Event>)
    requires forall ev :: ev in events ==> Passive(ev)
    ensures var t := Run(s, events); t.disk == s.disk && t.supervisor == s.supervisor && t.ready == s.ready
  {
    if events != [] {
      assert events[|events| - 1] in events;
      PassiveKeepsDisk(s, events[..|events| - 1]);
    }
  }

  /** Every durable state of a history but the first, as a write. */
  function Writes(h: seq<Durable>): seq<Event>
  {
    if |h| <= 1 then [] else Writes(h[..|h| - 1]) + [Write(h[|h| - 1])]
  }

  lemma NoWrites(s: System, d: Durable)
    ensures Run(s, Writes([d])) == s
  {
  }

  lemma OneMoreWritten(h: seq<Durable>, next: Durable)
    requires h != []
    ensures Writes(h + [next]) == Writes(h) + [Write(next)]
  {
    assert (h + [next])[..|h|] == h;
  }

  lemma RestoredIsFinal(d: Durable, e: Durable)
    requires d.journal.source != d.journal.candidate && Accepts(d) && d.journal.phase == RolledBack && Step(d, e)
    ensures e == d
  {
    BegunRestorationGoesOn(d, e);
  }

  /** A stretch of history without an acceptance is a run of writes of a supervisor in its replacement. */
  lemma {:induction false} HistoryIsWrites(s: System, h: seq<Durable>, i: nat, k: nat)
    requires Chain(h) && i <= k < |h| && s.disk == Some(h[i]) && h[k].journal.phase != Accepted
    requires s.supervisor.Replacing?
    ensures Run(s, Writes(h[i..k + 1])) == s.(disk := Some(h[k]))
    decreases k
  {
    hide *;
    if i == k {
      assert h[i..k + 1] == [h[k]];
      NoWrites(s, h[k]);
    } else {
      RecognisedInChain(h, k - 1);
      if h[k - 1].journal.phase == Accepted {
        AcceptedIsFinal(h, k - 1, k);
      }
      HistoryIsWrites(s, h, i, k - 1);
      assert h[i..k + 1] == h[i..k] + [h[k]];
      OneMoreWritten(h[i..k], h[k]);
      RunOneMore(s, Writes(h[i..k]), Write(h[k]));
      if h[k - 1].journal.phase == RolledBack {
        RestoredIsFinal(h[k - 1], h[k]);
      }
      WriteTakesEffect(s.(disk := Some(h[k - 1])), h[k]);
    }
  }

  lemma WriteTakesEffect(s: System, e: Durable)
    requires s.disk.Some? && Step(s.disk.value, e) && s.disk.value.journal.phase != Accepted &&
      e.journal.phase != Accepted && s.supervisor.Replacing?
    requires s.disk.value.journal.phase == RolledBack ==> e == s.disk.value
    ensures Apply(s, Write(e)) == s.(disk := Some(e))
  {
  }
}
