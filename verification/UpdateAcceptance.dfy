/**
 * Which open updates can still be accepted, exactly, and how an update gets beyond acceptance: every record is
 * created once, only the supervisor that began a replacement completes it, and it waits for its own child only.
 */
module UpdateAcceptance {
  import opened Wrappers
  import opened BundleProtocol
  import opened UpdateSupervisor

  // ---- which updates can still be accepted ----

  /** The record can still come to hold the content: it is not there yet, or it holds it. */
  predicate Free<T(==)>(record: Record<T>, content: T)
  {
    record.Absent? || record == Whole(content)
  }

  /** Nothing was written of the replacement, and one who may come finds its record free. */
  ghost predicate CanBeTakenOver(s: System, d: Durable, mayCome: Watcher -> bool)
  {
    Untouched(d) && exists me :: mayCome(me) && me.nonce == d.journal.nonce && Free(s.ready, me)
  }

  /** The supervisor is on its way: it may begin, it is in its replacement, or it waits for a living child or more. */
  predicate OnItsWay(s: System, d: Durable)
  {
    match s.supervisor
    case Gone => false
    case Attached => Untouched(d)
    case Replacing => true
    case Waiting(child, looked) => looked || child in s.processes
    case Convinced(_) => true
    case GivenUp => false
  }

  /** No restoration has begun, and each of the child's records is absent or the update's own. */
  predicate Unhindered(s: System, d: Durable)
  {
    && !Finished(d.journal.phase) && !RestorationBegun(d)
    && Free(s.bootstrap, Own(d)) && Free(s.startup, Own(d))
  }

  ghost predicate CanBeAccepted(s: System, d: Durable, mayCome: Watcher -> bool)
  {
    Unhindered(s, d) && (OnItsWay(s, d) || CanBeTakenOver(s, d, mayCome))
  }

  /** Every supervisor that comes is one of those that may. */
  ghost predicate Within(events: seq<Event>, mayCome: Watcher -> bool)
  {
    forall ev :: ev in events && ev.Attach? ==> mayCome(ev.me)
  }

  predicate AcceptedAs(s: System, nonce: string)
  {
    s.disk.Some? && s.disk.value.journal.nonce == nonce && s.disk.value.journal.phase == Accepted
  }

  // ---- what cannot be accepted stays so ----

  /** The update is not accepted, and as long as it is open it cannot be. */
  ghost predicate OutOfReach(s: System, nonce: string, mayCome: Watcher -> bool)
  {
    && nonce in s.nonces
    && (s.disk.Some? && s.disk.value.journal.nonce == nonce ==>
          s.disk.value.journal.phase != Accepted && !CanBeAccepted(s, s.disk.value, mayCome))
  }

  lemma WriteKeepsOutOfReach(s: System, d: Durable, e: Durable, mayCome: Watcher -> bool)
    requires d.journal.source != d.journal.candidate && Accepts(d)
    requires !Finished(d.journal.phase) && MayWrite(s, d, e) && !CanBeAccepted(s, d, mayCome)
    ensures SameUpdate(d.journal, e.journal) && e.journal.phase != Accepted && !CanBeAccepted(s, e, mayCome)
  {
    StepKeepsAcceptance(d, e);
    RestoringIsNotAccepting(d);
    if RestorationBegun(d) {
      BegunRestorationGoesOn(d, e);
    }
  }

  lemma ProcessesKeepOutOfReach(s: System, ev: Event, nonce: string, mayCome: Watcher -> bool)
    requires Invariant(s) && OutOfReach(s, nonce, mayCome) && Passive(ev)
    ensures OutOfReach(Apply(s, ev), nonce, mayCome)
  {
    hide Settled, Witnessed, Gate, RestorationBegun, Untouched;
  }

  lemma SupervisorKeepsOutOfReach(s: System, ev: Event, nonce: string, mayCome: Watcher -> bool)
    requires Invariant(s) && OutOfReach(s, nonce, mayCome) && Supervising(ev)
    requires ev.Attach? ==> mayCome(ev.me)
    ensures OutOfReach(Apply(s, ev), nonce, mayCome)
  {
    hide Settled, Witnessed, CheckedShape;
  }

  lemma EventKeepsOutOfReach(s: System, ev: Event, nonce: string, mayCome: Watcher -> bool)
    requires Invariant(s) && OutOfReach(s, nonce, mayCome)
    requires ev.Attach? ==> mayCome(ev.me)
    ensures OutOfReach(Apply(s, ev), nonce, mayCome)
  {
    hide ShapeOf, Fresh, Eroded, Witnessed, ProcessStep, SupervisorStep, CanBeAccepted;
    if Passive(ev) {
      ProcessesKeepOutOfReach(s, ev, nonce, mayCome);
    } else if Supervising(ev) {
      SupervisorKeepsOutOfReach(s, ev, nonce, mayCome);
    } else if ev.Write? && Apply(s, ev) != s {
      if s.disk.value.journal.nonce == nonce {
        WriteKeepsOutOfReach(s, s.disk.value, ev.next, mayCome);
        SameForWriting(s, ev.next, mayCome);
      } else {
        StepKeepsAcceptance(s.disk.value, ev.next);
      }
    } else {
      ClearingKeepsOutOfReach(s, ev, nonce, mayCome);
    }
  }

  lemma SameForWriting(s: System, e: Durable, mayCome: Watcher -> bool)
    ensures CanBeAccepted(s.(disk := Some(e)), e, mayCome) == CanBeAccepted(s, e, mayCome)
  {
  }

  lemma ClearingKeepsOutOfReach(s: System, ev: Event, nonce: string, mayCome: Watcher -> bool)
    requires Invariant(s) && OutOfReach(s, nonce, mayCome) && !Passive(ev) && !Supervising(ev)
    requires ev.Write? ==> Apply(s, ev) == s
    ensures OutOfReach(Apply(s, ev), nonce, mayCome)
  {
    hide Eroded, Witnessed, OnItsWay, CanBeTakenOver;
  }

  lemma {:induction false} RunKeepsOutOfReach(events: seq<Event>, more: seq<Event>, nonce: string,
                                              mayCome: Watcher -> bool)
    requires OutOfReach(Run(UNTOUCHED, events), nonce, mayCome) && Within(more, mayCome)
    ensures OutOfReach(Run(UNTOUCHED, events + more), nonce, mayCome)
  {
    hide Apply, OutOfReach, Invariant;
    if more == [] {
      assert events + more == events;
    } else {
      var n := |more| - 1;
      assert Within(more[..n], mayCome) && more[n] in more;
      RunKeepsOutOfReach(events, more[..n], nonce, mayCome);
      RunKeepsInvariant(events + more[..n]);
      assert events + more == events + more[..n] + [more[n]];
      RunOneMore(UNTOUCHED, events + more[..n], more[n]);
      EventKeepsOutOfReach(Run(UNTOUCHED, events + more[..n]), more[n], nonce, mayCome);
    }
  }

  // ---- what can be accepted is, if all goes well ----

  /** From here these events, none of which brings another supervisor, end with the update accepted. */
  ghost predicate Leads(s: System, more: seq<Event>, nonce: string)
  {
    AcceptedAs(Run(s, more), nonce) && forall ev :: ev in more ==> !ev.Attach?
  }

  lemma LeadsOn(s: System, first: seq<Event>, more: seq<Event>, nonce: string)
    requires Leads(Run(s, first), more, nonce) && forall ev :: ev in first ==> !ev.Attach?
    ensures Leads(s, first + more, nonce)
  {
    RunOfTwo(s, first, more);
  }

  lemma AcceptTakesEffect(s: System)
    requires InPlace(s) && Accepts(s.disk.value) && s.supervisor == Convinced(Own(s.disk.value))
    ensures Run(s, [Accept]) == s.(disk := Some(Mark(s.disk.value, Accepted, None)))
  {
    RunOfOne(s, Accept);
  }

  lemma FromConvinced(s: System) returns (more: seq<Event>)
    requires InPlace(s) && Accepts(s.disk.value) && s.supervisor == Convinced(Own(s.disk.value))
    ensures Leads(s, more, s.disk.value.journal.nonce)
  {
    more := [Accept];
    AcceptTakesEffect(s);
  }

  /** A boot process passes the gate and leaves its records, and how it ends writing each of them is open. */
  function Reporting(p: nat, nonce: string, first: Ending, second: Ending): seq<Event>
  {
    [Spawn([BOOT_FLAG, nonce]), Pass(p, false, true), RecordBoot(p, first), ReportReady(p, second)]
  }

  lemma PassesGate(s: System, p: nat)
    requires s.disk.Some? && s.disk.value == Placed(s.disk.value.journal)
    requires p in s.processes && s.processes[p] == Started([BOOT_FLAG, s.disk.value.journal.nonce])
    ensures var t := Apply(s, Pass(p, false, true));
      t == s.(processes := s.processes[p := Admitted(Own(s.disk.value))], passed := t.passed)
  {
    var d := s.disk.value;
    var admission := Gate(s.disk, d.layout.target, false, s.processes[p].args, true);
    assert admission == BootChild(Own(d));
  }

  lemma Spawns(s: System, args: seq<string>)
    ensures Apply(s, Spawn(args)) == s.(processes := s.processes[s.next := Started(args)], next := s.next + 1)
  {
  }

  lemma Boots(s: System)
    requires s.disk.Some? && s.disk.value == Placed(s.disk.value.journal)
    ensures var d, p := s.disk.value, s.next;
      var t := Run(s, [Spawn([BOOT_FLAG, d.journal.nonce]), Pass(p, false, true)]);
      && t.processes == s.processes[p := Admitted(Own(d))]
      && t == s.(processes := t.processes, next := t.next, passed := t.passed)
  {
    hide Apply, Own;
    var p := s.next;
    var a, b := Spawn([BOOT_FLAG, s.disk.value.journal.nonce]), Pass(p, false, true);
    RunOfOne(s, a);
    RunOneMore(s, [a], b);
    assert [a] + [b] == [a, b];
    Spawns(s, [BOOT_FLAG, s.disk.value.journal.nonce]);
    PassesGate(Apply(s, a), p);
  }

  lemma RecordsBoot(s: System, p: nat, r: Receipt, ending: Ending)
    requires p in s.processes && s.processes[p] == Admitted(r)
    ensures var t := Apply(s, RecordBoot(p, ending));
      var (record, goesOn) := Written(s.bootstrap, r, ending);
      && t == s.(bootstrap := record, processes := t.processes)
      && t.processes == if goesOn then s.processes[p := Booted(r)] else s.processes - {p}
  {
    hide Written;
  }

  lemma RecordsReady(s: System, p: nat, r: Receipt, ending: Ending)
    requires p in s.processes ==> s.processes[p] == Booted(r)
    ensures var t := Apply(s, ReportReady(p, ending));
      && t == s.(startup := t.startup, processes := t.processes, reported := t.reported)
      && t.startup == (if p in s.processes then Written(s.startup, r, ending).0 else s.startup)
      && t.processes == if ending.Returns? then s.processes else s.processes - {p}
  {
    hide Written;
    if p !in s.processes {
      assert s.processes - {p} == s.processes;
    }
  }

  lemma Reports(s: System, first: Ending, second: Ending)
    requires s.disk.Some? && s.disk.value == Placed(s.disk.value.journal) && s.next !in s.processes
    ensures var r, p := Own(s.disk.value), s.next;
      var t := Run(s, Reporting(p, r.nonce, first, second));
      var (bootstrap, goesOn) := Written(s.bootstrap, r, first);
      && t.disk == s.disk && t.supervisor == s.supervisor && t.bootstrap == bootstrap
      && t.startup == (if goesOn then Written(s.startup, r, second).0 else s.startup)
      && forall q :: q in s.processes ==> q in t.processes
  {
    hide Written, Apply;
    var r, p := Own(s.disk.value), s.next;
    var e := Reporting(p, r.nonce, first, second);
    Boots(s);
    RunOneMore(s, e[..2], e[2]);
    RunOneMore(s, e[..3], e[3]);
    assert e[..2] + [e[2]] == e[..3] && e[..3] + [e[3]] == e;
    RecordsBoot(Run(s, e[..2]), p, r, first);
    RecordsReady(Run(s, e[..3]), p, r, second);
  }

  /** A poll that finds the child alive, or has found it so, can find both records too. */
  lemma FromWaiting(s: System) returns (more: seq<Event>)
    requires s.disk.Some? && s.disk.value == Placed(s.disk.value.journal) && Open(s.disk.value)
    requires s.supervisor.Waiting? && OnItsWay(s, s.disk.value) && Unhindered(s, s.disk.value)
    requires s.next !in s.processes
    ensures Leads(s, more, s.disk.value.journal.nonce)
  {
    hide ProcessStep, Open, Leads, Accepts;
    var d, nonce := s.disk.value, s.disk.value.journal.nonce;
    var b := Reporting(s.next, nonce, Returns, Returns);
    var a := if s.supervisor.looked then [] else [Look];
    if !s.supervisor.looked {
      FindsChild(s);
    }
    var looked := Run(s, a);
    Reports(looked, Returns, Returns);
    var reported := Run(looked, b);
    PlacedIsAccepted(d);
    RecordsFound(reported);
    var c := FromConvinced(Run(reported, [FinishWait]));
    LeadsOn(reported, [FinishWait], c, nonce);
    LeadsOn(looked, b, [FinishWait] + c, nonce);
    LeadsOn(s, a, b + ([FinishWait] + c), nonce);
    more := a + (b + ([FinishWait] + c));
  }

  lemma FindsChild(s: System)
    requires s.supervisor.Waiting? && s.supervisor.child in s.processes
    ensures Run(s, [Look]) == s.(supervisor := s.supervisor.(looked := true))
  {
    RunOfOne(s, Look);
  }

  lemma RecordsFound(s: System)
    requires InPlace(s) && s.supervisor.Waiting? && s.supervisor.looked && BothSay(s, Own(s.disk.value))
    ensures Run(s, [FinishWait]) == s.(supervisor := Convinced(Own(s.disk.value)))
  {
    RunOfOne(s, FinishWait);
  }

  lemma PlacedIsAccepted(d: Durable)
    requires Open(d) && d == Placed(d.journal)
    ensures Accepts(d) && d.journal.phase == NewPlaced && d.journal.intent.None?
  {
  }

  /** How many writes a replacement still needs. */
  function WritesLeft(d: Durable): nat
  {
    var shape := ShapeOf(d.journal, d.layout);
    match (d.journal.phase, d.journal.intent)
    case (Prepared, None) => 6
    case (Prepared, _) => if shape == Some(ShapePrepared) then 5 else 4
    case (OldMoved, None) => 3
    case (OldMoved, _) => if shape == Some(ShapeOldMoved) then 2 else 1
    case _ => 0
  }

  lemma ReplacementWriteIsProgress(d: Durable)
    requires Open(d) && !RestorationBegun(d)
    ensures WritesLeft(d) == 0 ==> d == Placed(d.journal)
    ensures WritesLeft(d) > 0 ==>
      && NextReplace(d).Some?
      && var e := NextReplace(d).value;
        Open(e) && !RestorationBegun(e) && SameUpdate(d.journal, e.journal) && WritesLeft(e) == WritesLeft(d) - 1
  {
    if WritesLeft(d) > 0 {
      StepKeepsAcceptance(d, NextReplace(d).value);
    }
  }

  /** A supervisor in its replacement can complete it, and nothing but the disk changes. */
  lemma {:induction false} ReplacementCanComplete(s: System) returns (more: seq<Event>)
    requires s.disk.Some? && Open(s.disk.value) && !RestorationBegun(s.disk.value) && s.supervisor.Replacing?
    ensures Run(s, more) == s.(disk := Some(Placed(s.disk.value.journal)))
    ensures forall ev :: ev in more ==> !ev.Attach?
    decreases WritesLeft(s.disk.value)
  {
    hide Apply, Open, RestorationBegun, NextReplace, ShapeOf;
    var d := s.disk.value;
    ReplacementWriteIsProgress(d);
    more := [];
    if WritesLeft(d) > 0 {
      var e := NextReplace(d).value;
      var t := s.(disk := Some(e));
      ForwardWrite(s, e);
      more := ReplacementCanComplete(t);
      RunOfOne(s, Write(e));
      RunOfTwo(s, [Write(e)], more);
      more := [Write(e)] + more;
    }
  }

  lemma ForwardWrite(s: System, e: Durable)
    requires s.disk.Some? && Open(s.disk.value) && !RestorationBegun(s.disk.value)
    requires s.supervisor.Replacing? && NextReplace(s.disk.value) == Some(e)
    ensures Apply(s, Write(e)) == s.(disk := Some(e))
  {
  }

  lemma PlacedIsOpen(d: Durable)
    requires Open(d)
    ensures Open(Placed(d.journal)) && Own(Placed(d.journal)) == Own(d) && !RestorationBegun(Placed(d.journal))
  {
  }

  /** The system when the candidate is in place and its supervisor has just started the child. */
  function AtWait(s: System, j: Journal): System
  {
    s.(disk := Some(Placed(j)), supervisor := Waiting(s.next, false), next := s.next + 1,
       processes := s.processes[s.next := Started([BOOT_FLAG, j.nonce])])
  }

  lemma LaunchesChild(s: System)
    requires s.disk.Some? && s.disk.value == Placed(s.disk.value.journal) && s.supervisor.Replacing?
    ensures Run(s, [Launch]) == AtWait(s, s.disk.value.journal)
  {
    RunOfOne(s, Launch);
  }

  lemma GetsToWait(s: System) returns (more: seq<Event>)
    requires s.disk.Some? && Open(s.disk.value) && !RestorationBegun(s.disk.value) && s.supervisor.Replacing?
    ensures Run(s, more) == AtWait(s, s.disk.value.journal)
    ensures forall ev :: ev in more ==> !ev.Attach?
  {
    var placing := ReplacementCanComplete(s);
    var placed := s.(disk := Some(Placed(s.disk.value.journal)));
    LaunchesChild(placed);
    RunOfTwo(s, placing, [Launch]);
    more := placing + [Launch];
  }

  lemma FromReplacing(s: System) returns (more: seq<Event>)
    requires s.disk.Some? && Open(s.disk.value) && Unhindered(s, s.disk.value) && s.supervisor.Replacing?
    requires s.next + 1 !in s.processes
    ensures Leads(s, more, s.disk.value.journal.nonce)
  {
    hide Open, Run, RestorationBegun, Leads;
    var d := s.disk.value;
    var first := GetsToWait(s);
    PlacedIsOpen(d);
    var after := FromWaiting(AtWait(s, d.journal));
    LeadsOn(s, first, after, d.journal.nonce);
    more := first + after;
  }

  lemma Begins(s: System)
    requires s.disk.Some? && Open(s.disk.value) && Untouched(s.disk.value) && s.supervisor.Attached?
    ensures Run(s, [BeginReplace]) == s.(supervisor := Replacing)
  {
    RunOfOne(s, BeginReplace);
  }

  lemma FromAttached(s: System) returns (more: seq<Event>)
    requires s.disk.Some? && Open(s.disk.value) && Unhindered(s, s.disk.value)
    requires s.supervisor.Attached? && Untouched(s.disk.value) && s.next + 1 !in s.processes
    ensures Leads(s, more, s.disk.value.journal.nonce)
  {
    hide Open, Run, RestorationBegun, Leads;
    Begins(s);
    var after := FromReplacing(s.(supervisor := Replacing));
    LeadsOn(s, [BeginReplace], after, s.disk.value.journal.nonce);
    more := [BeginReplace] + after;
  }

  /** A supervisor takes over an update that nothing was written of; an earlier one leaves, if there is one. */
  lemma TakenOver(s: System, me: Watcher)
    requires s.disk.Some? && Open(s.disk.value) && Untouched(s.disk.value)
    requires me.nonce == s.disk.value.journal.nonce && Free(s.ready, me)
    ensures Run(s, [Leave, Attach(me, Returns)]) == s.(ready := Whole(me), supervisor := Attached)
  {
    RunOfOne(s, Leave);
    RunOneMore(s, [Leave], Attach(me, Returns));
    assert [Leave] + [Attach(me, Returns)] == [Leave, Attach(me, Returns)];
  }

  lemma FromAnyone(s: System, mayCome: Watcher -> bool) returns (more: seq<Event>)
    requires s.disk.Some? && Open(s.disk.value) && Unhindered(s, s.disk.value)
    requires CanBeTakenOver(s, s.disk.value, mayCome) && s.next + 1 !in s.processes
    ensures AcceptedAs(Run(s, more), s.disk.value.journal.nonce) && Within(more, mayCome)
  {
    hide Open, Run, RestorationBegun, AcceptedAs;
    var me :| mayCome(me) && me.nonce == s.disk.value.journal.nonce && Free(s.ready, me);
    var first := [Leave, Attach(me, Returns)];
    TakenOver(s, me);
    var after := FromAttached(s.(ready := Whole(me), supervisor := Attached));
    RunOfTwo(s, first, after);
    more := first + after;
  }

  lemma AcceptingRun(events: seq<Event>, mayCome: Watcher -> bool) returns (more: seq<Event>)
    requires var s := Run(UNTOUCHED, events);
      && s.disk.Some? && !Finished(s.disk.value.journal.phase) && CanBeAccepted(s, s.disk.value, mayCome)
    ensures AcceptedAs(Run(UNTOUCHED, events + more), Run(UNTOUCHED, events).disk.value.journal.nonce)
    ensures Within(more, mayCome)
  {
    hide Run, Open, AcceptedAs, RestorationBegun;
    var s := Run(UNTOUCHED, events);
    RunKeepsInvariant(events);
    OpenIfNotFinished(s);
    if !OnItsWay(s, s.disk.value) {
      more := FromAnyone(s, mayCome);
    } else {
      match s.supervisor {
        case Attached => more := FromAttached(s);
        case Replacing => more := FromReplacing(s);
        case Waiting(_, _) => more := FromWaiting(s);
        case Convinced(_) => more := FromConvinced(s);
      }
    }
    RunOfTwo(UNTOUCHED, events, more);
  }

  lemma OpenIfNotFinished(s: System)
    requires Invariant(s) && s.disk.Some? && !Finished(s.disk.value.journal.phase)
    ensures Open(s.disk.value) && Accepts(s.disk.value) && s.next !in s.processes && s.next + 1 !in s.processes
    ensures (s.supervisor.Waiting? || s.supervisor.Convinced?) && !RestorationBegun(s.disk.value) ==>
      s.disk.value == Placed(s.disk.value.journal) && InPlace(s)
    ensures s.supervisor.Convinced? ==> s.supervisor == Convinced(Own(s.disk.value))
  {
  }

  /**
   * From every reachable state with an open update some continuation accepts it, if and only if no restoration
   * has begun, each of the child's records is absent or its own, and either its supervisor is on its way or one
   * may come that finds its own record free before anything was written of the replacement. MayCome says with
   * which process numbers supervisors come: their record names them, and is created once.
   */
  lemma AcceptedSomeDayIffNothingIsInTheWay(events: seq<Event>, mayCome: Watcher -> bool)
    requires var s := Run(UNTOUCHED, events); s.disk.Some? && !Finished(s.disk.value.journal.phase)
    ensures var d := Run(UNTOUCHED, events).disk.value;
      CanBeAccepted(Run(UNTOUCHED, events), d, mayCome) <==>
        exists more :: Within(more, mayCome) && AcceptedAs(Run(UNTOUCHED, events + more), d.journal.nonce)
  {
    hide CanBeAccepted;
    var s := Run(UNTOUCHED, events);
    var nonce := s.disk.value.journal.nonce;
    RunKeepsInvariant(events);
    if CanBeAccepted(s, s.disk.value, mayCome) {
      var more := AcceptingRun(events, mayCome);
      assert Within(more, mayCome) && AcceptedAs(Run(UNTOUCHED, events + more), nonce);
    } else {
      forall more | Within(more, mayCome) ensures !AcceptedAs(Run(UNTOUCHED, events + more), nonce) {
        RunKeepsOutOfReach(events, more, nonce, mayCome);
      }
    }
  }

  // ---- how an update gets lost ----

  /** The update of a state is open, and no continuation accepts it, whoever may come. */
  ghost predicate NeverAccepted(events: seq<Event>)
    requires Run(UNTOUCHED, events).disk.Some?
  {
    forall more :: !AcceptedAs(Run(UNTOUCHED, events + more), Run(UNTOUCHED, events).disk.value.journal.nonce)
  }

  lemma NeverIfNobodyCan(events: seq<Event>)
    requires var s := Run(UNTOUCHED, events);
      && s.disk.Some? && !Finished(s.disk.value.journal.phase) && !CanBeAccepted(s, s.disk.value, (me: Watcher) => true)
    ensures NeverAccepted(events)
  {
    AcceptedSomeDayIffNothingIsInTheWay(events, (me: Watcher) => true);
    var s := Run(UNTOUCHED, events);
    forall more ensures !AcceptedAs(Run(UNTOUCHED, events + more), s.disk.value.journal.nonce) {
      assert Within(more, (me: Watcher) => true);
    }
  }

  /** An update whose supervisor was lost after the first write of its replacement is never accepted. */
  lemma LostSupervisorMeansNeverAccepted(events: seq<Event>)
    requires var s := Run(UNTOUCHED, events);
      && s.disk.Some? && !Finished(s.disk.value.journal.phase) && !Untouched(s.disk.value)
      && (s.supervisor.Gone? || s.supervisor.GivenUp?)
    ensures NeverAccepted(events)
  {
    NeverIfNobodyCan(events);
  }

  /** An update whose supervisor has to look for its child again, and the child is gone, is never accepted. */
  lemma LostChildMeansNeverAccepted(events: seq<Event>)
    requires var s := Run(UNTOUCHED, events);
      && s.disk.Some? && !Finished(s.disk.value.journal.phase)
      && s.supervisor.Waiting? && !s.supervisor.looked && s.supervisor.child !in s.processes
    ensures NeverAccepted(events)
  {
    RunKeepsInvariant(events);
    NeverIfNobodyCan(events);
  }

  /** An open update of which a child's record is torn, or speaks of another update, is never accepted. */
  lemma SpoiltRecordMeansNeverAccepted(events: seq<Event>)
    requires var s := Run(UNTOUCHED, events);
      && s.disk.Some? && !Finished(s.disk.value.journal.phase)
      && (!Free(s.bootstrap, Own(s.disk.value)) || !Free(s.startup, Own(s.disk.value)))
    ensures NeverAccepted(events)
  {
    NeverIfNobodyCan(events);
  }

  /** An update without a supervisor, whose supervisor's record is torn, is never accepted. */
  lemma TornReadyMeansNeverAccepted(events: seq<Event>)
    requires var s := Run(UNTOUCHED, events);
      && s.disk.Some? && !Finished(s.disk.value.journal.phase)
      && (s.supervisor.Gone? || s.supervisor.GivenUp?) && s.ready.Torn?
    ensures NeverAccepted(events)
  {
    NeverIfNobodyCan(events);
  }

  /**
   * An update whose supervisor left its record and is lost can be accepted only with another supervisor of the
   * very same process numbers.
   */
  lemma OnlyTheSameNumbersGoOn(events: seq<Event>, more: seq<Event>, me: Watcher)
    requires var s := Run(UNTOUCHED, events);
      && s.disk.Some? && !Finished(s.disk.value.journal.phase)
      && (s.supervisor.Gone? || s.supervisor.GivenUp?) && s.ready == Whole(me)
    requires AcceptedAs(Run(UNTOUCHED, events + more), Run(UNTOUCHED, events).disk.value.journal.nonce)
    ensures exists ev :: ev in more && ev.Attach? && ev.me == me
  {
    var others := (other: Watcher) => other != me;
    AcceptedSomeDayIffNothingIsInTheWay(events, others);
    assert !Within(more, others);
  }

  lemma PreparedIsOpen(first: Durable)
    requires Fresh(first)
    ensures var s := Run(UNTOUCHED, [Prepare(first)]);
      s == UNTOUCHED.(disk := Some(first), nonces := {first.journal.nonce})
    ensures Open(first) && Untouched(first) && !RestorationBegun(first) && first == FreshFor(first.journal)
  {
    RunOfOne(UNTOUCHED, Prepare(first));
  }

  /** Every update can lose its supervisor before anything was written of it, with its record whole or torn. */
  lemma SupervisorCanBeLostEarly(first: Durable, me: Watcher, torn: bool)
    requires Fresh(first) && me.nonce == first.journal.nonce
    ensures var t := Run(UNTOUCHED, [Prepare(first), Attach(me, Lost(torn))]);
      t.disk == Some(first) && t.supervisor.Gone? && t.ready == if torn then Torn else Whole(me)
  {
    hide Run;
    PreparedIsOpen(first);
    RunOneMore(UNTOUCHED, [Prepare(first)], Attach(me, Lost(torn)));
    assert [Prepare(first)] + [Attach(me, Lost(torn))] == [Prepare(first), Attach(me, Lost(torn))];
  }

  /** Every update gets to the wait for its child. */
  lemma EveryUpdateGetsToWait(first: Durable, me: Watcher) returns (events: seq<Event>)
    requires Fresh(first) && me.nonce == first.journal.nonce
    ensures var s := UNTOUCHED.(nonces := {first.journal.nonce}, ready := Whole(me));
      Run(UNTOUCHED, events) == AtWait(s, first.journal)
  {
    hide Run, Open, Fresh, AtWait;
    var a, b, c := [Prepare(first)], [Leave, Attach(me, Returns)], [BeginReplace];
    PreparedIsOpen(first);
    var s := Run(UNTOUCHED, a);
    TakenOver(s, me);
    Begins(s.(ready := Whole(me), supervisor := Attached));
    var replacing := s.(ready := Whole(me), supervisor := Replacing);
    var d := GetsToWait(replacing);
    RunOfTwo(UNTOUCHED, a, b);
    RunOfTwo(UNTOUCHED, a + b, c);
    RunOfTwo(UNTOUCHED, a + b + c, d);
    WaitIgnores(replacing, first);
    events := a + b + c + d;
  }

  lemma WaitIgnores(s: System, first: Durable)
    requires s == UNTOUCHED.(disk := Some(first), nonces := {first.journal.nonce}, ready := s.ready,
      supervisor := Replacing)
    ensures AtWait(s, first.journal)
      == AtWait(UNTOUCHED.(nonces := {first.journal.nonce}, ready := s.ready), first.journal)
  {
  }

  /** Every update can lose its child after the first record was written whole. */
  lemma ChildCanBeLost(first: Durable, me: Watcher) returns (events: seq<Event>)
    requires Fresh(first) && me.nonce == first.journal.nonce
    ensures var t := Run(UNTOUCHED, events);
      && t.disk == Some(Placed(first.journal)) && t.supervisor == Waiting(0, false) && 0 !in t.processes
      && t.bootstrap == Whole(Own(first)) && t.startup.Absent?
  {
    hide Open, Fresh;
    var waiting := EveryUpdateGetsToWait(first, me);
    var a, b := Pass(0, false, true), RecordBoot(0, Lost(false));
    RunOneMore(UNTOUCHED, waiting, a);
    RunOneMore(UNTOUCHED, waiting + [a], b);
    events := waiting + [a] + [b];
  }

  /** Every update can find a record torn by another boot process, while its own child is alive. */
  lemma RecordCanBeTorn(first: Durable, me: Watcher) returns (events: seq<Event>)
    requires Fresh(first) && me.nonce == first.journal.nonce
    ensures var t := Run(UNTOUCHED, events);
      && t.disk == Some(Placed(first.journal)) && t.supervisor == Waiting(0, false) && 0 in t.processes
      && t.bootstrap == Whole(Own(first)) && t.startup.Torn?
  {
    hide Open, Fresh, Run;
    var waiting := EveryUpdateGetsToWait(first, me);
    var s := Run(UNTOUCHED, waiting);
    var reporting := Reporting(s.next, first.journal.nonce, Returns, Lost(true));
    Reports(s, Returns, Lost(true));
    RunOfTwo(UNTOUCHED, waiting, reporting);
    events := waiting + reporting;
  }
}
