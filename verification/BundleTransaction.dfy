/**
 * The operations on an update directory, in the order in which they touch the disk.
 * Every save and every rename may fail or be cut off by a crash, before or after it took effect.
 */
module BundleTransaction {
  import opened Wrappers
  import opened BundleProtocol

  /** Failed: the call returned an error and the process goes on. Crashed: the process is gone. */
  datatype Outcome = Done | Failed | Crashed

  const RESERVED := {"startup.json", "supervisor.ready", "bootstrap.ok", "boot-failed.json"}

  class Disk {
    var layout: Layout
    var journal: Option<Journal>
    /** A half-written or never renamed next journal. */
    var pending: bool
    var reserved: set<string>
    /** The update directory holds something no operation knows. */
    var foreign: bool
    /** How many more errors or crashes the surroundings will produce. */
    var faults: nat
    /** Every durable state since preparation. */
    ghost var history: seq<Durable>

    constructor (target: Identity, faults: nat)
      ensures Valid() && journal.None? && layout == Layout(Some(target), None, None, None)
      ensures !foreign && !pending && reserved == {} && this.faults == faults
    {
      layout, journal := Layout(Some(target), None, None, None), None;
      pending, reserved, foreign := false, {}, false;
      this.faults := faults;
      history := [];
    }

    function State(): Durable
      requires journal.Some?
      reads this
    {
      Durable(journal.value, layout)
    }

    ghost predicate Tracked()
      reads this
    {
      journal.Some? && Chain(history) && history[|history| - 1] == State()
    }

    /** Whatever the shape check recognises was produced by the protocol since preparation. */
    ghost predicate Valid()
      reads this
    {
      journal.Some? && journal.value.source != journal.value.candidate && Accepts(State()) ==> Tracked()
    }

    method Hazard() returns (o: Outcome)
      modifies this`faults
      ensures o.Done? ==> faults == old(faults)
      ensures !o.Done? ==> faults < old(faults)
    {
      o := Done;
      if faults > 0 {
        var luck: int := *;
        if luck != 0 {
          faults := faults - 1;
          o := if luck == 1 then Failed else Crashed;
        }
      }
    }

    /** Writes the next journal beside the current one and renames it into place. */
    method Save(next: Journal, compiled: string) returns (o: Outcome)
      requires journal.Some? ==> Tracked() && Step(State(), Durable(next, layout))
      requires journal.None? ==> Fresh(Durable(next, layout))
      modifies this`journal, this`pending, this`history, this`faults
      ensures journal == Some(next) || journal == old(journal)
      ensures journal.Some? ==> Tracked() && (old(journal).Some? ==> old(history) <= history)
      ensures o.Done? ==> journal == Some(next) && !pending && faults == old(faults)
      ensures !o.Done? && ValidJournal(next, compiled) ==> faults < old(faults)
    {
      if !ValidJournal(next, compiled) {
        return Failed;
      }
      o := Hazard();
      if !o.Done? { return; }
      if pending {
        pending := false;
        o := Hazard();
        if !o.Done? { return; }
      }
      pending := true;
      o := Hazard();
      if !o.Done? { return; }
      if journal.Some? {
        ChainGrows(history, Durable(next, layout));
        history := history + [Durable(next, layout)];
      } else {
        history := [Durable(next, layout)];
      }
      journal, pending := Some(next), false;
      o := Hazard();
    }

    /** Renames the bundle as the journal announced; the destination is known to be empty. */
    method Rename(intent: Intent) returns (o: Outcome)
      requires Tracked() && journal.value.intent == Some(intent)
      requires At(layout, From(intent)).Some? && At(layout, To(intent)).None?
      requires Step(State(), Carried(State(), intent))
      modifies this`layout, this`history, this`faults
      ensures layout == Moved(old(layout), From(intent), To(intent)) || layout == old(layout)
      ensures Tracked() && old(history) <= history
      ensures o.Done? ==> layout == Moved(old(layout), From(intent), To(intent)) && faults == old(faults)
      ensures !o.Done? ==> faults < old(faults)
    {
      o := Hazard();
      if !o.Done? { return; }
      ChainGrows(history, Carried(State(), intent));
      history := history + [Carried(State(), intent)];
      layout := Moved(layout, From(intent), To(intent));
      o := Hazard();
    }

    /** Removes a retained bundle file by file; an interruption leaves some remains of it. */
    method RemoveBundle(place: Place, cut: Cut) returns (o: Outcome)
      requires At(layout, place).Some?
      modifies this`layout, this`faults
      ensures layout == Put(old(layout), place, At(layout, place))
      ensures o.Done? ==> At(layout, place).None? && faults == old(faults) && !(cut.CutAt? && cut.place == place)
      ensures cut.CutAt? && cut.place == place ==>
        o.Crashed? && faults == old(faults) && layout == Put(old(layout), place, cut.remains)
      ensures !(cut.CutAt? && cut.place == place) && !o.Done? ==> faults < old(faults)
    {
      if cut.CutAt? && cut.place == place {
        layout := Put(layout, place, cut.remains);
        return Crashed;
      }
      o := Hazard();
      if !o.Done? {
        var remains: Identity := *;
        layout := Put(layout, place, Some(remains));
        return;
      }
      layout := Put(layout, place, None);
      o := Hazard();
    }
  }

  class Transaction {
    const disk: Disk
    /** The persistence metadata compiled into the running binary. */
    const compiled: string
    var nonce: string
    /** The volatile copy; stale after any error. */
    var journal: Option<Journal>

    constructor (disk: Disk, compiled: string, nonce: string, journal: Option<Journal>)
      ensures this.disk == disk && this.compiled == compiled && this.nonce == nonce && this.journal == journal
    {
      this.disk, this.compiled, this.nonce, this.journal := disk, compiled, nonce, journal;
    }

    /** The journal on disk belongs to this handle and everything around it is known. */
    predicate Readable()
      reads this, disk
    {
      && !disk.foreign
      && disk.journal.Some?
      && ValidJournal(disk.journal.value, compiled)
      && disk.journal.value.nonce == nonce
    }

    /** Readable, recognised and not accepted: what a restoration can work on. */
    predicate Restorable()
      reads this, disk
    {
      Readable() && Open(disk.State())
    }

    static method Resume(disk: Disk, compiled: string) returns (t: Option<Transaction>)
      requires disk.Valid()
      ensures t.Some? <==>
        !disk.foreign && disk.journal.Some? && ValidJournal(disk.journal.value, compiled) && Accepts(disk.State())
      ensures t.Some? ==> fresh(t.value) && t.value.disk == disk && t.value.compiled == compiled
      ensures t.Some? ==> t.value.Readable() && t.value.journal == disk.journal && disk.Tracked()
    {
      t := None;
      if !disk.foreign && disk.journal.Some? && ValidJournal(disk.journal.value, compiled) &&
        CheckedShape(disk.State()).Some? {
        var resumed := new Transaction(disk, compiled, disk.journal.value.nonce, disk.journal);
        t := Some(resumed);
      }
    }

    method Reload() returns (ok: bool)
      modifies this`journal
      ensures ok <==> Readable()
      ensures ok <==>
        !disk.foreign && disk.journal.Some? && ValidJournal(disk.journal.value, compiled) &&
          disk.journal.value.nonce == nonce
      ensures journal == if ok then disk.journal else old(journal)
    {
      ok := !disk.foreign && disk.journal.Some? && ValidJournal(disk.journal.value, compiled)
        && disk.journal.value.nonce == nonce;
      if ok {
        journal := disk.journal;
      }
    }

    method Transition(phase: Phase, intent: Option<Intent>) returns (o: Outcome)
      requires Readable() && journal == disk.journal && disk.Tracked()
      requires Step(disk.State(), Mark(disk.State(), phase, intent))
      modifies this`journal, disk`journal, disk`pending, disk`history, disk`faults
      ensures Readable() && disk.Tracked() && old(disk.history) <= disk.history
      ensures disk.State() == Mark(old(disk.State()), phase, intent) || disk.State() == old(disk.State())
      ensures o.Done? ==> disk.State() == Mark(old(disk.State()), phase, intent) && disk.faults == old(disk.faults)
      ensures journal == if o.Done? then disk.journal else old(journal)
      ensures !o.Done? ==> disk.faults < old(disk.faults)
    {
      var next := journal.value.(phase := phase, intent := intent);
      o := disk.Save(next, compiled);
      if o.Done? {
        journal := Some(next);
      }
    }

    /** The staged candidate and the installed source are there and nothing else is. */
    predicate Preparable(source: Identity, candidate: Identity, compatibility: string)
      reads this, disk
    {
      && journal.None? && !disk.foreign && disk.journal.None?
      && disk.layout == Layout(Some(source), None, Some(candidate), None)
      && ValidJournal(Journal(1, nonce, Prepared, None, source, candidate, compatibility), compiled)
    }

    /** Fixes the two bundles that were verified and writes the first journal. */
    method Prepare(source: Identity, candidate: Identity, compatibility: string) returns (o: Outcome)
      requires disk.Valid()
      modifies this`journal, disk`journal, disk`pending, disk`history, disk`faults
      ensures disk.Valid()
      ensures disk.journal != old(disk.journal) ==>
        && old(disk.journal).None? && Fresh(disk.State()) && Readable()
        && disk.State() == FreshFor(disk.journal.value)
        && disk.journal.value.source == source && disk.journal.value.candidate == candidate
      ensures o.Done? ==> disk.journal != old(disk.journal) && journal == disk.journal
      ensures disk.journal != old(disk.journal) ==>
        && disk.journal == Some(Journal(1, nonce, Prepared, None, source, candidate, compatibility))
        && source != candidate && compatibility == compiled && old(journal).None? && !disk.foreign
        && disk.layout.target == Some(source) && disk.layout.staged == Some(candidate)
        && disk.layout.previous.None? && disk.layout.failed.None?
      ensures !o.Done? ==> journal == old(journal)
      ensures !o.Done? && disk.journal != old(disk.journal) ==> disk.faults < old(disk.faults)
      ensures (old(journal).None? && !disk.foreign && old(disk.journal).None? && old(disk.faults) == 0 &&
        old(disk.layout) == Layout(Some(source), None, Some(candidate), None) &&
        ValidJournal(Journal(1, nonce, Prepared, None, source, candidate, compatibility), compiled)) ==> o.Done?
      ensures old(Preparable(source, candidate, compatibility)) ==> o.Done? || disk.faults < old(disk.faults)
      ensures !old(Preparable(source, candidate, compatibility)) ==> o.Failed? && disk.journal == old(disk.journal)
    {
      if journal.Some? || disk.foreign || disk.journal.Some? { return Failed; }
      if disk.layout.previous.Some? || disk.layout.failed.Some? { return Failed; }
      if disk.layout.target != Some(source) || disk.layout.staged != Some(candidate) { return Failed; }
      var first := Journal(1, nonce, Prepared, None, source, candidate, compatibility);
      if !ValidJournal(first, compiled) { return Failed; }
      o := disk.Save(first, compiled);
      if o.Done? {
        journal := Some(first);
      }
    }

    /** Nothing was journaled or moved yet. */
    predicate Abortable()
      reads this, disk
    {
      && journal.None? && !disk.foreign && disk.journal.None?
      && disk.layout.previous.None? && disk.layout.failed.None? && disk.reserved * RESERVED == {}
    }

    /** Discards an extracted candidate as long as no journal was written for it. */
    method AbortPreparation() returns (o: Outcome)
      requires disk.Valid()
      modifies disk`layout, disk`pending, disk`faults
      ensures disk.Valid()
      ensures disk.layout == old(disk.layout) ||
        (disk.journal.None? && disk.layout == old(disk.layout).(staged := disk.layout.staged))
      ensures o.Done? ==>
        && disk.journal.None? && disk.reserved * RESERVED == {} && !disk.pending
        && disk.layout == Layout(old(disk.layout.target), None, None, None)
        && old(disk.layout).previous.None? && old(disk.layout).failed.None? && !disk.foreign && journal.None?
        && disk.reserved * {"startup.json", "supervisor.ready", "bootstrap.ok", "boot-failed.json"} == {}
      ensures (journal.None? && !disk.foreign && disk.journal.None? && old(disk.faults) == 0 &&
        old(disk.layout).previous.None? && old(disk.layout).failed.None? &&
        disk.reserved * {"startup.json", "supervisor.ready", "bootstrap.ok", "boot-failed.json"} == {}) ==> o.Done?
      ensures old(Abortable()) ==> o.Done? || disk.faults < old(disk.faults)
      ensures !old(Abortable()) ==> o.Failed? && disk.layout == old(disk.layout)
    {
      if journal.Some? || disk.foreign || disk.journal.Some? { return Failed; }
      if disk.layout.previous.Some? || disk.layout.failed.Some? { return Failed; }
      if disk.reserved * RESERVED != {} { return Failed; }
      if disk.layout.staged.Some? {
        o := disk.RemoveBundle(AtStaged, Uncut);
        if !o.Done? { return; }
      }
      if disk.pending {
        disk.pending := false;
        o := disk.Hazard();
        if !o.Done? { return; }
      }
      o := disk.Hazard();
    }

    /** A restoration that began at start is under way and this handle's copy is current. */
    ghost predicate Engaged(start: Durable)
      reads this, disk
    {
      Readable() && disk.Tracked() && Toward(start, disk.State())
    }

    /** One journal write of a restoration. */
    method RestoringTransition(phase: Phase, intent: Option<Intent>, ghost start: Durable) returns (o: Outcome)
      requires Engaged(start) && journal == disk.journal
      requires Mark(disk.State(), phase, intent) == disk.State() ||
        Some(Mark(disk.State(), phase, intent)) == NextRollback(disk.State())
      modifies this`journal, disk`journal, disk`pending, disk`history, disk`faults
      ensures Engaged(start) && old(disk.history) <= disk.history
      ensures o.Done? ==> disk.State() == Mark(old(disk.State()), phase, intent) && disk.faults == old(disk.faults)
      ensures o.Done? && phase == RolledBack ==> disk.State() == RollbackEnd(start)
      ensures journal == if o.Done? then disk.journal else old(journal)
      ensures !o.Done? ==> disk.faults < old(disk.faults)
    {
      o := Transition(phase, intent);
      RollbackWriteIsToward(start, old(disk.State()), disk.State());
    }

    /** One rename of a restoration. */
    method RestoringRename(intent: Intent, ghost start: Durable) returns (o: Outcome)
      requires Engaged(start) && journal == disk.journal
      requires journal.value.intent == Some(intent) && Some(Carried(disk.State(), intent)) == NextRollback(disk.State())
      requires At(disk.layout, From(intent)).Some? && At(disk.layout, To(intent)).None?
      modifies disk`layout, disk`history, disk`faults
      ensures Engaged(start) && old(disk.history) <= disk.history
      ensures o.Done? ==> disk.State() == Carried(old(disk.State()), intent) && disk.faults == old(disk.faults)
      ensures !o.Done? ==> disk.faults < old(disk.faults)
    {
      o := disk.Rename(intent);
      RollbackWriteIsToward(start, old(disk.State()), disk.State());
    }

    /** Takes the placed candidate out of the way. */
    method HoldCandidate(ghost start: Durable) returns (o: Outcome)
      requires Engaged(start) && journal == disk.journal && CheckedShape(disk.State()) == Some(ShapeNewPlaced)
      modifies this`journal, disk`layout, disk`journal, disk`pending, disk`history, disk`faults
      ensures Engaged(start) && old(disk.history) <= disk.history
      ensures o.Done? ==>
        CheckedShape(disk.State()) == Some(CandidateHeld) && journal == disk.journal && disk.faults == old(disk.faults)
      ensures !o.Done? ==> disk.faults < old(disk.faults)
      ensures journal == old(journal) || (journal.Some? && journal.value.phase == NewPlaced)
    {
      o := RestoringTransition(NewPlaced, Some(MoveFailed), start);
      if !o.Done? { return; }
      o := RestoringRename(MoveFailed, start);
    }

    /** Moves the old bundle back to its place and closes the journal. */
    method PutOldBack(shape: Shape, ghost start: Durable) returns (o: Outcome)
      requires Engaged(start) && journal == disk.journal && CheckedShape(disk.State()) == Some(shape)
      requires shape == ShapeOldMoved || shape == CandidateHeld
      modifies this`journal, disk`layout, disk`journal, disk`pending, disk`history, disk`faults
      ensures Engaged(start) && old(disk.history) <= disk.history
      ensures o.Done? ==>
        disk.State() == RollbackEnd(start) && journal == disk.journal && disk.faults == old(disk.faults)
      ensures !o.Done? ==> disk.faults < old(disk.faults)
      ensures journal == old(journal) || journal == disk.journal || (journal.Some? && journal.value.phase != RolledBack)
    {
      var phase := if shape == ShapeOldMoved then OldMoved else NewPlaced;
      o := RestoringTransition(phase, Some(RestoreOld), start);
      if !o.Done? { return; }
      if disk.layout.target.Some? { assert false; }
      o := RestoringRename(RestoreOld, start);
      if !o.Done? { return; }
      o := RestoringTransition(RolledBack, None, start);
    }

    /** Puts the old bundle back from wherever an earlier attempt stopped. */
    method Rollback() returns (o: Outcome)
      requires disk.Valid()
      modifies this`journal, disk`layout, disk`journal, disk`pending, disk`history, disk`faults
      ensures disk.Valid() && old(disk.history) <= disk.history && (old(disk.Tracked()) ==> disk.Tracked())
      ensures !old(Restorable()) ==> o.Failed? && disk.journal == old(disk.journal) && disk.layout == old(disk.layout)
      ensures old(Restorable()) ==> Restorable() && Toward(old(disk.State()), disk.State())
      ensures old(Restorable()) && !o.Done? ==> disk.faults < old(disk.faults)
      ensures (!disk.foreign && old(disk.journal).Some? && ValidJournal(old(disk.journal).value, compiled) &&
        old(disk.journal).value.nonce == nonce && old(disk.journal).value.phase != Accepted &&
        old(Accepts(disk.State())) && old(disk.faults) == 0) ==> o.Done?
      ensures o.Done? ==> disk.State() == RollbackEnd(old(disk.State())) && Restored(disk.State())
      ensures o.Done? ==> journal == disk.journal && disk.faults == old(disk.faults)
      ensures o.Done? ==>
        && disk.journal == Some(old(disk.journal).value.(phase := RolledBack, intent := None))
        && disk.layout.target == Some(disk.journal.value.source) && disk.layout.previous.None?
        && (disk.layout.staged == Some(disk.journal.value.candidate) <==> disk.layout.failed.None?)
        && (disk.layout.failed == Some(disk.journal.value.candidate) <==> disk.layout.staged.None?)
      ensures disk.faults <= old(disk.faults)
      ensures journal.Some? && journal.value.phase == RolledBack ==> journal == old(journal) || journal == disk.journal
    {
      var readable := Reload();
      if !readable { return Failed; }
      if journal.value.phase == Accepted { return Failed; }
      var checked := CheckedShape(disk.State());
      if checked.None? { return Failed; }
      var shape := checked.value;
      ghost var start := disk.State();
      if shape == ShapePrepared || shape == RestoredWithStage || shape == RestoredWithFailed {
        o := RestoringTransition(RolledBack, None, start);
        if o.Done? { RestoredBundles(disk.State()); }
        return;
      }
      if shape == ShapeNewPlaced {
        o := HoldCandidate(start);
        if !o.Done? { return; }
        shape := CandidateHeld;
      }
      o := PutOldBack(shape, start);
      if o.Done? { RestoredBundles(disk.State()); }
    }

    /** A replacement of this very update is under way and can still be undone. */
    ghost predicate Replacing(j: Journal)
      reads this, disk
    {
      Restorable() && disk.Tracked() && SameUpdate(j, disk.journal.value)
    }

    method ForwardTransition(phase: Phase, intent: Option<Intent>, ghost j: Journal) returns (o: Outcome)
      requires Replacing(j) && journal == disk.journal
      requires phase != Accepted && phase != RolledBack &&
        Some(Mark(disk.State(), phase, intent)) == NextReplace(disk.State())
      modifies this`journal, disk`journal, disk`pending, disk`history, disk`faults
      ensures Replacing(j) && old(disk.history) <= disk.history
      ensures o.Done? ==> disk.State() == Mark(old(disk.State()), phase, intent) && disk.faults == old(disk.faults)
      ensures journal == if o.Done? then disk.journal else old(journal)
      ensures !o.Done? ==> disk.faults < old(disk.faults)
    {
      StepKeepsAcceptance(disk.State(), Mark(disk.State(), phase, intent));
      o := Transition(phase, intent);
    }

    method ForwardRename(intent: Intent, ghost j: Journal) returns (o: Outcome)
      requires Replacing(j) && journal == disk.journal
      requires journal.value.intent == Some(intent) && Some(Carried(disk.State(), intent)) == NextReplace(disk.State())
      requires At(disk.layout, From(intent)).Some? && At(disk.layout, To(intent)).None?
      modifies disk`layout, disk`history, disk`faults
      ensures Replacing(j) && old(disk.history) <= disk.history
      ensures o.Done? ==> disk.State() == Carried(old(disk.State()), intent) && disk.faults == old(disk.faults)
      ensures !o.Done? ==> disk.faults < old(disk.faults)
    {
      StepKeepsAcceptance(disk.State(), Carried(disk.State(), intent));
      o := disk.Rename(intent);
    }

    /** The forward writes of a replacement, stopping at the first error. */
    method Place() returns (o: Outcome)
      requires disk.journal.Some? && Replacing(disk.journal.value) && journal == disk.journal
      requires disk.State() == FreshFor(disk.journal.value)
      modifies this`journal, disk`layout, disk`journal, disk`pending, disk`history, disk`faults
      ensures Replacing(old(disk.journal.value)) && old(disk.history) <= disk.history
      ensures o.Done? ==>
        disk.State() == Placed(old(disk.journal.value)) && journal == disk.journal && disk.faults == old(disk.faults)
      ensures !o.Done? ==> disk.faults < old(disk.faults)
      ensures journal.Some? && journal.value.phase != RolledBack
    {
      ghost var j := journal.value;
      o := ForwardTransition(Prepared, Some(MoveOld), j);
      if !o.Done? { return; }
      o := ForwardRename(MoveOld, j);
      if !o.Done? { return; }
      o := ForwardTransition(OldMoved, None, j);
      if !o.Done? { return; }
      o := ForwardTransition(OldMoved, Some(PlaceNew), j);
      if !o.Done? { return; }
      o := ForwardRename(PlaceNew, j);
      if !o.Done? { return; }
      o := ForwardTransition(NewPlaced, None, j);
    }

    /** Exchanges the bundles; on an error it restores at once, on a crash a later start does. */
    method Replace() returns (o: Outcome)
      requires disk.Valid()
      modifies this`journal, disk`layout, disk`journal, disk`pending, disk`history, disk`faults
      ensures disk.Valid() && old(disk.history) <= disk.history && (old(disk.Tracked()) ==> disk.Tracked())
      ensures old(Startable()) ==> Restorable() && SameUpdate(old(disk.journal.value), disk.journal.value)
      ensures !old(Startable()) ==> o.Failed? && disk.journal == old(disk.journal) && disk.layout == old(disk.layout)
      ensures o.Done? ==> disk.State() == Placed(old(disk.journal.value)) && journal == disk.journal
      ensures o.Done? ==>
        && disk.journal == Some(old(disk.journal).value.(phase := NewPlaced, intent := None))
        && disk.layout.target == Some(disk.journal.value.candidate)
        && disk.layout.previous == Some(disk.journal.value.source)
        && disk.layout.staged.None? && disk.layout.failed.None?
      ensures old(Startable()) && !o.Done? ==> disk.faults < old(disk.faults)
      ensures (!disk.foreign && old(disk.journal).Some? && ValidJournal(old(disk.journal).value, compiled) &&
        old(disk.journal).value.nonce == nonce && old(disk.journal).value.phase == Prepared &&
        old(disk.journal).value.intent.None? && old(disk.faults) == 0 &&
        old(disk.layout)
          == Layout(Some(old(disk.journal).value.source), None, Some(old(disk.journal).value.candidate), None))
        ==> o.Done?
      ensures old(Startable()) && o.Failed? && old(disk.faults) == 1 ==> Restored(disk.State())
      ensures old(Startable()) && journal.Some? && journal.value.phase == RolledBack ==> Restored(disk.State())
      ensures !old(Startable()) ==> journal == old(journal) || journal == disk.journal
      ensures disk.faults <= old(disk.faults) && (o.Done? ==> disk.faults == old(disk.faults))
    {
      var readable := Reload();
      if !readable { return Failed; }
      if CheckedShape(disk.State()) != Some(ShapePrepared) { return Failed; }
      if journal.value.phase != Prepared || journal.value.intent.Some? { return Failed; }
      o := Place();
      if o.Failed? {
        var restored := Rollback();
        if restored.Crashed? { o := Crashed; }
      }
    }

    /** Freshly prepared and not begun. */
    predicate Startable()
      reads this, disk
    {
      Readable() && disk.State() == FreshFor(disk.journal.value)
    }

    /** The candidate is placed and the receipt is the one it was to write. */
    predicate Acceptable(receipt: Receipt)
      reads this, disk
    {
      && Readable()
      && disk.State() == Placed(disk.journal.value)
      && receipt == Receipt(disk.journal.value.nonce, disk.journal.value.candidate)
    }

    /** Ends the update for good once the placed candidate has reported from its first screen. */
    method Accept(receipt: Receipt) returns (o: Outcome)
      requires disk.Valid()
      modifies this`journal, disk`journal, disk`pending, disk`history, disk`faults
      ensures disk.Valid() && old(disk.history) <= disk.history && (old(disk.Tracked()) ==> disk.Tracked())
      ensures old(disk.journal).Some? == disk.journal.Some?
      ensures disk.journal != old(disk.journal) ==>
        && disk.State() == Mark(old(disk.State()), Accepted, None)
        && old(disk.State()) == Placed(old(disk.journal.value))
        && receipt == Receipt(disk.journal.value.nonce, disk.journal.value.candidate)
      ensures disk.journal != old(disk.journal) ==>
        && disk.journal == Some(old(disk.journal).value.(phase := Accepted))
        && old(disk.journal).value.phase == NewPlaced && old(disk.journal).value.intent.None?
        && disk.layout.target == Some(receipt.identity) && disk.layout.previous == Some(disk.journal.value.source)
        && receipt.identity == disk.journal.value.candidate && receipt.nonce == disk.journal.value.nonce
      ensures o.Done? ==>
        disk.journal.Some? && disk.journal.value.phase == Accepted && disk.journal != old(disk.journal)
      ensures !o.Done? && disk.journal != old(disk.journal) ==> disk.faults < old(disk.faults)
      ensures disk.faults <= old(disk.faults)
      ensures old(Acceptable(receipt)) && old(disk.Tracked()) && old(disk.faults) == 0 ==> o.Done?
      ensures (!disk.foreign && old(disk.journal).Some? && ValidJournal(old(disk.journal).value, compiled) &&
        old(disk.journal).value.nonce == nonce && old(disk.journal).value.phase == NewPlaced &&
        old(disk.journal).value.intent.None? && old(disk.Tracked()) && old(disk.faults) == 0 &&
        old(disk.layout)
          == Layout(Some(old(disk.journal).value.candidate), Some(old(disk.journal).value.source), None, None) &&
        receipt.nonce == nonce && receipt.identity == old(disk.journal).value.candidate) ==> o.Done?
    {
      var readable := Reload();
      if !readable { return Failed; }
      if journal.value.phase != NewPlaced || journal.value.intent.Some? { return Failed; }
      if receipt.nonce != journal.value.nonce || receipt.identity != journal.value.candidate { return Failed; }
      if CheckedShape(disk.State()) != Some(ShapeNewPlaced) { return Failed; }
      o := Transition(Accepted, None);
    }

    /** Removes every bundle but the installed one. */
    method DropRetained(cut: Cut) returns (o: Outcome)
      requires Cuttable(disk.layout, cut) && (cut.CutAt? ==> disk.faults > 0)
      modifies disk`layout, disk`faults
      ensures Eroded(old(disk.layout), disk.layout)
      ensures o.Done? ==>
        disk.layout == Layout(old(disk.layout.target), None, None, None) && disk.faults == old(disk.faults)
      ensures !o.Done? ==> disk.faults < old(disk.faults)
      ensures cut.CutAt? ==> !o.Done?
      ensures cut.CutAt? && old(disk.faults) == 1 ==> o.Crashed? && disk.layout == CutOff(old(disk.layout), cut)
    {
      if cut.CutAt? {
        disk.faults := disk.faults - 1;
      }
      o := Done;
      if disk.layout.previous.Some? {
        o := disk.RemoveBundle(AtPrevious, cut);
        if !o.Done? { return; }
      }
      if disk.layout.failed.Some? {
        o := disk.RemoveBundle(AtFailed, cut);
        if !o.Done? { return; }
      }
      if disk.layout.staged.Some? {
        o := disk.RemoveBundle(AtStaged, cut);
      }
    }

    /** The update is over, and the disk is as the journal says. */
    predicate Clearable()
      reads this, disk
    {
      && Readable() && disk.journal.Some?
      && Finished(disk.journal.value.phase) && Accepts(disk.State())
    }

    /** Throws away what a finished update retained; the journal goes last. */
    method ClearFinished(cut: Cut) returns (o: Outcome)
      requires disk.Valid() && Cuttable(disk.layout, cut) && (cut.CutAt? ==> disk.faults > 0)
      modifies this`journal, disk`layout, disk`journal, disk`pending, disk`reserved, disk`faults
      ensures disk.Valid()
      ensures disk.layout.target == old(disk.layout.target)
      ensures disk.journal == old(disk.journal) || disk.journal.None?
      ensures disk.journal.None? && old(disk.journal).Some? ==>
        && disk.layout == Layout(old(disk.layout.target), None, None, None)
        && disk.reserved * RESERVED == {} && !disk.pending
        && Finished(old(disk.journal.value.phase))
        && disk.reserved
           == old(disk.reserved) - {"startup.json", "supervisor.ready", "bootstrap.ok", "boot-failed.json"}
      ensures disk.layout != old(disk.layout) || disk.journal != old(disk.journal) ==>
        old(disk.journal).Some? && Finished(old(disk.journal.value.phase)) && old(Accepts(disk.State()))
      ensures disk.journal == old(disk.journal) && disk.journal.Some? && Accepts(disk.State()) &&
        disk.journal.value.source != disk.journal.value.candidate
        ==> disk.layout == old(disk.layout)
      ensures o.Done? ==>
        && old(disk.journal).Some? && (old(disk.journal).value.phase == Accepted ||
              old(disk.journal).value.phase == RolledBack)
        && old(disk.journal).value.nonce == nonce && !disk.foreign
      ensures old(disk.journal).Some? && !Finished(old(disk.journal.value.phase)) ==> o.Failed?
      ensures o.Done? ==> disk.journal.None? && journal.None?
      ensures old(Clearable()) ==> o.Done? || disk.faults < old(disk.faults)
      ensures (!disk.foreign && old(disk.journal).Some? && ValidJournal(old(disk.journal).value, compiled) &&
        old(disk.journal).value.nonce == nonce && old(disk.journal).value.phase in {Accepted, RolledBack} &&
        old(Accepts(disk.State())) && old(disk.faults) == 0) ==> o.Done?
      ensures old(Clearable()) && cut.CutAt? && old(disk.faults) == 1 ==>
        o.Crashed? && disk.journal == old(disk.journal) && disk.layout == CutOff(old(disk.layout), cut) &&
          disk.foreign == old(disk.foreign)
      ensures !old(Clearable()) ==> o.Failed? && disk.journal == old(disk.journal) && disk.layout == old(disk.layout)
    {
      hide ShapeOf, Allowed, CheckedShape;
      var readable := Reload();
      if !readable { return Failed; }
      if journal.value.phase != Accepted && journal.value.phase != RolledBack { return Failed; }
      if CheckedShape(disk.State()).None? { return Failed; }
      ghost var d := disk.State();
      o := DropRetained(cut);
      InterruptedClearingIsRetriableIffNothingWasLost(d, disk.layout);
      if !o.Done? { return; }
      o := disk.Hazard();
      if !o.Done? { return; }
      disk.reserved := disk.reserved - RESERVED;
      disk.pending := false;
      o := disk.Hazard();
      if !o.Done? { return; }
      disk.journal := None;
      o := disk.Hazard();
      if !o.Done? { return; }
      journal := None;
    }
  }

  /** There is no update yet, or a finished one whose disk is as its journal says. */
  predicate Creatable(disk: Disk, compiled: string, nonce: string)
    reads disk
  {
    && IsDigest(nonce) && !disk.foreign
    && if disk.journal.Some? then
         && ValidJournal(disk.journal.value, compiled) && Accepts(disk.State())
         && Finished(disk.journal.value.phase)
       else
         && disk.layout.previous.None? && disk.layout.failed.None? && disk.layout.staged.None?
         && !disk.pending && disk.reserved == {}
  }

  /** Starts a new update in a directory that is unused or holds only a finished one. */
  method Create(disk: Disk, compiled: string, nonce: string, cut: Cut) returns (o: Outcome, t: Option<Transaction>)
    requires disk.Valid() && Cuttable(disk.layout, cut) && (cut.CutAt? ==> disk.faults > 0)
    modifies disk
    ensures disk.Valid() && disk.layout.target == old(disk.layout.target)
    ensures o.Done? <==> t.Some?
    ensures t.Some? ==>
      && fresh(t.value) && t.value.disk == disk && t.value.nonce == nonce && t.value.journal.None?
      && disk.journal.None? && disk.layout == Layout(disk.layout.target, None, None, None)
      && disk.reserved * RESERVED == {} && !disk.pending
      && disk.reserved * {"startup.json", "supervisor.ready", "bootstrap.ok", "boot-failed.json"} == {}
    ensures o.Done? ==>
      && IsDigest(nonce) && !disk.foreign
      && if old(disk.journal).Some? then
           (old(disk.journal).value.phase == Accepted || old(disk.journal).value.phase == RolledBack) &&
             ValidJournal(old(disk.journal).value, compiled) && old(Accepts(disk.State()))
         else
           old(disk.layout) == Layout(old(disk.layout).target, None, None, None) && !old(disk.pending) &&
             old(disk.reserved) == {}
    ensures old(disk.journal).Some? && !Finished(old(disk.journal.value.phase)) ==>
      o.Failed? && disk.journal == old(disk.journal) && disk.layout == old(disk.layout)
    ensures old(Creatable(disk, compiled, nonce)) ==> o.Done? || disk.faults < old(disk.faults)
    ensures (IsDigest(nonce) && !old(disk.foreign) && old(disk.faults) == 0 && old(disk.journal).Some? &&
      ValidJournal(old(disk.journal).value, compiled) && old(Accepts(disk.State())) &&
      old(disk.journal).value.phase in {Accepted, RolledBack}) ==> o.Done?
    ensures (IsDigest(nonce) && !old(disk.foreign) && old(disk.journal).None? && !old(disk.pending) &&
      old(disk.layout) == Layout(old(disk.layout).target, None, None, None) && old(disk.reserved) == {}) ==> o.Done?
    ensures old(disk.journal).Some? && old(Creatable(disk, compiled, nonce)) && cut.CutAt? && old(disk.faults) == 1 ==>
      && o.Crashed? && disk.journal == old(disk.journal) && disk.layout == CutOff(old(disk.layout), cut)
      && (cut.remains != At(old(disk.layout), cut.place) ==> forall later :: !Creatable(disk, compiled, later))
    ensures !old(Creatable(disk, compiled, nonce)) ==>
      o.Failed? && disk.journal == old(disk.journal) && disk.layout == old(disk.layout)
  {
    t := None;
    if !IsDigest(nonce) || disk.foreign { return Failed, None; }
    if disk.journal.Some? {
      if !ValidJournal(disk.journal.value, compiled) { return Failed, None; }
      var previous := new Transaction(disk, compiled, disk.journal.value.nonce, disk.journal);
      ghost var d := disk.State();
      o := previous.ClearFinished(cut);
      if cut.CutAt? && d.journal.source != d.journal.candidate && Accepts(d) && Finished(d.journal.phase) &&
        cut.remains != At(d.layout, cut.place) {
        CutClearingIsStuck(d, cut);
      }
      if !o.Done? { return o, None; }
    } else if disk.layout.previous.Some? || disk.layout.failed.Some? || disk.layout.staged.Some? || disk.pending ||
      disk.reserved != {} {
      return Failed, None;
    }
    var created := new Transaction(disk, compiled, nonce, None);
    o, t := Done, Some(created);
  }

  /** Every start tries again; as long as the surroundings misbehave only finitely often, it ends restored. */
  method RecoverAcrossRestarts(disk: Disk, compiled: string)
    requires disk.Valid() && !disk.foreign && disk.journal.Some?
    requires ValidJournal(disk.journal.value, compiled) && Open(disk.State())
    modifies disk
    ensures disk.journal.Some? && disk.State() == RollbackEnd(old(disk.State()))
    ensures Restored(disk.State()) && disk.layout.target == Some(old(disk.journal.value.source))
  {
    var o := Failed;
    while !o.Done?
      invariant disk.Valid() && !disk.foreign && disk.journal.Some?
      invariant ValidJournal(disk.journal.value, compiled) && Toward(old(disk.State()), disk.State())
      invariant o.Done? ==> disk.State() == RollbackEnd(old(disk.State()))
      decreases if o.Done? then 0 else 1, disk.faults
    {
      var t := Transaction.Resume(disk, compiled);
      o := t.value.Rollback();
    }
  }

  datatype Operation = DoReplace | DoRollback | DoAccept(receipt: Receipt) | DoRestart

  method Perform(handle: Transaction, op: Operation) returns (o: Outcome)
    requires handle.disk.Tracked() && !handle.disk.foreign
    modifies handle, handle.disk
    ensures handle.disk.Tracked() && old(handle.disk.history) <= handle.disk.history && !handle.disk.foreign
  {
    match op {
      case DoReplace => o := handle.Replace();
      case DoRollback => o := handle.Rollback();
      case DoAccept(receipt) => o := handle.Accept(receipt);
      case DoRestart => o := Crashed;
    }
  }

  /**
   * Any sequence of operations on a prepared update by any number of processes: a handle lives on,
   * with a stale copy of the journal, after an error, and is replaced after a crash or a restart.
   */
  method AnyRun(disk: Disk, compiled: string, script: seq<Operation>)
    requires disk.Tracked() && !disk.foreign && ValidJournal(disk.journal.value, compiled)
    modifies disk
    ensures disk.Tracked() && old(disk.history) <= disk.history
    ensures Accepts(disk.State()) && Custody(disk.journal.value, disk.layout)
    ensures SameUpdate(old(disk.journal.value), disk.journal.value)
    ensures old(disk.journal.value.phase) == Accepted ==> disk.State() == old(disk.State())
  {
    HistoryTells(disk.history, disk.history);
    var t := Transaction.Resume(disk, compiled);
    var handle := t.value;
    for i := 0 to |script|
      invariant disk.Tracked() && old(disk.history) <= disk.history
      invariant !disk.foreign && fresh(handle) && handle.disk == disk
    {
      var o := Perform(handle, script[i]);
      if o.Crashed? {
        HistoryTells(old(disk.history), disk.history);
        t := Transaction.Resume(disk, compiled);
        handle := t.value;
      }
    }
    HistoryTells(old(disk.history), disk.history);
  }

  /** What a longer record of an update says about its end, given an earlier one. */
  lemma HistoryTells(g: seq<Durable>, h: seq<Durable>)
    requires Chain(h) && g != [] && g <= h
    ensures Accepts(h[|h| - 1]) && Custody(h[|h| - 1].journal, h[|h| - 1].layout)
    ensures SameUpdate(g[|g| - 1].journal, h[|h| - 1].journal)
    ensures g[|g| - 1].journal.phase == Accepted ==> h[|h| - 1] == g[|g| - 1]
  {
    EveryCrashIsRecognised(h, |g| - 1);
    EveryCrashIsRecognised(h, |h| - 1);
    if h[|g| - 1].journal.phase == Accepted {
      AcceptedIsFinal(h, |g| - 1, |h| - 1);
    }
  }
}
