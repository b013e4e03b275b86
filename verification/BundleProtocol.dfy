/**
 * The durable side of replacing an application bundle: what the journal says, where the two
 * known bundles are, and which single durable write each operation performs next.
 *
 * A crash keeps exactly the writes made so far, so "what a crash can leave" is the set of
 * states on a chain of writes that starts right after preparation.
 */
module BundleProtocol {
  import opened Wrappers

  datatype Identity = Identity(executable: string, plan: string, inventory: string)

  datatype Phase = Prepared | OldMoved | NewPlaced | Accepted | RolledBack

  datatype Intent = MoveOld | PlaceNew | MoveFailed | RestoreOld

  datatype Journal = Journal(
    formatVersion: nat,
    nonce: string,
    phase: Phase,
    intent: Option<Intent>,
    source: Identity,
    candidate: Identity,
    compatibility: string)

  /** What each of the four places holds. An unreadable bundle is an identity nobody knows. */
  datatype Layout = Layout(
    target: Option<Identity>,
    previous: Option<Identity>,
    staged: Option<Identity>,
    failed: Option<Identity>)

  datatype Shape =
    | ShapePrepared
    | ShapeOldMoved
    | ShapeNewPlaced
    | CandidateHeld
    | RestoredWithStage
    | RestoredWithFailed

  /** The evidence a started candidate leaves. */
  datatype Receipt = Receipt(nonce: string, identity: Identity)

  datatype Durable = Durable(journal: Journal, layout: Layout)

  // ---- validation ----

  predicate IsDigest(value: string)
  {
    |value| == 64 && forall i :: 0 <= i < 64 ==> '0' <= value[i] <= '9' || 'a' <= value[i] <= 'f'
  }

  predicate ValidIdentity(id: Identity)
  {
    IsDigest(id.executable) && IsDigest(id.plan) && IsDigest(id.inventory)
  }

  predicate ValidJournal(j: Journal, compiled: string)
  {
    && j.formatVersion == 1
    && IsDigest(j.nonce)
    && ValidIdentity(j.source)
    && ValidIdentity(j.candidate)
    && j.source != j.candidate
    && j.compatibility == compiled
  }

  /** The digests that a journal holds. */
  function DigestsOf(j: Journal): seq<string>
  {
    [j.nonce, j.source.executable, j.source.plan, j.source.inventory, j.candidate.executable, j.candidate.plan,
     j.candidate.inventory]
  }

  /** SHA-256 sums are written with 64 lower-case hexadecimal digits. */
  ghost predicate HexSum(value: string)
  {
    |value| == 64 && forall c :: c in value ==>
      c in {'0', '1', '2', '3', '4', '5', '6', '7', '8', '9', 'a', 'b', 'c', 'd', 'e', 'f'}
  }

  lemma DigestIsHexSum(value: string)
    ensures IsDigest(value) <==> HexSum(value)
  {
    assert HexSum(value) ==> forall i :: 0 <= i < 64 ==> value[i] in value;
  }

  /** Format, persistence metadata and digests decide about a journal, and it must lead to another bundle. */
  lemma ValidJournalSpelledOut(j: Journal, compiled: string)
    ensures ValidJournal(j, compiled) <==>
      && j.formatVersion == 1 && j.compatibility == compiled && j.source != j.candidate
      && forall d :: d in DigestsOf(j) ==> HexSum(d)
  {
    hide IsDigest, HexSum;
    var ds := DigestsOf(j);
    assert ds[0] == j.nonce && ds[1] == j.source.executable && ds[2] == j.source.plan && ds[3] == j.source.inventory;
    assert ds[4] == j.candidate.executable && ds[5] == j.candidate.plan && ds[6] == j.candidate.inventory;
    forall d ensures IsDigest(d) <==> HexSum(d) {
      DigestIsHexSum(d);
    }
  }

  // ---- recognising a layout ----

  predicate AbsentOr(place: Option<Identity>, expected: Identity)
  {
    place.None? || place.value == expected
  }

  /** The first half of the shape check: which of the known arrangements is on disk. */
  function ShapeOf(j: Journal, l: Layout): Option<Shape>
  {
    var sourceAtTarget := l.target == Some(j.source);
    var candidateAtTarget := !sourceAtTarget && l.target == Some(j.candidate);
    var targetAbsent := l.target.None?;
    if !(sourceAtTarget || candidateAtTarget || targetAbsent) then None
    else if !AbsentOr(l.previous, j.source) || !AbsentOr(l.staged, j.candidate) ||
      !AbsentOr(l.failed, j.candidate) then None
    else
      match (sourceAtTarget, candidateAtTarget, targetAbsent, l.previous.Some?, l.staged.Some?, l.failed.Some?)
      case (true, false, false, false, true, false) => Some(ShapePrepared)
      case (false, false, true, true, true, false) => Some(ShapeOldMoved)
      case (false, true, false, true, false, false) => Some(ShapeNewPlaced)
      case (false, false, true, true, false, true) => Some(CandidateHeld)
      case (true, false, false, false, false, true) => Some(RestoredWithFailed)
      case _ => None
  }

  predicate Allowed(phase: Phase, intent: Option<Intent>, shape: Shape)
  {
    match (phase, intent)
    case (Prepared, None) => shape == ShapePrepared
    case (Prepared, Some(MoveOld)) => shape == ShapePrepared || shape == ShapeOldMoved
    case (OldMoved, None) => shape == ShapeOldMoved
    case (OldMoved, Some(PlaceNew)) => shape == ShapeOldMoved || shape == ShapeNewPlaced
    case (NewPlaced, None) => shape == ShapeNewPlaced
    case (Accepted, None) => shape == ShapeNewPlaced
    case (NewPlaced, Some(MoveFailed)) => shape == ShapeNewPlaced || shape == CandidateHeld
    case (OldMoved, Some(RestoreOld)) => shape == ShapeOldMoved || shape == ShapePrepared
    case (NewPlaced, Some(RestoreOld)) => shape == CandidateHeld || shape == RestoredWithFailed
    case (RolledBack, None) => shape == ShapePrepared || shape == RestoredWithFailed
    case _ => false
  }

  function CheckedShape(d: Durable): Option<Shape>
  {
    var shape := ShapeOf(d.journal, d.layout);
    if shape.None? || !Allowed(d.journal.phase, d.journal.intent, shape.value) then None
    else if shape.value == ShapePrepared && d.journal.phase == RolledBack then Some(RestoredWithStage)
    else shape
  }

  /** Which phase, intent and layout make up each of the recognised arrangements; first is the old bundle. */
  lemma ShapesSpelledOut(d: Durable, first: Option<Identity>, second: Option<Identity>, state: (Phase, Option<Intent>))
    requires d.journal.source != d.journal.candidate && state == (d.journal.phase, d.journal.intent)
    requires first == Some(d.journal.source) && second == Some(d.journal.candidate)
    ensures CheckedShape(d) == Some(ShapePrepared) <==>
      && d.layout == Layout(first, None, second, None)
      && state in {(Prepared, None), (Prepared, Some(MoveOld)), (OldMoved, Some(RestoreOld))}
    ensures CheckedShape(d) == Some(ShapeOldMoved) <==>
      && d.layout == Layout(None, first, second, None)
      && state in {(Prepared, Some(MoveOld)), (OldMoved, None), (OldMoved, Some(PlaceNew)),
                   (OldMoved, Some(RestoreOld))}
    ensures CheckedShape(d) == Some(ShapeNewPlaced) <==>
      && d.layout == Layout(second, first, None, None)
      && state in {(OldMoved, Some(PlaceNew)), (NewPlaced, None), (Accepted, None), (NewPlaced, Some(MoveFailed))}
    ensures CheckedShape(d) == Some(CandidateHeld) <==>
      && d.layout == Layout(None, first, None, second)
      && state in {(NewPlaced, Some(MoveFailed)), (NewPlaced, Some(RestoreOld))}
    ensures CheckedShape(d) == Some(RestoredWithFailed) <==>
      && d.layout == Layout(first, None, None, second)
      && state in {(NewPlaced, Some(RestoreOld)), (RolledBack, None)}
    ensures CheckedShape(d) == Some(RestoredWithStage) <==>
      && d.layout == Layout(first, None, second, None)
      && state == (RolledBack, None)
  {
  }

  predicate Accepts(d: Durable)
  {
    CheckedShape(d).Some?
  }

  /** Nothing lost, nothing doubled: one copy of the old bundle, one of the new, nothing else. */
  predicate Custody(j: Journal, l: Layout)
  {
    && l.target in {None, Some(j.source), Some(j.candidate)}
    && l.previous in {None, Some(j.source)}
    && l.staged in {None, Some(j.candidate)}
    && l.failed in {None, Some(j.candidate)}
    && (l.target == Some(j.source) <==> l.previous == None)
    && (if l.target == Some(j.candidate) then l.staged.None? && l.failed.None?
        else l.staged.Some? <==> l.failed.None?)
  }

  /** The recognised arrangements are exactly the ones in which both bundles are accounted for. */
  lemma RecognisedIffInCustody(j: Journal, l: Layout)
    requires j.source != j.candidate
    ensures ShapeOf(j, l).Some? <==> Custody(j, l)
  {
    if ShapeOf(j, l).Some? {
      assert Custody(j, l);
    }
  }

  /** The update has come to its end. */
  predicate Finished(phase: Phase)
  {
    phase == Accepted || phase == RolledBack
  }

  // ---- one durable write at a time ----

  function Mark(d: Durable, phase: Phase, intent: Option<Intent>): Durable
  {
    d.(journal := d.journal.(phase := phase, intent := intent))
  }

  datatype Place = AtTarget | AtPrevious | AtStaged | AtFailed

  function At(l: Layout, p: Place): Option<Identity>
  {
    match p
    case AtTarget => l.target
    case AtPrevious => l.previous
    case AtStaged => l.staged
    case AtFailed => l.failed
  }

  function Put(l: Layout, p: Place, content: Option<Identity>): Layout
  {
    match p
    case AtTarget => l.(target := content)
    case AtPrevious => l.(previous := content)
    case AtStaged => l.(staged := content)
    case AtFailed => l.(failed := content)
  }

  function Moved(l: Layout, from: Place, to: Place): Layout
  {
    Put(Put(l, from, None), to, At(l, from))
  }

  function From(i: Intent): Place
  {
    match i
    case MoveOld => AtTarget
    case PlaceNew => AtStaged
    case MoveFailed => AtTarget
    case RestoreOld => AtPrevious
  }

  function To(i: Intent): Place
  {
    match i
    case MoveOld => AtPrevious
    case PlaceNew => AtTarget
    case MoveFailed => AtFailed
    case RestoreOld => AtTarget
  }

  /** The rename an intent announces. */
  function Carried(d: Durable, i: Intent): Durable
  {
    d.(layout := Moved(d.layout, From(i), To(i)))
  }

  /** The write that carries a replacement forward, if any is left. */
  function NextReplace(d: Durable): Option<Durable>
  {
    var shape := ShapeOf(d.journal, d.layout);
    match (d.journal.phase, d.journal.intent)
    case (Prepared, None) => Some(Mark(d, Prepared, Some(MoveOld)))
    case (Prepared, Some(MoveOld)) =>
      if shape == Some(ShapePrepared) then Some(Carried(d, MoveOld))
      else Some(Mark(d, OldMoved, None))
    case (OldMoved, None) => Some(Mark(d, OldMoved, Some(PlaceNew)))
    case (OldMoved, Some(PlaceNew)) =>
      if shape == Some(ShapeOldMoved) then Some(Carried(d, PlaceNew))
      else Some(Mark(d, NewPlaced, None))
    case _ => None
  }

  /** The write that carries a restoration forward, if any is left. */
  function NextRollback(d: Durable): Option<Durable>
  {
    var j := d.journal;
    if Finished(j.phase) then None
    else
      match ShapeOf(j, d.layout)
      case Some(ShapeNewPlaced) =>
        if j.intent != Some(MoveFailed) then Some(Mark(d, NewPlaced, Some(MoveFailed)))
        else Some(Carried(d, MoveFailed))
      case Some(CandidateHeld) =>
        if j.intent != Some(RestoreOld) then Some(Mark(d, NewPlaced, Some(RestoreOld)))
        else Some(Carried(d, RestoreOld))
      case Some(ShapeOldMoved) =>
        if j.intent != Some(RestoreOld) then Some(Mark(d, OldMoved, Some(RestoreOld)))
        else Some(Carried(d, RestoreOld))
      case _ => Some(Mark(d, RolledBack, None))
  }

  predicate Acceptance(d: Durable, e: Durable)
  {
    d.journal.phase == NewPlaced && d.journal.intent.None? && e == Mark(d, Accepted, None)
  }

  /** Every durable write of every operation; saving the journal again unchanged is allowed. */
  predicate Step(d: Durable, e: Durable)
  {
    e == d || Some(e) == NextReplace(d) || Some(e) == NextRollback(d) || Acceptance(d, e)
  }

  /** What a successful preparation leaves. */
  predicate Fresh(d: Durable)
  {
    && d.journal.phase == Prepared
    && d.journal.intent.None?
    && d.journal.source != d.journal.candidate
    && d.layout == Layout(Some(d.journal.source), None, Some(d.journal.candidate), None)
  }

  function FreshFor(j: Journal): Durable
  {
    Durable(j.(phase := Prepared, intent := None), Layout(Some(j.source), None, Some(j.candidate), None))
  }

  /** What a completed replacement leaves. */
  function Placed(j: Journal): Durable
  {
    Durable(j.(phase := NewPlaced, intent := None), Layout(Some(j.candidate), Some(j.source), None, None))
  }

  /** A run of durable writes after preparation; any prefix of it may be all that happened. */
  ghost predicate Chain(h: seq<Durable>)
  {
    && h != []
    && Fresh(h[0])
    && forall i :: 0 <= i < |h| - 1 ==> Step(h[i], h[i + 1])
  }

  /** How many writes a restoration still needs. */
  function Rank(d: Durable): nat
  {
    if d.journal.phase == RolledBack then 0
    else
      match ShapeOf(d.journal, d.layout)
      case Some(ShapeNewPlaced) => if d.journal.intent == Some(MoveFailed) then 4 else 5
      case Some(CandidateHeld) => if d.journal.intent == Some(RestoreOld) then 2 else 3
      case Some(ShapeOldMoved) => if d.journal.intent == Some(RestoreOld) then 2 else 3
      case _ => 1
  }

  predicate Restored(d: Durable)
  {
    && d.journal.phase == RolledBack
    && d.journal.intent.None?
    && d.layout.target == Some(d.journal.source)
    && d.layout.previous.None?
  }

  /** After a restoration the old bundle is installed and the new one is where it was staged or put aside. */
  lemma RestoredBundles(d: Durable)
    requires d.journal.source != d.journal.candidate && Accepts(d) && Restored(d)
    ensures d.layout.target == Some(d.journal.source) && d.layout.previous.None?
    ensures d.layout.staged == Some(d.journal.candidate) <==> d.layout.failed.None?
    ensures d.layout.failed == Some(d.journal.candidate) <==> d.layout.staged.None?
  {
    RecognisedIffInCustody(d.journal, d.layout);
  }

  predicate SameUpdate(j: Journal, k: Journal)
  {
    j.(phase := k.phase, intent := k.intent) == k
  }

  // ---- what the writes keep ----

  lemma StepKeepsAcceptance(d: Durable, e: Durable)
    requires d.journal.source != d.journal.candidate
    requires Accepts(d) && Step(d, e)
    ensures Accepts(e) && SameUpdate(d.journal, e.journal)
  {
    var shape := CheckedShape(d).value;
    assert shape == RestoredWithStage || shape == ShapeOf(d.journal, d.layout).value;
  }

  /** Whenever the process stops, the next start recognises what it finds. */
  lemma {:induction false} EveryCrashIsRecognised(h: seq<Durable>, i: nat)
    requires Chain(h) && i < |h|
    ensures Accepts(h[i])
    ensures SameUpdate(h[0].journal, h[i].journal)
    ensures Custody(h[i].journal, h[i].layout)
  {
    if i > 0 {
      EveryCrashIsRecognised(h, i - 1);
      StepKeepsAcceptance(h[i - 1], h[i]);
    }
    RecognisedIffInCustody(h[i].journal, h[i].layout);
  }

  ghost predicate Reachable(d: Durable)
  {
    exists h :: Chain(h) && h[|h| - 1] == d
  }

  lemma ChainGrows(h: seq<Durable>, e: Durable)
    requires Chain(h) && Step(h[|h| - 1], e)
    ensures Chain(h + [e])
  {
    var g := h + [e];
    forall i | 0 <= i < |g| - 1 ensures Step(g[i], g[i + 1]) {
      if i < |h| - 1 {
        assert Step(h[i], h[i + 1]);
      }
    }
  }

  lemma OneMoreWrite(d: Durable, e: Durable)
    requires Reachable(d) && Step(d, e)
    ensures Reachable(e)
  {
    var h :| Chain(h) && h[|h| - 1] == d;
    ChainGrows(h, e);
    assert (h + [e])[|h + [e]| - 1] == e;
  }

  /** A way a recognised state can have come about: the state one write earlier. */
  function Before(d: Durable): Durable
  {
    var shape := ShapeOf(d.journal, d.layout);
    match (d.journal.phase, d.journal.intent)
    case (Prepared, Some(MoveOld)) =>
      if shape == Some(ShapePrepared) then Mark(d, Prepared, None) else Carried(d, RestoreOld)
    case (OldMoved, None) => Mark(d, Prepared, Some(MoveOld))
    case (OldMoved, Some(PlaceNew)) =>
      if shape == Some(ShapeOldMoved) then Mark(d, OldMoved, None)
      else d.(layout := d.layout.(target := None, staged := d.layout.target))
    case (NewPlaced, None) => Mark(d, OldMoved, Some(PlaceNew))
    case (Accepted, _) => Mark(d, NewPlaced, None)
    case (NewPlaced, Some(MoveFailed)) =>
      if shape == Some(ShapeNewPlaced) then Mark(d, NewPlaced, None)
      else d.(layout := d.layout.(target := d.layout.failed, failed := None))
    case (OldMoved, Some(RestoreOld)) =>
      if shape == Some(ShapeOldMoved) then Mark(d, OldMoved, None) else Carried(d, MoveOld)
    case (NewPlaced, Some(RestoreOld)) =>
      if shape == Some(CandidateHeld) then Mark(d, NewPlaced, Some(MoveFailed)) else Carried(d, MoveOld)
    case (RolledBack, _) =>
      if shape == Some(ShapePrepared) then Mark(d, Prepared, None) else Mark(d, NewPlaced, Some(RestoreOld))
    case _ => d
  }

  /** Number of writes on the way described by Before. */
  function Depth(d: Durable): nat
  {
    var shape := ShapeOf(d.journal, d.layout);
    match (d.journal.phase, d.journal.intent)
    case (Prepared, Some(MoveOld)) => if shape == Some(ShapePrepared) then 1 else 2
    case (OldMoved, None) => 3
    case (OldMoved, Some(PlaceNew)) => if shape == Some(ShapeOldMoved) then 4 else 5
    case (NewPlaced, None) => 6
    case (Accepted, _) => 7
    case (NewPlaced, Some(MoveFailed)) => if shape == Some(ShapeNewPlaced) then 7 else 8
    case (OldMoved, Some(RestoreOld)) => if shape == Some(ShapeOldMoved) then 7 else 8
    case (NewPlaced, Some(RestoreOld)) => if shape == Some(CandidateHeld) then 9 else 10
    case (RolledBack, _) => 11
    case _ => 0
  }

  lemma BeforeIsRecognised(d: Durable)
    requires d.journal.source != d.journal.candidate && Accepts(d) && Depth(d) > 0
    ensures Accepts(Before(d)) && Depth(Before(d)) < Depth(d) && SameUpdate(Before(d).journal, d.journal)
  {
    var b := Before(d);
    assert ShapeOf(b.journal, b.layout).Some?;
  }

  lemma BeforeIsOneWriteEarlier(d: Durable)
    requires d.journal.source != d.journal.candidate && Accepts(d) && Depth(d) > 0
    ensures Step(Before(d), d)
  {
    BeforeIsRecognised(d);
  }

  lemma {:induction false} EveryRecognisedStateCanHappen(d: Durable)
    requires d.journal.source != d.journal.candidate && Accepts(d)
    ensures Reachable(d)
    decreases Depth(d)
  {
    if Depth(d) == 0 {
      assert Chain([d]);
    } else {
      BeforeIsRecognised(d);
      BeforeIsOneWriteEarlier(d);
      EveryRecognisedStateCanHappen(Before(d));
      OneMoreWrite(Before(d), d);
    }
  }

  /** The shape check accepts exactly what interrupted updates can leave, no more and no less. */
  lemma AcceptsExactlyWhatCrashesLeave(d: Durable)
    requires d.journal.source != d.journal.candidate
    ensures Accepts(d) <==> Reachable(d)
  {
    if Accepts(d) {
      EveryRecognisedStateCanHappen(d);
    }
    if Reachable(d) {
      var h :| Chain(h) && h[|h| - 1] == d;
      EveryCrashIsRecognised(h, |h| - 1);
    }
  }

  // ---- renames ----

  /** A bundle leaves an occupied place for an empty one and nothing else changes. */
  predicate Moves(l: Layout, m: Layout, from: Place, to: Place)
  {
    && At(l, from).Some? && At(l, to).None?
    && At(m, from).None? && At(m, to) == At(l, from)
    && forall p :: p != from && p != to ==> At(m, p) == At(l, p)
  }

  /** Write-ahead: a bundle moves only after the journal names that very move, onto an empty place. */
  lemma RenamesAreAnnouncedAndNeverOverwrite(d: Durable, e: Durable)
    requires d.journal.source != d.journal.candidate
    requires Accepts(d) && Step(d, e) && e.layout != d.layout
    ensures e.journal == d.journal && d.journal.intent.Some?
    ensures Moves(d.layout, e.layout, From(d.journal.intent.value), To(d.journal.intent.value))
  {
    assert d.journal.intent.Some?;
    var i := d.journal.intent.value;
  }

  // ---- restoration ----

  predicate Open(d: Durable)
  {
    d.journal.source != d.journal.candidate && Accepts(d) && d.journal.phase != Accepted
  }

  lemma RollbackWriteIsProgress(d: Durable)
    requires Open(d)
    ensures NextRollback(d).Some? <==> Rank(d) > 0
    ensures Rank(d) > 0 ==> Open(NextRollback(d).value) && Rank(NextRollback(d).value) == Rank(d) - 1
    ensures Rank(d) == 0 ==> Restored(d)
  {
    if Rank(d) > 0 {
      StepKeepsAcceptance(d, NextRollback(d).value);
    }
  }

  /** Where a restoration that is not interrupted ends. */
  function RollbackEnd(d: Durable): (e: Durable)
    requires Open(d)
    ensures Open(e) && Restored(e) && SameUpdate(d.journal, e.journal)
    decreases Rank(d)
  {
    RollbackWriteIsProgress(d);
    if Rank(d) == 0 then d else RollbackEnd(NextRollback(d).value)
  }

  /** e lies between d and the end of d's restoration. */
  ghost predicate Toward(d: Durable, e: Durable)
  {
    Open(d) && Open(e) && Rank(e) <= Rank(d) && RollbackEnd(e) == RollbackEnd(d)
  }

  /** Trying to write the next state of a restoration, whether or not the write lands. */
  lemma RollbackWriteIsToward(start: Durable, d: Durable, e: Durable)
    requires Toward(start, d)
    requires e == d || Some(e) == NextRollback(d)
    ensures Toward(start, e) && SameUpdate(d.journal, e.journal)
    ensures e.journal.phase == RolledBack ==> e == RollbackEnd(start)
  {
    RollbackWriteIsProgress(d);
    RollbackWriteIsProgress(e);
  }

  /** From every state a crash can leave before acceptance, restoring puts the old bundle back. */
  lemma EveryOpenCrashCanBeRestored(h: seq<Durable>, i: nat)
    requires Chain(h) && i < |h| && h[i].journal.phase != Accepted
    ensures Open(h[i])
    ensures RollbackEnd(h[i]).layout.target == Some(h[0].journal.source)
    ensures RollbackEnd(h[i]).journal == h[0].journal.(phase := RolledBack, intent := None)
  {
    EveryCrashIsRecognised(h, i);
  }

  predicate RestorationBegun(d: Durable)
  {
    d.journal.phase == RolledBack || d.journal.intent == Some(MoveFailed) || d.journal.intent == Some(RestoreOld)
  }

  /** However often a begun restoration is interrupted and retried, it only ever gets shorter. */
  lemma {:induction false} BegunRestorationNeverMovesBack(h: seq<Durable>, i: nat, k: nat)
    requires Chain(h) && i <= k < |h| && RestorationBegun(h[i])
    ensures RestorationBegun(h[k]) && Rank(h[k]) <= Rank(h[i])
    ensures h[k] == h[i] || Rank(h[k]) < Rank(h[i])
    ensures h[k].journal.phase != Accepted
    decreases k
  {
    hide *;
    RecognisedInChain(h, k);
    if i < k {
      BegunRestorationNeverMovesBack(h, i, k - 1);
      RecognisedInChain(h, k - 1);
      BegunRestorationGoesOn(h[k - 1], h[k]);
    } else {
      BegunIsNotAccepted(h[k]);
    }
  }

  lemma RecognisedInChain(h: seq<Durable>, k: nat)
    requires Chain(h) && k < |h|
    ensures Accepts(h[k]) && h[k].journal.source != h[k].journal.candidate
    ensures k + 1 < |h| ==> Step(h[k], h[k + 1])
  {
    EveryCrashIsRecognised(h, k);
  }

  lemma BegunIsNotAccepted(d: Durable)
    requires d.journal.source != d.journal.candidate && Accepts(d) && RestorationBegun(d)
    ensures d.journal.phase != Accepted
  {
  }

  lemma BegunRestorationGoesOn(d: Durable, e: Durable)
    requires d.journal.source != d.journal.candidate && Accepts(d) && RestorationBegun(d) && Step(d, e)
    ensures RestorationBegun(e) && e.journal.phase != Accepted
    ensures e == d || Rank(e) < Rank(d)
  {
    if e != d {
      assert Some(e) == NextRollback(d);
      RollbackWriteIsProgress(d);
    }
  }

  /** After acceptance nothing moves any more. */
  lemma {:induction false} AcceptedIsFinal(h: seq<Durable>, i: nat, k: nat)
    requires Chain(h) && i <= k < |h| && h[i].journal.phase == Accepted
    ensures h[k] == h[i]
    decreases k
  {
    if i < k {
      AcceptedIsFinal(h, i, k - 1);
      EveryCrashIsRecognised(h, k - 1);
    }
  }

  // ---- clearing a finished update ----

  /** Some retained bundles are gone or damaged; the installed one and empty places are as before. */
  predicate Eroded(l: Layout, m: Layout)
  {
    && m.target == l.target
    && (l.previous.None? ==> m.previous.None?)
    && (l.staged.None? ==> m.staged.None?)
    && (l.failed.None? ==> m.failed.None?)
  }

  /** An interruption of the clearing, at one of the retained bundles, and what the interruption leaves of it. */
  datatype Cut = Uncut | CutAt(place: Place, remains: Option<Identity>)

  /** The retained bundles are removed in the order previous, failed, staged; the cut one is left as it is then. */
  function CutOff(l: Layout, cut: Cut): Layout
  {
    match cut
    case Uncut => l
    case CutAt(AtTarget, _) => l
    case CutAt(AtPrevious, remains) => l.(previous := remains)
    case CutAt(AtFailed, remains) => l.(previous := None, failed := remains)
    case CutAt(AtStaged, remains) => l.(previous := None, failed := None, staged := remains)
  }

  /** Something can be cut off: a retained bundle is there. */
  predicate Cuttable(l: Layout, cut: Cut)
  {
    cut.CutAt? ==> cut.place != AtTarget && At(l, cut.place).Some?
  }

  /** Every finished update retains a bundle that its clearing will have to remove. */
  lemma FinishedUpdateRetainsABundle(d: Durable) returns (place: Place)
    requires d.journal.source != d.journal.candidate && Accepts(d)
    requires Finished(d.journal.phase)
    ensures place != AtTarget && At(d.layout, place).Some?
    ensures d.journal.phase == Accepted ==> place == AtPrevious && At(d.layout, place) == Some(d.journal.source)
    ensures d.journal.phase == RolledBack ==>
      place in {AtFailed, AtStaged} && At(d.layout, place) == Some(d.journal.candidate)
  {
    RecognisedIffInCustody(d.journal, d.layout);
    place := if d.journal.phase == Accepted then AtPrevious else if d.layout.failed.Some? then AtFailed else AtStaged;
  }

  /**
   * Every clearing can be interrupted so that it can never be started again: cut at any retained bundle,
   * removed or damaged, the journal is still there but its layout is no longer accepted.
   */
  lemma CutClearingIsStuck(d: Durable, cut: Cut)
    requires d.journal.source != d.journal.candidate && Accepts(d)
    requires Finished(d.journal.phase)
    requires cut.CutAt? && Cuttable(d.layout, cut) && cut.remains != At(d.layout, cut.place)
    ensures Eroded(d.layout, CutOff(d.layout, cut)) && !Accepts(d.(layout := CutOff(d.layout, cut)))
  {
    InterruptedClearingIsRetriableIffNothingWasLost(d, CutOff(d.layout, cut));
  }

  /**
   * An interrupted clearing can be retried exactly when it had not touched a bundle yet:
   * the journal is removed last, but the remaining arrangement is no longer recognised.
   */
  lemma InterruptedClearingIsRetriableIffNothingWasLost(d: Durable, m: Layout)
    requires d.journal.source != d.journal.candidate && Accepts(d)
    requires Finished(d.journal.phase)
    requires Eroded(d.layout, m)
    ensures Accepts(d.(layout := m)) <==> m == d.layout
  {
    if Accepts(d.(layout := m)) {
      RecognisedIffInCustody(d.journal, d.layout);
      RecognisedIffInCustody(d.journal, m);
    }
  }
}
