/**
 * Stopping the known processes before their data is recovered: nothing is told to stop that is not known,
 * or has become another process since it was listed, and the end is a stretch of silence.
 */
module Quiescence {
  import opened Wrappers

  datatype Process = Process(pid: nat, parent: nat, uid: nat, started: string, executable: string)

  datatype Refusal =
    | CommandFailed
    | DesktopRunning
    | TunnelRunning
    | Unrecognised
    | IdentityChanged
    | StopFailed
    | Restarted
    | Survived

  datatype Waited = Stopped(count: nat) | Refused(reason: Refusal)

  /** What becomes of a signal: it arrives, or nobody is there any more, or it may not be sent. */
  datatype Kill = Delivered | NobodyThere | Forbidden

  /** What one listing of the user's processes says; None if it cannot be taken or read. */
  type Listing = Option<seq<Process>>

  /** The file name of a path, and the small letters of a text. */
  datatype Naming = Naming(fileName: string -> string, lower: string -> string)

  const DESKTOP_PLACE := ".app/contents/macos/"
  const SAMPLES := 15
  const QUIET := 5

  predicate Contains(s: string, part: string)
  {
    part <= s || (s != "" && Contains(s[1..], part))
  }

  lemma {:induction false} PartIsContained(s: string, part: string, i: nat)
    requires i <= |s| && part <= s[i..]
    ensures Contains(s, part)
  {
    if i > 0 {
      assert s[i..] == s[1..][i - 1..];
      PartIsContained(s[1..], part, i - 1);
    }
  }

  lemma {:induction false} ContainedIsPart(s: string, part: string) returns (i: nat)
    requires Contains(s, part)
    ensures i <= |s| && part <= s[i..]
  {
    if part <= s {
      i := 0;
    } else {
      var k := ContainedIsPart(s[1..], part);
      i := k + 1;
      assert s[1..][k..] == s[i..];
    }
  }

  lemma ContainsIff(s: string, part: string)
    ensures Contains(s, part) <==> exists i :: 0 <= i <= |s| && part <= s[i..]
  {
    if Contains(s, part) {
      var i := ContainedIsPart(s, part);
    }
    if i :| 0 <= i <= |s| && part <= s[i..] {
      PartIsContained(s, part, i);
    }
  }

  // ---- what a listing may show ----

  function ProcessObjection(p: Process, known: set<string>, naming: Naming): Option<Refusal>
  {
    var name := naming.lower(naming.fileName(p.executable));
    if name in {"claude", "claude desktop"} && Contains(naming.lower(p.executable), DESKTOP_PLACE)
    then Some(DesktopRunning)
    else if name == "tunnel-client" then Some(TunnelRunning)
    else if name in {"kb", "kb-app"} && p.executable !in known then Some(Unrecognised)
    else None
  }

  /** The desktop client in its bundle, the tunnel, and programs of this name that are not known. */
  lemma ObjectedSpelledOut(p: Process, known: set<string>, naming: Naming)
    ensures var name, place := naming.lower(naming.fileName(p.executable)), naming.lower(p.executable);
      var desktop := (name == "claude" || name == "claude desktop") &&
        exists i :: 0 <= i <= |place| && ".app/contents/macos/" <= place[i..];
      && (ProcessObjection(p, known, naming) == Some(DesktopRunning) <==> desktop)
      && (ProcessObjection(p, known, naming) == Some(TunnelRunning) <==> name == "tunnel-client")
      && (ProcessObjection(p, known, naming) == Some(Unrecognised) <==>
            (name == "kb" || name == "kb-app") && p.executable !in known)
      && (ProcessObjection(p, known, naming).None? <==>
            && !desktop && name != "tunnel-client"
            && ((name == "kb" || name == "kb-app") ==> p.executable in known))
  {
    hide Contains;
    ContainsIff(naming.lower(p.executable), ".app/contents/macos/");
    var name := naming.lower(naming.fileName(p.executable));
    assert |"claude"| == 6 && |"claude desktop"| == 14 && |"tunnel-client"| == 13 && |"kb"| == 2;
    assert |"kb-app"| == 6 && "kb-app"[0] == 'k' && "claude"[0] == 'c';
  }

  /** The first objection to a process in the order of the listing. */
  function FirstObjection(list: seq<Process>, known: set<string>, naming: Naming): Option<Refusal>
  {
    if list == [] then None
    else
      var first := ProcessObjection(list[0], known, naming);
      if first.Some? then first else FirstObjection(list[1..], known, naming)
  }

  function Objection(listing: Listing, known: set<string>, naming: Naming): Option<Refusal>
  {
    if listing.None? then Some(CommandFailed) else FirstObjection(listing.value, known, naming)
  }

  /** There is an objection exactly if there is one to some process. */
  lemma {:induction false} ObjectedIffToSome(list: seq<Process>, known: set<string>, naming: Naming)
    ensures FirstObjection(list, known, naming).None? <==>
      forall p :: p in list ==> ProcessObjection(p, known, naming).None?
    ensures FirstObjection(list, known, naming).Some? ==>
      FirstObjection(list, known, naming).value in {DesktopRunning, TunnelRunning, Unrecognised}
  {
    if list != [] {
      ObjectedIffToSome(list[1..], known, naming);
      assert forall p :: p in list <==> p == list[0] || p in list[1..];
    }
  }

  /** The objection that is reported is the one to the first process that gives cause to any. */
  lemma {:induction false} FirstObjectionIsToTheFirst(list: seq<Process>, known: set<string>, naming: Naming, i: nat)
    requires i < |list| && forall j :: 0 <= j < i ==> ProcessObjection(list[j], known, naming).None?
    requires ProcessObjection(list[i], known, naming).Some?
    ensures FirstObjection(list, known, naming) == ProcessObjection(list[i], known, naming)
  {
    hide ProcessObjection;
    if i > 0 {
      assert forall j :: 0 <= j < |list| - 1 ==> list[1..][j] == list[j + 1];
      FirstObjectionIsToTheFirst(list[1..], known, naming, i - 1);
    }
  }

  /** The known processes of a listing, in its order. */
  function Known(list: seq<Process>, known: set<string>): (r: seq<Process>)
    ensures forall p :: p in r <==> p in list && p.executable in known
  {
    if list == [] then []
    else (if list[0].executable in known then [list[0]] else []) + Known(list[1..], known)
  }

  lemma KnownUnfolds(list: seq<Process>, known: set<string>)
    ensures Known([], known) == []
    ensures list != [] ==>
      Known(list, known) == (if list[0].executable in known then [list[0]] else []) + Known(list[1..], known)
  {
  }

  /** None is left out, none comes twice or out of turn. */
  lemma {:induction false} KnownOneByOne(a: seq<Process>, p: Process, b: seq<Process>, known: set<string>)
    ensures Known(a + [p] + b, known)
      == Known(a, known) + (if p.executable in known then [p] else []) + Known(b, known)
  {
    hide Known;
    var all := a + [p] + b;
    KnownUnfolds(all, known);
    KnownUnfolds(a, known);
    if a == [] {
      assert all[1..] == b;
    } else {
      assert all[1..] == a[1..] + [p] + b;
      KnownOneByOne(a[1..], p, b, known);
    }
  }

  // ---- telling one process to stop ----

  function WithPid(list: seq<Process>, pid: nat): (p: Option<Process>)
    ensures p.Some? ==> p.value in list && p.value.pid == pid
    ensures p.None? ==> forall q :: q in list ==> q.pid != pid
  {
    if list == [] then None
    else if list[0].pid == pid then Some(list[0])
    else WithPid(list[1..], pid)
  }

  /** The number of the process still stands for the same process. */
  predicate StillThere(p: Process, listing: Listing)
  {
    listing.Some? && WithPid(listing.value, p.pid) == Some(p)
  }

  function StopFailure(p: Process, listing: Listing, kill: Kill): Option<Refusal>
  {
    if listing.None? then Some(CommandFailed)
    else if WithPid(listing.value, p.pid).None? then None
    else if !StillThere(p, listing) then Some(IdentityChanged)
    else if kill.Forbidden? then Some(StopFailed)
    else None
  }

  /** The failure of the first target that cannot be stopped; target k is looked for in listing base + k. */
  function FirstFailure(targets: seq<Process>, listings: nat -> Listing, base: nat, kills: Process -> Kill):
    Option<Refusal>
  {
    if targets == [] then None
    else
      var n := |targets| - 1;
      var earlier := FirstFailure(targets[..n], listings, base, kills);
      if earlier.Some? then earlier else StopFailure(targets[n], listings(base + n), kills(targets[n]))
  }

  /** The targets that are still there when it is their turn. */
  function Present(targets: seq<Process>, listings: nat -> Listing, base: nat): seq<Process>
  {
    if targets == [] then []
    else
      var n := |targets| - 1;
      Present(targets[..n], listings, base) + if StillThere(targets[n], listings(base + n)) then [targets[n]] else []
  }

  lemma {:induction false} PresentWereThere(targets: seq<Process>, listings: nat -> Listing, base: nat, i: nat)
    requires i < |Present(targets, listings, base)|
    ensures exists k: nat ::
      k < |targets| && targets[k] == Present(targets, listings, base)[i] && StillThere(targets[k], listings(base + k))
  {
    var n := |targets| - 1;
    var front := targets[..n];
    if i < |Present(front, listings, base)| {
      PresentWereThere(front, listings, base, i);
      var k: nat :| k < |front| && front[k] == Present(front, listings, base)[i] &&
        StillThere(front[k], listings(base + k));
      assert targets[k] == front[k];
    }
  }

  // ---- the silence afterwards ----

  /** The listing is in order and shows no known process but those that were told to stop. */
  predicate Calm(listing: Listing, targets: seq<Process>, known: set<string>, naming: Naming)
  {
    Objection(listing, known, naming).None? && forall p :: p in Known(listing.value, known) ==> p in targets
  }

  predicate Silent(listing: Listing, known: set<string>, naming: Naming)
  {
    Objection(listing, known, naming).None? && Known(listing.value, known) == []
  }

  /** Waiting for silence: the samples are the listings from base on. */
  datatype Wait = Wait(listings: nat -> Listing, base: nat, targets: seq<Process>, known: set<string>, naming: Naming)
  {
    predicate CalmAt(i: nat)
    {
      Calm(listings(base + i), targets, known, naming)
    }

    predicate SilentAt(i: nat)
    {
      Silent(listings(base + i), known, naming)
    }

    /** The last samples up to this one were all silent. */
    predicate QuietBy(i: nat)
    {
      i + 1 >= QUIET && forall k: nat :: i + 1 - QUIET <= k <= i ==> SilentAt(k)
    }

    /** How a sample ends the wait, if it does. */
    function Verdict(i: nat): Option<Waited>
    {
      var objection := Objection(listings(base + i), known, naming);
      if objection.Some? then Some(Refused(objection.value))
      else if !CalmAt(i) then Some(Refused(Restarted))
      else if QuietBy(i) then Some(Stopped(|targets|))
      else None
    }

    /** Nothing before this sample ended the wait. */
    predicate OpenUntil(i: nat)
    {
      forall k: nat :: k < i ==> Verdict(k).None?
    }

    /** How long the silence up to a sample has lasted. */
    function Silence(i: nat): nat
    {
      if i == 0 || !SilentAt(i - 1) then 0 else Silence(i - 1) + 1
    }

    lemma {:induction false} SilenceCounts(i: nat)
      ensures Silence(i) <= i
      ensures forall k: nat :: i - Silence(i) <= k < i ==> SilentAt(k)
      ensures Silence(i) < i ==> !SilentAt(i - Silence(i) - 1)
    {
      if i > 0 && SilentAt(i - 1) {
        SilenceCounts(i - 1);
      }
    }

    /** The first sample that ends the wait says how; if there is none, somebody survived. */
    ghost predicate Ends(r: Waited)
    {
      || (r == Refused(Survived) && OpenUntil(SAMPLES))
      || exists i: nat :: i < SAMPLES && OpenUntil(i) && Verdict(i) == Some(r)
    }

    /** The wait has one end only. */
    lemma OneEnd(r: Waited, q: Waited)
      requires Ends(r) && Ends(q)
      ensures r == q
    {
      hide Verdict;
    }

    predicate FiveSilent(i: nat)
      requires i >= 4
    {
      SilentAt(i - 4) && SilentAt(i - 3) && SilentAt(i - 2) && SilentAt(i - 1) && SilentAt(i)
    }

    lemma FiveAreQuiet(i: nat)
      requires i >= 4
      ensures FiveSilent(i) <==> QuietBy(i)
    {
      hide SilentAt;
      if FiveSilent(i) {
        forall k: nat | i + 1 - QUIET <= k <= i ensures SilentAt(k) {
          assert k == i - 4 || k == i - 3 || k == i - 2 || k == i - 1 || k == i;
        }
      }
    }

    /** The processes have stopped exactly if a stretch of silence was long enough and all was calm until its end. */
    lemma StoppedIffQuiet(r: Waited)
      requires Ends(r)
      ensures r.Stopped? <==> exists i: nat :: i < SAMPLES && QuietBy(i) && forall k: nat :: k <= i ==> CalmAt(k)
    {
      if r.Stopped? {
        var i: nat :| i < SAMPLES && OpenUntil(i) && Verdict(i) == Some(r);
        forall k: nat | k <= i ensures CalmAt(k) {
          assert k < i ==> Verdict(k).None?;
        }
      } else if exists i: nat :: i < SAMPLES && QuietBy(i) && forall k: nat :: k <= i ==> CalmAt(k) {
        var i: nat :| i < SAMPLES && QuietBy(i) && forall k: nat :: k <= i ==> CalmAt(k);
        var j := FirstQuiet(i);
        assert Verdict(j) == Some(Stopped(|targets|));
        OneEnd(r, Stopped(|targets|));
      }
    }

    /** Five silent samples in a row, among fifteen and with nothing wrong until then. */
    lemma StoppedIffFiveSilent(r: Waited)
      requires Ends(r)
      ensures r.Stopped? <==> exists i: nat :: 4 <= i < 15 && FiveSilent(i) && forall k: nat :: k <= i ==> CalmAt(k)
      ensures r.Stopped? ==> r.count == |targets|
    {
      hide CalmAt, SilentAt;
      StoppedIffQuiet(r);
      forall i: nat | i >= 4 ensures FiveSilent(i) <==> QuietBy(i) {
        FiveAreQuiet(i);
      }
    }

    lemma {:induction false} FirstQuiet(i: nat) returns (j: nat)
      requires QuietBy(i) && forall k: nat :: k <= i ==> CalmAt(k)
      ensures j <= i && OpenUntil(j) && CalmAt(j) && QuietBy(j)
    {
      if k: nat :| k < i && QuietBy(k) {
        j := FirstQuiet(k);
      } else {
        j := i;
        forall k: nat | k < i ensures Verdict(k).None? {
          assert CalmAt(k) && !QuietBy(k);
        }
      }
    }
  }

  // ---- the system ----

  class TerminalSystem {
    /** What the listings will say, one after the other, and what becomes of a quit and of a signal. */
    const listings: nat -> Listing
    const quits: bool
    const kills: Process -> Kill
    var taken: nat
    var quitAsked: bool
    var signalled: seq<Process>

    constructor (listings: nat -> Listing, quits: bool, kills: Process -> Kill)
      ensures this.listings == listings && this.quits == quits && this.kills == kills
      ensures taken == 0 && !quitAsked && signalled == []
    {
      this.listings, this.quits, this.kills := listings, quits, kills;
      taken, quitAsked, signalled := 0, false, [];
    }

    method Processes() returns (listing: Listing)
      modifies this`taken
      ensures listing == listings(old(taken)) && taken == old(taken) + 1
    {
      listing := listings(taken);
      taken := taken + 1;
    }

    method QuitGui() returns (ok: bool)
      modifies this`quitAsked
      ensures quitAsked && ok == quits
    {
      quitAsked := true;
      ok := quits;
    }

    /** Signals a process only if its number still stands for the same process. */
    method Terminate(process: Process) returns (failure: Option<Refusal>)
      modifies this`taken, this`signalled
      ensures taken == old(taken) + 1
      ensures failure == StopFailure(process, listings(old(taken)), kills(process))
      ensures signalled == old(signalled) + if StillThere(process, listings(old(taken))) then [process] else []
      ensures listings(old(taken)).None? ==> failure == Some(CommandFailed) && signalled == old(signalled)
      ensures listings(old(taken)).Some? ==>
        var list := listings(old(taken)).value;
        && ((forall q :: q in list ==> q.pid != process.pid) ==> failure.None? && signalled == old(signalled))
        && ((exists q :: q in list && q.pid == process.pid) && process !in list ==>
              failure == Some(IdentityChanged) && signalled == old(signalled))
        && (process in list && (forall q :: q in list && q.pid == process.pid ==> q == process) ==>
              && signalled == old(signalled) + [process]
              && failure == if kills(process).Forbidden? then Some(StopFailed) else None)
    {
      var listing := Processes();
      if listing.None? { return Some(CommandFailed); }
      var current := WithPid(listing.value, process.pid);
      if current.None? { return None; }
      if current.value != process { return Some(IdentityChanged); }
      signalled := signalled + [process];
      return if kills(process).Forbidden? then Some(StopFailed) else None;
    }
  }

  method CheckedInventory(system: TerminalSystem, known: set<string>, naming: Naming)
    returns (objection: Option<Refusal>, list: seq<Process>)
    modifies system`taken
    ensures system.taken == old(system.taken) + 1
    ensures objection == Objection(system.listings(old(system.taken)), known, naming)
    ensures objection.None? ==> system.listings(old(system.taken)) == Some(list)
  {
    list := [];
    var listing := system.Processes();
    if listing.None? { return Some(CommandFailed), list; }
    list := listing.value;
    var i := 0;
    while i < |list|
      invariant 0 <= i <= |list|
      invariant FirstObjection(list, known, naming) == FirstObjection(list[i..], known, naming)
    {
      var first := ProcessObjection(list[i], known, naming);
      assert list[i..][0] == list[i] && list[i..][1..] == list[i + 1..];
      if first.Some? { return first, list; }
      i := i + 1;
    }
    objection := None;
  }

  method AwaitSilence(system: TerminalSystem, targets: seq<Process>, known: set<string>, naming: Naming)
    returns (r: Waited)
    modifies system`taken
    ensures Wait(system.listings, old(system.taken), targets, known, naming).Ends(r)
  {
    hide FirstObjection, Known;
    ghost var w := Wait(system.listings, system.taken, targets, known, naming);
    var quiet := 0;
    for i := 0 to SAMPLES
      invariant system.taken == w.base + i && quiet == w.Silence(i) && quiet < QUIET
      invariant w.OpenUntil(i)
    {
      var objection, list := CheckedInventory(system, known, naming);
      if objection.Some? {
        return Refused(objection.value);
      }
      var remaining := Known(list, known);
      if exists p :: p in remaining && p !in targets { return Refused(Restarted); }
      quiet := if remaining == [] then quiet + 1 else 0;
      w.SilenceCounts(i + 1);
      if quiet >= QUIET { return Stopped(|targets|); }
    }
    r := Refused(Survived);
  }

  /** The targets that were still there were signalled in their order, up to the last one or to some earlier one. */
  ghost predicate Told(before: seq<Process>, after: seq<Process>, targets: seq<Process>, listings: nat -> Listing,
                       base: nat, all: bool)
  {
    exists n: nat ::
      n <= |targets| && (all ==> n == |targets|) && after == before + Present(targets[..n], listings, base)
  }

  /** Whoever is signalled is a target whose number still stood for it when its turn came. */
  lemma OnlyPresentTargetsAreSignalled(before: seq<Process>, after: seq<Process>, targets: seq<Process>,
                                       listings: nat -> Listing, base: nat, all: bool, i: nat)
    requires Told(before, after, targets, listings, base, all) && |before| <= i < |after|
    ensures exists k: nat :: k < |targets| && targets[k] == after[i] && StillThere(targets[k], listings(base + k))
  {
    var n: nat :|
      n <= |targets| && (all ==> n == |targets|) && after == before + Present(targets[..n], listings, base);
    PresentWereThere(targets[..n], listings, base, i - |before|);
    var k: nat :| k < n && targets[..n][k] == after[i] && StillThere(targets[..n][k], listings(base + k));
    assert targets[k] == targets[..n][k];
  }

  lemma NoTargets(targets: seq<Process>, listings: nat -> Listing, base: nat, kills: Process -> Kill)
    requires targets == []
    ensures FirstFailure(targets, listings, base, kills).None? && Present(targets, listings, base) == []
  {
  }

  lemma OneMoreTarget(targets: seq<Process>, listings: nat -> Listing, base: nat, kills: Process -> Kill, i: nat)
    requires i < |targets|
    ensures FirstFailure(targets[..i], listings, base, kills).None? ==>
      FirstFailure(targets[..i + 1], listings, base, kills)
        == StopFailure(targets[i], listings(base + i), kills(targets[i]))
    ensures Present(targets[..i + 1], listings, base)
      == Present(targets[..i], listings, base) + if StillThere(targets[i], listings(base + i)) then [targets[i]] else []
  {
    assert targets[..i + 1][..i] == targets[..i];
  }

  /** Tells the targets to stop, one after the other, until one cannot be stopped. */
  method TerminateAll(system: TerminalSystem, targets: seq<Process>) returns (failure: Option<Refusal>)
    modifies system`taken, system`signalled
    ensures failure == FirstFailure(targets, system.listings, old(system.taken), system.kills)
    ensures failure.None? ==> system.taken == old(system.taken) + |targets|
    ensures Told(old(system.signalled), system.signalled, targets, system.listings, old(system.taken), failure.None?)
  {
    hide FirstFailure, Present, StopFailure, StillThere;
    ghost var base, before := system.taken, system.signalled;
    NoTargets(targets[..0], system.listings, base, system.kills);
    for i := 0 to |targets|
      invariant system.taken == base + i
      invariant FirstFailure(targets[..i], system.listings, base, system.kills).None?
      invariant system.signalled == before + Present(targets[..i], system.listings, base)
    {
      OneMoreTarget(targets, system.listings, base, system.kills, i);
      failure := system.Terminate(targets[i]);
      if failure.Some? {
        FailureStays(targets, system.listings, base, system.kills, i + 1);
        assert system.signalled == before + Present(targets[..i + 1], system.listings, base);
        return;
      }
    }
    assert targets[..|targets|] == targets;
    failure := None;
  }

  /** The failure that is reported is that of the first target that cannot be stopped. */
  lemma FirstFailureIsOfTheFirst(targets: seq<Process>, listings: nat -> Listing, base: nat, kills: Process -> Kill,
                                 i: nat)
    requires i < |targets| && FirstFailure(targets[..i], listings, base, kills).None?
    requires StopFailure(targets[i], listings(base + i), kills(targets[i])).Some?
    ensures FirstFailure(targets, listings, base, kills)
      == StopFailure(targets[i], listings(base + i), kills(targets[i]))
  {
    OneMoreTarget(targets, listings, base, kills, i);
    FailureStays(targets, listings, base, kills, i + 1);
  }

  /** A failure among the first targets is the first failure. */
  lemma {:induction false} FailureStays(targets: seq<Process>, listings: nat -> Listing, base: nat,
                                        kills: Process -> Kill, n: nat)
    requires n <= |targets| && FirstFailure(targets[..n], listings, base, kills).Some?
    ensures FirstFailure(targets, listings, base, kills) == FirstFailure(targets[..n], listings, base, kills)
    decreases |targets|
  {
    if n < |targets| {
      var m := |targets| - 1;
      assert targets[..m][..n] == targets[..n];
      FailureStays(targets[..m], listings, base, kills, n);
    } else {
      assert targets[..n] == targets;
    }
  }

  /** What stands in the way of telling anything to stop: a listing that is not in order, or a quit that failed. */
  function Hindrance(first: Option<Refusal>, quits: bool, second: Option<Refusal>): Option<Refusal>
  {
    if first.Some? then first else if !quits then Some(CommandFailed) else second
  }

  /**
   * Asks the application to quit, tells the known processes that are left to stop, and waits for silence.
   * Signals go only to known processes of the second listing, each while its number still stands for it,
   * and none before both listings were in order.
   */
  method Quiesce(system: TerminalSystem, known: set<string>, naming: Naming)
    returns (r: Waited, ghost targets: seq<Process>)
    modifies system
    ensures var L, t := system.listings, old(system.taken);
      var first, second := Objection(L(t), known, naming), Objection(L(t + 1), known, naming);
      var hindrance, failure := Hindrance(first, system.quits, second), FirstFailure(targets, L, t + 2, system.kills);
      && (first.Some? ==> system.quitAsked == old(system.quitAsked))
      && (hindrance.Some? ==> r == Refused(hindrance.value) && system.signalled == old(system.signalled))
      && (hindrance.None? ==> targets == Known(L(t + 1).value, known))
      && (hindrance.None? ==> Told(old(system.signalled), system.signalled, targets, L, t + 2, failure.None?))
      && (hindrance.None? && failure.Some? ==> r == Refused(failure.value))
      && (hindrance.None? && failure.None? ==> Wait(L, t + 2 + |targets|, targets, known, naming).Ends(r))
  {
    hide Objection, Known, FirstFailure, Present, Wait.Ends;
    targets := [];
    var objection, list := CheckedInventory(system, known, naming);
    if objection.Some? { return Refused(objection.value), []; }
    var ok := system.QuitGui();
    if !ok { return Refused(CommandFailed), []; }
    objection, list := CheckedInventory(system, known, naming);
    if objection.Some? { return Refused(objection.value), []; }
    var found := Known(list, known);
    targets := found;
    var failure := TerminateAll(system, found);
    if failure.Some? { return Refused(failure.value), targets; }
    r := AwaitSilence(system, found, known, naming);
  }
}
