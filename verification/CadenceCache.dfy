/**
 * The cached cadence plan: database triggers count every change of notes and relations, a rebuild
 * draws a fresh generation, and a computed plan is pasted in only if neither has moved since the
 * snapshot it was computed from. Any number of connections and stale computations may be in flight.
 */
module CadenceCache {
  import opened Wrappers

  /** The rows the planner reads. */
  datatype Sources = Sources(notes: map<string, string>, relations: set<(string, string, string)>)

  /** Which binary computed or asks: its cache format and its planner profile. */
  datatype Dialect = Dialect(format: string, profile: string)

  datatype Plan = Plan(checkpoint: string, lineage: nat)

  type Planner = (Dialect, Sources) -> Plan

  datatype Cached = Cached(revision: nat, dialect: Dialect, plan: Plan)

  datatype Row = Row(generation: string, revision: nat, cached: Option<Cached>)

  /** One state of the database; intact says that the cache table and all its triggers exist. */
  datatype View = View(sources: Sources, row: Row, intact: bool)

  datatype Token = Token(generation: string, revision: nat)

  datatype Prepared = Prepared(token: Token, dialect: Dialect, plan: Plan)

  function TokenOf(v: View): Token
  {
    Token(v.row.generation, v.row.revision)
  }

  // ---- the statements ----

  /** One row of notes or relations changes; every trigger that still exists counts it. */
  function Changed(v: View, sources: Sources, counted: nat): View
  {
    v.(sources := sources, row := v.row.(revision := v.row.revision + if v.intact then 1 else counted))
  }

  function Rebuilt(v: View, generation: string): View
  {
    v.(row := Row(generation, 0, None), intact := true)
  }

  function Prepare(planner: Planner, v: View, d: Dialect): Option<Prepared>
  {
    if v.intact then Some(Prepared(TokenOf(v), d, planner(d, v.sources))) else None
  }

  /** The guarded update. It does not look at the triggers. */
  function Published(v: View, p: Prepared): View
  {
    if TokenOf(v) == p.token then v.(row := v.row.(cached := Some(Cached(p.token.revision, p.dialect, p.plan)))) else v
  }

  function Lookup(v: View, d: Dialect): Option<Plan>
  {
    if v.intact && v.row.cached.Some? && v.row.cached.value.revision == v.row.revision &&
      v.row.cached.value.dialect == d
    then Some(v.row.cached.value.plan) else None
  }

  // ---- all connections together ----

  datatype World = World(
    committed: View,
    /** What the single writing transaction sees, while one is open. */
    writing: Option<View>,
    inFlight: set<Prepared>,
    // what happened so far
    views: set<View>,
    tokens: map<Token, Sources>,
    generations: set<string>)

  datatype Event =
    | Begin
    | Change(sources: Sources, counted: nat)
    | LoseTriggers
    | Rebuild(generation: string)
    | Commit
    | Abort
    | Compute(snapshot: View, dialect: Dialect)
    | Publish(prepared: Prepared)

  function Committed(w: World, v: View): World
  {
    w.(committed := v, writing := None, views := w.views + {v},
       tokens := if v.intact then w.tokens[TokenOf(v) := v.sources] else w.tokens)
  }

  /** The effect of an event; an event that cannot happen now changes nothing. */
  function Apply(planner: Planner, w: World, ev: Event): World
  {
    match ev
    case Begin => if w.writing.None? then w.(writing := Some(w.committed)) else w
    case Change(sources, counted) =>
      if w.writing.Some? then w.(writing := Some(Changed(w.writing.value, sources, counted))) else w
    case LoseTriggers =>
      if w.writing.Some? then w.(writing := Some(w.writing.value.(intact := false))) else w
    case Rebuild(generation) =>
      if w.writing.Some? && generation !in w.generations
      then w.(writing := Some(Rebuilt(w.writing.value, generation)), generations := w.generations + {generation}) else w
    case Commit => if w.writing.Some? then Committed(w, w.writing.value) else w
    case Abort => w.(writing := None)
    case Compute(snapshot, dialect) =>
      var p := Prepare(planner, snapshot, dialect);
      if snapshot in w.views && p.Some? then w.(inFlight := w.inFlight + {p.value}) else w
    case Publish(prepared) =>
      if prepared in w.inFlight && w.writing.None? then Committed(w, Published(w.committed, prepared)) else w
  }

  function Run(planner: Planner, w: World, events: seq<Event>): World
  {
    if events == [] then w else Apply(planner, Run(planner, w, events[..|events| - 1]), events[|events| - 1])
  }

  lemma RunOfNone(planner: Planner, w: World, events: seq<Event>)
    requires events == []
    ensures Run(planner, w, events) == w
  {
  }

  lemma RunOneMore(planner: Planner, w: World, events: seq<Event>, i: nat)
    requires i < |events|
    ensures Run(planner, w, events[..i + 1]) == Apply(planner, Run(planner, w, events[..i]), events[i])
  {
    hide Apply;
    assert events[..i + 1][..i] == events[..i] && events[..i + 1][i] == events[i];
  }

  lemma ComputedStaysComputed(planner: Planner, w: World, ev: Event)
    ensures w.inFlight <= Apply(planner, w, ev).inFlight
  {
  }

  function Created(sources: Sources, generation: string): World
  {
    var v := View(sources, Row(generation, 0, None), true);
    World(v, None, {}, {v}, map[TokenOf(v) := sources], {generation})
  }

  // ---- the invariant ----

  /** An intact view shows the sources its token stands for. */
  predicate Faithful(w: World, v: View)
  {
    v.intact ==> TokenOf(v) in w.tokens && w.tokens[TokenOf(v)] == v.sources
  }

  predicate SoundPlan(planner: Planner, w: World, t: Token, d: Dialect, plan: Plan)
  {
    t in w.tokens && plan == planner(d, w.tokens[t])
  }

  /** A cached plan belongs to the sources of the token it was pasted at. */
  predicate SoundCache(planner: Planner, w: World, v: View)
  {
    v.row.cached.Some? ==>
      var c := v.row.cached.value;
      c.revision <= v.row.revision && SoundPlan(planner, w, Token(v.row.generation, c.revision), c.dialect, c.plan)
  }

  /** The writer is ahead of the committed state, or works on a generation nobody has seen. */
  ghost predicate SoundWriter(planner: Planner, w: World, v: View)
  {
    && v.row.generation in w.generations
    && (if v.row.generation == w.committed.row.generation then
          && w.committed.row.revision <= v.row.revision
          && v.row.cached == w.committed.row.cached
          && (v.intact ==>
            w.committed.intact && (v.row.revision == w.committed.row.revision ==> v.sources == w.committed.sources))
        else
          && v.row.cached.None?
          && forall t :: t in w.tokens ==> t.generation != v.row.generation)
  }

  ghost predicate Invariant(planner: Planner, w: World)
  {
    && w.committed in w.views
    && w.committed.row.generation in w.generations
    && (forall v :: v in w.views ==> Faithful(w, v) && SoundCache(planner, w, v))
    && (forall t :: t in w.tokens ==> t.generation in w.generations)
    && (forall t :: t in w.tokens && t.generation == w.committed.row.generation ==>
      t.revision <= w.committed.row.revision)
    && (forall p :: p in w.inFlight ==> SoundPlan(planner, w, p.token, p.dialect, p.plan))
    && (w.writing.Some? ==> SoundWriter(planner, w, w.writing.value))
  }

  lemma CommitKeepsInvariant(planner: Planner, w: World, v: View)
    requires Invariant(planner, w) && SoundWriter(planner, w, v) && SoundCache(planner, w, v)
    ensures Invariant(planner, Committed(w, v))
  {
    var t := Committed(w, v);
    assert Faithful(w, w.committed);
    assert v.intact && TokenOf(v) in w.tokens ==> w.tokens[TokenOf(v)] == v.sources;
    forall u | u in t.views ensures Faithful(t, u) && SoundCache(planner, t, u) {
      assert u == v || (Faithful(w, u) && SoundCache(planner, w, u));
    }
    forall p | p in t.inFlight ensures SoundPlan(planner, t, p.token, p.dialect, p.plan) {
      assert SoundPlan(planner, w, p.token, p.dialect, p.plan);
    }
  }

  lemma PublishKeepsInvariant(planner: Planner, w: World, p: Prepared)
    requires Invariant(planner, w) && w.writing.None? && p in w.inFlight
    ensures Invariant(planner, Committed(w, Published(w.committed, p)))
  {
    var v := Published(w.committed, p);
    var t := Committed(w, v);
    assert Faithful(w, w.committed) && SoundCache(planner, w, w.committed);
    assert SoundPlan(planner, w, p.token, p.dialect, p.plan);
    assert v.intact ==> t.tokens == w.tokens;
    forall u | u in t.views ensures Faithful(t, u) && SoundCache(planner, t, u) {
      assert u == v || (Faithful(w, u) && SoundCache(planner, w, u));
    }
    forall q | q in t.inFlight ensures SoundPlan(planner, t, q.token, q.dialect, q.plan) {
      assert SoundPlan(planner, w, q.token, q.dialect, q.plan);
    }
  }

  lemma EventKeepsInvariant(planner: Planner, w: World, ev: Event)
    requires Invariant(planner, w)
    ensures Invariant(planner, Apply(planner, w, ev))
  {
    match ev {
      case Commit =>
        if w.writing.Some? {
          assert SoundCache(planner, w, w.committed);
          CommitKeepsInvariant(planner, w, w.writing.value);
        }
      case Publish(prepared) =>
        if prepared in w.inFlight && w.writing.None? {
          PublishKeepsInvariant(planner, w, prepared);
        }
      case Compute(snapshot, dialect) =>
        if snapshot in w.views {
          assert Faithful(w, snapshot);
        }
        UntouchedRecordsKeepViews(planner, w, Apply(planner, w, ev));
      case _ =>
        UntouchedRecordsKeepViews(planner, w, Apply(planner, w, ev));
    }
  }

  /** Views keep their standing as long as the record of tokens does. */
  lemma UntouchedRecordsKeepViews(planner: Planner, w: World, t: World)
    requires Invariant(planner, w) && t.tokens == w.tokens && t.views == w.views
    ensures forall v :: v in t.views ==> Faithful(t, v) && SoundCache(planner, t, v)
  {
    forall v | v in t.views ensures Faithful(t, v) && SoundCache(planner, t, v) {
      assert Faithful(w, v) && SoundCache(planner, w, v);
    }
  }

  lemma {:induction false} RunKeepsInvariant(planner: Planner, sources: Sources, generation: string, events: seq<Event>)
    ensures Invariant(planner, Run(planner, Created(sources, generation), events))
  {
    if events != [] {
      RunKeepsInvariant(planner, sources, generation, events[..|events| - 1]);
      EventKeepsInvariant(planner, Run(planner, Created(sources, generation), events[..|events| - 1]),
        events[|events| - 1]);
    }
  }

  // ---- what readers may rely on ----

  /**
   * Whatever a binary finds in the cache, in any committed state or inside the open writing
   * transaction, is what it would compute from the notes and relations it sees there.
   */
  lemma CacheAgreesWithRecomputing(planner: Planner, sources: Sources, generation: string, events: seq<Event>, v: View,
                                   d: Dialect)
    requires var w := Run(planner, Created(sources, generation), events); v in w.views || w.writing == Some(v)
    ensures Lookup(v, d).Some? ==> Lookup(v, d).value == planner(d, v.sources)
  {
    var w := Run(planner, Created(sources, generation), events);
    RunKeepsInvariant(planner, sources, generation, events);
    assert Faithful(w, w.committed) && SoundCache(planner, w, w.committed);
    if v in w.views {
      assert Faithful(w, v) && SoundCache(planner, w, v);
    }
  }

  /** Two committed states with the same change token show the same notes and relations. */
  lemma EqualTokensMeanUnchanged(planner: Planner, sources: Sources, generation: string, events: seq<Event>, u: View,
                                 v: View)
    requires var w := Run(planner, Created(sources, generation), events); u in w.views && v in w.views
    requires u.intact && v.intact && TokenText(TokenOf(u)) == TokenText(TokenOf(v))
    requires ':' !in u.row.generation && ':' !in v.row.generation
    ensures u.sources == v.sources
  {
    var w := Run(planner, Created(sources, generation), events);
    RunKeepsInvariant(planner, sources, generation, events);
    TokenTextDetermines(TokenOf(u), TokenOf(v));
    assert Faithful(w, u) && Faithful(w, v);
  }

  // ---- how changes reach the readers ----

  /** What a reader sees, apart from the cached plan, changes only when a writer commits. */
  lemma OnlyCommitReachesReaders(planner: Planner, w: World, ev: Event)
    ensures var t := Apply(planner, w, ev);
      && (ev.Commit? && w.writing.Some? ==> t.committed == w.writing.value && t.writing.None?)
      && (!ev.Commit? || w.writing.None? ==>
            && t.committed.sources == w.committed.sources && t.committed.intact == w.committed.intact
            && t.committed.row.generation == w.committed.row.generation
            && t.committed.row.revision == w.committed.row.revision)
      && (!ev.Publish? && !ev.Commit? ==>
            t.committed == w.committed && t.views == w.views && t.tokens == w.tokens)
      && (ev.Abort? ==> t.writing.None?)
  {
  }

  /** Readers see what the last committing writer saw at its commit, whatever happens afterwards without another. */
  lemma {:induction false} ReadersSeeTheLastCommit(planner: Planner, w: World, events: seq<Event>)
    requires forall i :: 0 <= i < |events| ==> events[i] != Commit
    ensures var t := Run(planner, w, events);
      && t.committed.sources == w.committed.sources && t.committed.intact == w.committed.intact
      && t.committed.row.generation == w.committed.row.generation
      && t.committed.row.revision == w.committed.row.revision
  {
    hide Apply;
    if events != [] {
      var before := events[..|events| - 1];
      assert forall i :: 0 <= i < |before| ==> before[i] == events[i];
      ReadersSeeTheLastCommit(planner, w, before);
      OnlyCommitReachesReaders(planner, Run(planner, w, before), events[|events| - 1]);
    }
  }

  /** The statements that a writing transaction is made of. */
  predicate IsStatement(ev: Event)
  {
    ev.Change? || ev.LoseTriggers? || ev.Rebuild?
  }

  /** While a writer is at work nothing of it is in the database, so that a rollback takes it all back. */
  lemma {:induction false} StatementsStayWithTheWriter(planner: Planner, w: World, statements: seq<Event>)
    requires w.writing.Some? && forall i :: 0 <= i < |statements| ==> IsStatement(statements[i])
    ensures var t := Run(planner, w, statements);
      t.writing.Some? && t.committed == w.committed && t.views == w.views && t.tokens == w.tokens
  {
    if statements != [] {
      var before := statements[..|statements| - 1];
      assert forall i :: 0 <= i < |before| ==> before[i] == statements[i];
      StatementsStayWithTheWriter(planner, w, before);
      assert IsStatement(statements[|statements| - 1]);
    }
  }

  /** A transaction that is rolled back was never there; one that commits shows its last view. */
  lemma TransactionsAreAtomic(planner: Planner, w: World, statements: seq<Event>)
    requires w.writing.None? && forall i :: 0 <= i < |statements| ==> IsStatement(statements[i])
    ensures var t := Run(planner, w, [Begin] + statements + [Abort]);
      t.committed == w.committed && t.views == w.views && t.tokens == w.tokens && t.writing.None?
    ensures var last := Run(planner, w.(writing := Some(w.committed)), statements);
      last.writing.Some? && Run(planner, w, [Begin] + statements + [Commit]).committed == last.writing.value
  {
    var begun := w.(writing := Some(w.committed));
    StatementsStayWithTheWriter(planner, begun, statements);
    RunOfNone(planner, w, []);
    assert [Begin][..0] == [] && Run(planner, w, [Begin]) == begun;
    RunInTwoParts(planner, w, [Begin], statements);
    RunInTwoParts(planner, w, [Begin] + statements, [Abort]);
    RunInTwoParts(planner, w, [Begin] + statements, [Commit]);
    var last := Run(planner, begun, statements);
    assert [Abort][..0] == [] && Run(planner, last, [Abort]) == Apply(planner, last, Abort);
    assert [Commit][..0] == [] && Run(planner, last, [Commit]) == Apply(planner, last, Commit);
  }

  lemma {:induction false} RunInTwoParts(planner: Planner, w: World, first: seq<Event>, second: seq<Event>)
    ensures Run(planner, w, first + second) == Run(planner, Run(planner, w, first), second)
  {
    hide Apply;
    var n := |second|;
    if n == 0 {
      assert first + second == first;
    } else {
      RunInTwoParts(planner, w, first, second[..n - 1]);
      assert (first + second)[..|first| + n - 1] == first + second[..n - 1];
    }
  }

  /** With all triggers in place every changed row counts once, and the last change is what the writer sees. */
  lemma {:induction false} EveryChangedRowCounts(planner: Planner, w: World, changes: seq<Event>)
    requires w.writing.Some? && w.writing.value.intact
    requires forall i :: 0 <= i < |changes| ==> changes[i].Change?
    ensures var t := Run(planner, w, changes);
      && t.writing.Some? && t.writing.value.intact
      && t.writing.value.row
         == Row(w.writing.value.row.generation, w.writing.value.row.revision + |changes|, w.writing.value.row.cached)
      && t.writing.value.sources
         == if changes == [] then w.writing.value.sources else changes[|changes| - 1].sources
  {
    if changes != [] {
      var before := changes[..|changes| - 1];
      assert forall i :: 0 <= i < |before| ==> before[i] == changes[i];
      EveryChangedRowCounts(planner, w, before);
      assert changes[|changes| - 1].Change?;
    }
  }

  // ---- the token as text ----

  function Decimal(n: nat): (s: string)
    ensures |s| > 0
  {
    var digit := ['0' + (n % 10) as char];
    if n < 10 then digit else Decimal(n / 10) + digit
  }

  function TokenText(t: Token): string
  {
    t.generation + ":" + Decimal(t.revision)
  }

  /** The number that decimal digits stand for. */
  function DigitsValue(s: string): int
  {
    if s == [] then 0 else DigitsValue(s[..|s| - 1]) * 10 + s[|s| - 1] as int - 0x30
  }

  lemma {:induction false} DecimalSpells(n: nat)
    ensures DigitsValue(Decimal(n)) == n
    ensures forall i :: 0 <= i < |Decimal(n)| ==> '0' <= Decimal(n)[i] <= '9'
    ensures n > 0 ==> Decimal(n)[0] != '0'
  {
    var s := Decimal(n);
    assert s[|s| - 1] as int == 0x30 + n % 10;
    if n < 10 {
      assert DigitsValue(s[..0]) == 0;
    } else {
      assert s[..|s| - 1] == Decimal(n / 10);
      DecimalSpells(n / 10);
    }
  }

  lemma DecimalDetermines(m: nat, n: nat)
    requires Decimal(m) == Decimal(n)
    ensures m == n
  {
    DecimalSpells(m);
    DecimalSpells(n);
  }

  function BeforeColon(s: string): string
  {
    if s == [] || s[0] == ':' then [] else [s[0]] + BeforeColon(s[1..])
  }

  lemma {:induction false} FirstColonEnds(g: string, rest: string)
    requires ':' !in g
    ensures BeforeColon(g + ":" + rest) == g
  {
    var s := g + ":" + rest;
    if g != [] {
      assert s[0] == g[0] && s[1..] == g[1..] + ":" + rest;
      FirstColonEnds(g[1..], rest);
    }
  }

  /** A generation is hexadecimal, so the first colon ends it. */
  lemma TokenTextDetermines(t: Token, u: Token)
    requires ':' !in t.generation && ':' !in u.generation
    requires TokenText(t) == TokenText(u)
    ensures t == u
  {
    var a, b := TokenText(t), TokenText(u);
    FirstColonEnds(t.generation, Decimal(t.revision));
    FirstColonEnds(u.generation, Decimal(u.revision));
    assert a[..|t.generation|] == t.generation && b[..|u.generation|] == u.generation;
    assert a[|t.generation| + 1..] == Decimal(t.revision) && b[|u.generation| + 1..] == Decimal(u.revision);
    DecimalDetermines(t.revision, u.revision);
  }

  // ---- the database as its connections change it ----

  class Database {
    const planner: Planner
    var committed: View
    var writing: Option<View>
    // what the surroundings remember
    var inFlight: set<Prepared>
    var views: set<View>
    var tokens: map<Token, Sources>
    var generations: set<string>

    function Everything(): World
      reads this
    {
      World(committed, writing, inFlight, views, tokens, generations)
    }

    ghost predicate Valid()
      reads this
    {
      Invariant(planner, Everything())
    }

    /** What is remembered of the past is as it was. */
    predicate Recalls(before: World)
      reads this
    {
      views == before.views && tokens == before.tokens && inFlight == before.inFlight &&
        generations == before.generations
    }

    constructor (planner: Planner, sources: Sources, generation: string)
      ensures this.planner == planner && Everything() == Created(sources, generation) && Valid()
    {
      this.planner := planner;
      var v := View(sources, Row(generation, 0, None), true);
      committed, writing := v, None;
      inFlight, views, tokens, generations := {}, {v}, map[TokenOf(v) := sources], {generation};
    }

    /**
     * Bookkeeping: after an effect on the database, the fields that only remember what happened follow the
     * specification by assignment. The effect itself is what the calling method has to get right.
     */
    method Record(before: World, ev: Event)
      requires Invariant(planner, before)
      requires committed == Apply(planner, before, ev).committed && writing == Apply(planner, before, ev).writing
      modifies this`inFlight, this`views, this`tokens, this`generations
      ensures Everything() == Apply(planner, before, ev) && Valid()
    {
      EventKeepsInvariant(planner, before, ev);
      var w := Apply(planner, before, ev);
      inFlight, views, tokens, generations := w.inFlight, w.views, w.tokens, w.generations;
    }

    method BeginWrite()
      requires Valid()
      modifies this
      ensures Valid() && Everything() == Apply(planner, old(Everything()), Begin)
      ensures Recalls(old(Everything())) && committed == old(committed)
      ensures writing == if old(writing).None? then Some(committed) else old(writing)
    {
      var before := Everything();
      if writing.None? {
        writing := Some(committed);
      }
      Record(before, Begin);
    }

    /** A statement touching one row of notes or relations, followed by its trigger if that exists. */
    method ChangeRow(sources: Sources, counted: nat)
      requires Valid()
      modifies this
      ensures Valid() && Everything() == Apply(planner, old(Everything()), Change(sources, counted))
      ensures Recalls(old(Everything())) && committed == old(committed) && writing.Some? == old(writing).Some?
      ensures writing.Some? ==>
        var u, v := old(writing).value, writing.value;
        && v.sources == sources && v.intact == u.intact
        && v.row.generation == u.row.generation && v.row.cached == u.row.cached
        && v.row.revision == u.row.revision + if u.intact then 1 else counted
      ensures writing.Some? && writing.value.intact ==> forall d :: Lookup(writing.value, d).None?
    {
      var before := Everything();
      if writing.Some? {
        var row := writing.value.row;
        if writing.value.intact {
          row := row.(revision := row.revision + 1);
        } else {
          row := row.(revision := row.revision + counted);
        }
        writing := Some(View(sources, row, writing.value.intact));
      }
      Record(before, Change(sources, counted));
    }

    method DropObjects()
      requires Valid()
      modifies this
      ensures Valid() && Everything() == Apply(planner, old(Everything()), LoseTriggers)
      ensures Recalls(old(Everything())) && committed == old(committed) && writing.Some? == old(writing).Some?
      ensures writing.Some? ==>
        && writing.value.sources == old(writing).value.sources && writing.value.row == old(writing).value.row
        && !writing.value.intact
    {
      var before := Everything();
      if writing.Some? {
        writing := Some(writing.value.(intact := false));
      }
      Record(before, LoseTriggers);
    }

    /** Drops and recreates the table and its triggers; the random generation has never been drawn before. */
    method RebuildObjects(generation: string)
      requires Valid() && generation !in generations
      modifies this
      ensures Valid() && Everything() == Apply(planner, old(Everything()), Rebuild(generation))
      ensures committed == old(committed) && writing.Some? == old(writing).Some?
      ensures writing.Some? ==>
        && writing.value.sources == old(writing).value.sources && writing.value.intact
        && writing.value.row.generation == generation && writing.value.row.revision == 0
        && writing.value.row.cached.None? && generation in generations
    {
      var before := Everything();
      if writing.Some? {
        writing := Some(View(writing.value.sources, Row(generation, 0, None), true));
      }
      Record(before, Rebuild(generation));
    }

    method EndWrite(commit: bool)
      requires Valid()
      modifies this
      ensures Valid() && Everything() == Apply(planner, old(Everything()), if commit then Commit else Abort)
      ensures writing.None?
      ensures !commit || old(writing).None? ==> Recalls(old(Everything())) && committed == old(committed)
      ensures commit && old(writing).Some? ==>
        && committed == old(writing).value && committed in views && views == old(views) + {committed}
        && (committed.intact ==>
              tokens == old(tokens)[Token(committed.row.generation, committed.row.revision) := committed.sources])
        && (!committed.intact ==> tokens == old(tokens))
    {
      var before := Everything();
      if commit && writing.Some? {
        committed := writing.value;
      }
      writing := None;
      Record(before, if commit then Commit else Abort);
    }

    /** Computes a plan inside a read snapshot; refuses when a trigger is missing there. */
    method ComputeAt(snapshot: View, dialect: Dialect) returns (p: Option<Prepared>)
      requires Valid() && snapshot in views
      modifies this
      ensures Valid() && Everything() == Apply(planner, old(Everything()), Compute(snapshot, dialect))
      ensures p == Prepare(planner, snapshot, dialect) && (p.Some? ==> p.value in inFlight)
      ensures p.Some? == snapshot.intact
      ensures p.Some? ==>
        && p.value.token.generation == snapshot.row.generation && p.value.token.revision == snapshot.row.revision
        && p.value.dialect == dialect && p.value.plan == planner(dialect, snapshot.sources)
      ensures committed == old(committed) && writing == old(writing)
    {
      var before := Everything();
      p := None;
      if snapshot.intact {
        var plan := planner(dialect, snapshot.sources);
        p := Some(Prepared(Token(snapshot.row.generation, snapshot.row.revision), dialect, plan));
      }
      Record(before, Compute(snapshot, dialect));
    }

    /** The guarded update; another connection's open write makes it fail. */
    method PasteIn(p: Prepared)
      requires Valid() && p in inFlight
      modifies this
      ensures Valid() && Everything() == Apply(planner, old(Everything()), Publish(p))
      ensures writing == old(writing)
      ensures committed.sources == old(committed).sources && committed.intact == old(committed).intact
      ensures committed.row.generation == old(committed).row.generation
      ensures committed.row.revision == old(committed).row.revision
      ensures var fits := old(writing).None? && old(committed).row.generation == p.token.generation &&
          old(committed).row.revision == p.token.revision;
        && (!fits ==> committed == old(committed))
        && (fits ==> committed.row.cached == Some(Cached(p.token.revision, p.dialect, p.plan)))
    {
      var before := Everything();
      if writing.None? {
        var row := committed.row;
        if row.revision == p.token.revision && row.generation == p.token.generation {
          committed := committed.(row := row.(cached := Some(Cached(p.token.revision, p.dialect, p.plan))));
        }
      }
      Record(before, Publish(p));
    }

    method CachedPlan(dialect: Dialect) returns (found: Option<Plan>)
      requires Valid()
      ensures found == Lookup(committed, dialect)
      ensures found.Some? <==>
        && committed.intact && committed.row.cached.Some?
        && committed.row.cached.value.revision == committed.row.revision
        && committed.row.cached.value.dialect.format == dialect.format
        && committed.row.cached.value.dialect.profile == dialect.profile
      ensures found.Some? ==> found == Some(committed.row.cached.value.plan)
      ensures found.Some? ==> committed.intact && found.value == planner(dialect, committed.sources)
    {
      found := None;
      if committed.intact && committed.row.cached.Some? {
        var c := committed.row.cached.value;
        if c.revision == committed.row.revision && c.dialect == dialect {
          found := Some(c.plan);
        }
      }
      assert Faithful(Everything(), committed) && SoundCache(planner, Everything(), committed);
    }

    /**
     * Bookkeeping: what other connections do between this connection's snapshot and its update. They follow the
     * specification by assignment; the methods above say the same of this connection.
     */
    method Meanwhile(events: seq<Event>)
      requires Valid()
      modifies this
      ensures Valid() && Everything() == Run(planner, old(Everything()), events)
      ensures old(inFlight) <= inFlight
    {
      hide Run, Apply, Invariant;
      RunOfNone(planner, Everything(), events[..0]);
      for i := 0 to |events|
        invariant Valid() && Everything() == Run(planner, old(Everything()), events[..i])
        invariant old(inFlight) <= inFlight
      {
        RunOneMore(planner, old(Everything()), events, i);
        ComputedStaysComputed(planner, Everything(), events[i]);
        var before := Everything();
        var after := Apply(planner, before, events[i]);
        committed, writing := after.committed, after.writing;
        Record(before, events[i]);
      }
      assert events[..|events|] == events;
    }

    /** Warms the cache: looks, computes in the same snapshot, and updates after others had their turn. */
    method Refresh(dialect: Dialect, others: seq<Event>)
      requires Valid()
      modifies this
      ensures Valid()
      ensures others == [] && writing.None? && committed.intact ==>
        Lookup(committed, dialect) == Some(planner(dialect, committed.sources)) &&
          committed.sources == old(committed.sources)
    {
      var found := CachedPlan(dialect);
      if found.Some? {
        return;
      }
      var prepared := ComputeAt(committed, dialect);
      if prepared.None? {
        return;
      }
      Meanwhile(others);
      PasteIn(prepared.value);
    }
  }
}
