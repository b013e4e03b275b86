/**
 * Taking one registration out of a configuration file that another program owns. The original is
 * first kept in a private backup; a run may be interrupted at any write and started again.
 * JSON text and the hash function are parameters.
 */
module ConfigRetirement {
  import opened Wrappers

  // ---- the change ----

  datatype Json =
    | Object(members: seq<(string, Json)>)
    | Array(items: seq<Json>)
    | Text(value: string)
    | Other(raw: string)

  datatype Codec = Codec(parse: string -> Option<Json>, dump: Json -> string, digest: string -> string)

  datatype Error =
    | Malformed
    | DuplicateKey
    | ShapeMismatch
    | RegistrationChanged
    | OwnerMismatch
    | ConfigChanged
    | ChangedAfterReplace
    | BackupConflict

  function Get(members: seq<(string, Json)>, key: string): Option<Json>
  {
    if members == [] then None
    else if members[0].0 == key then Some(members[0].1)
    else Get(members[1..], key)
  }

  function Delete(members: seq<(string, Json)>, key: string): seq<(string, Json)>
  {
    if members == [] then []
    else if members[0].0 == key then members[1..]
    else [members[0]] + Delete(members[1..], key)
  }

  function Put(members: seq<(string, Json)>, key: string, value: Json): seq<(string, Json)>
  {
    if members == [] then []
    else if members[0].0 == key then [(key, value)] + members[1..]
    else [members[0]] + Put(members[1..], key, value)
  }

  predicate UniqueKeys(members: seq<(string, Json)>)
  {
    members == [] || (Get(members[1..], members[0].0).None? && UniqueKeys(members[1..]))
  }

  /** No object anywhere has a key twice. */
  predicate Unique(json: Json)
    decreases json
  {
    match json
    case Object(members) => UniqueKeys(members) && forall m :: m in members ==> Unique(m.1)
    case Array(items) => forall item :: item in items ==> Unique(item)
    case _ => true
  }

  const SERVERS := "mcpServers"
  const NAME := "kb-app"

  /** The value without the registration; it must be there and start the given program. */
  function Retired(value: Json, legacy: string): Result<Json, Error>
  {
    if !value.Object? then Err(ShapeMismatch)
    else
      var servers := Get(value.members, SERVERS);
      if servers.None? || !servers.value.Object? then Err(ShapeMismatch)
      else
        var entry := Get(servers.value.members, NAME);
        if entry.None? || !entry.value.Object? || Get(entry.value.members, "command") != Some(Text(legacy)) then
          Err(RegistrationChanged)
        else Ok(Object(Put(value.members, SERVERS, Object(Delete(servers.value.members, NAME)))))
  }

  function WithoutRegistration(codec: Codec, original: string, legacy: string): Result<string, Error>
  {
    var value := codec.parse(original);
    if value.None? then Err(Malformed)
    else if !Unique(value.value) then Err(DuplicateKey)
    else
      var retired := Retired(value.value, legacy);
      if retired.Err? then Err(retired.error) else Ok(codec.dump(retired.value) + "\n")
  }

  /** The value at a path of keys. */
  function At(json: Json, path: seq<string>): Option<Json>
    decreases |path|
  {
    if path == [] then Some(json)
    else if !json.Object? then None
    else
      var child := Get(json.members, path[0]);
      if child.None? then None else At(child.value, path[1..])
  }

  lemma {:induction false} DeleteKeepsOthers(members: seq<(string, Json)>, key: string, other: string)
    requires UniqueKeys(members)
    ensures Get(Delete(members, key), other) == if other == key then None else Get(members, other)
  {
    if members != [] && members[0].0 != key {
      DeleteKeepsOthers(members[1..], key, other);
    }
  }

  lemma {:induction false} PutKeepsOthers(members: seq<(string, Json)>, key: string, value: Json, other: string)
    requires Get(members, key).Some?
    ensures Get(Put(members, key, value), other) == if other == key then Some(value) else Get(members, other)
  {
    if members[0].0 != key {
      PutKeepsOthers(members[1..], key, value, other);
    }
  }

  function Keys(members: seq<(string, Json)>): seq<string>
  {
    if members == [] then [] else [members[0].0] + Keys(members[1..])
  }

  lemma {:induction false} PutKeepsKeys(members: seq<(string, Json)>, key: string, value: Json)
    ensures Keys(Put(members, key, value)) == Keys(members)
  {
    if members != [] && members[0].0 != key {
      PutKeepsKeys(members[1..], key, value);
    }
  }

  /** One key goes; the others stay in their order. */
  lemma {:induction false} DeleteTakesOneKey(members: seq<(string, Json)>, key: string) returns (i: nat)
    requires Get(members, key).Some?
    ensures i < |Keys(members)| && Keys(members)[i] == key
    ensures Keys(Delete(members, key)) == Keys(members)[..i] + Keys(members)[i + 1..]
  {
    if members[0].0 == key {
      i := 0;
      assert Keys(members)[1..] == Keys(members[1..]);
    } else {
      var j := DeleteTakesOneKey(members[1..], key);
      i := j + 1;
      assert Keys(members)[..i] == [members[0].0] + Keys(members[1..])[..j];
      assert Keys(members)[i + 1..] == Keys(members[1..])[j + 1..];
    }
  }

  lemma {:induction false} GetIsMember(members: seq<(string, Json)>, key: string)
    ensures Get(members, key).Some? ==> (key, Get(members, key).value) in members
  {
    if members != [] && members[0].0 != key {
      GetIsMember(members[1..], key);
    }
  }

  /** Exactly the registration goes: at every other place there is what there was. */
  lemma OnlyTheRegistrationGoes(value: Json, legacy: string, path: seq<string>)
    requires Unique(value) && Retired(value, legacy).Ok?
    ensures var after := Retired(value, legacy).value;
      && At(value, ["mcpServers", "kb-app"]).Some?
      && (["mcpServers", "kb-app"] <= path ==> At(after, path).None?)
      && (!(["mcpServers", "kb-app"] <= path) && !(path <= ["mcpServers"]) ==> At(after, path) == At(value, path))
  {
    var servers := Get(value.members, SERVERS).value;
    var after := Retired(value, legacy).value;
    GetIsMember(value.members, SERVERS);
    RegistrationIsThere(value, servers);
    if path != [] {
      PutKeepsOthers(value.members, SERVERS, Object(Delete(servers.members, NAME)), path[0]);
      if path[0] == SERVERS && |path| > 1 {
        DeleteKeepsOthers(servers.members, NAME, path[1]);
        assert path[..2] == [SERVERS, path[1]] && path[1..][1..] == path[2..];
        assert path[1] == NAME ==> path[..2] == [SERVERS, NAME];
      } else if path[0] == SERVERS {
        assert path == [SERVERS];
      }
    }
  }

  lemma AtOneKey(json: Json, key: string, path: seq<string>)
    ensures At(json, [key] + path)
      == if !json.Object? || Get(json.members, key).None? then None else At(Get(json.members, key).value, path)
  {
    assert ([key] + path)[1..] == path;
  }

  /** There is something to retire exactly if the program to start under this name is the given one. */
  lemma RetiredIffRegistered(value: Json, legacy: string)
    ensures Retired(value, legacy).Ok? <==> At(value, ["mcpServers", "kb-app", "command"]) == Some(Text(legacy))
    ensures Retired(value, legacy) == Err(ShapeMismatch) <==>
      At(value, ["mcpServers"]).None? || !At(value, ["mcpServers"]).value.Object?
    ensures Retired(value, legacy).Err? ==> Retired(value, legacy).error in {ShapeMismatch, RegistrationChanged}
  {
    AtOneKey(value, "mcpServers", []);
    AtOneKey(value, "mcpServers", ["kb-app", "command"]);
    assert ["mcpServers"] + [] == ["mcpServers"];
    assert ["mcpServers"] + ["kb-app", "command"] == ["mcpServers", "kb-app", "command"];
    if value.Object? && Get(value.members, "mcpServers").Some? {
      var servers := Get(value.members, "mcpServers").value;
      AtOneKey(servers, "kb-app", ["command"]);
      assert ["kb-app"] + ["command"] == ["kb-app", "command"];
      if servers.Object? && Get(servers.members, "kb-app").Some? {
        AtOneKey(Get(servers.members, "kb-app").value, "command", []);
        assert ["command"] + [] == ["command"];
      }
    }
  }

  // ---- duplicate keys ----

  /** The value at a position: at each level the number of a member or of an item. */
  function Inside(json: Json, position: seq<nat>): Option<Json>
    decreases |position|
  {
    if position == [] then Some(json)
    else
      match json
      case Object(members) =>
        if position[0] < |members| then Inside(members[position[0]].1, position[1..]) else None
      case Array(items) => if position[0] < |items| then Inside(items[position[0]], position[1..]) else None
      case _ => None
  }

  predicate NoKeyTwice(json: Json)
  {
    json.Object? ==> forall i, j :: 0 <= i < j < |json.members| ==> json.members[i].0 != json.members[j].0
  }

  lemma {:induction false} GetMissesIffKeyIsNew(members: seq<(string, Json)>, key: string)
    ensures Get(members, key).None? <==> forall i :: 0 <= i < |members| ==> members[i].0 != key
  {
    if members != [] && members[0].0 != key {
      GetMissesIffKeyIsNew(members[1..], key);
      assert forall i :: 0 < i < |members| ==> members[i] == members[1..][i - 1];
      assert forall i :: 0 <= i < |members[1..]| ==> members[1..][i] == members[i + 1];
    }
  }

  lemma {:induction false} UniqueKeysIffNoneTwice(members: seq<(string, Json)>)
    ensures UniqueKeys(members) <==> NoKeyTwice(Object(members))
  {
    if members != [] {
      var rest := members[1..];
      UniqueKeysIffNoneTwice(rest);
      GetMissesIffKeyIsNew(rest, members[0].0);
      assert forall i :: 0 < i < |members| ==> members[i] == rest[i - 1];
      assert forall i :: 0 <= i < |rest| ==> rest[i] == members[i + 1];
    }
  }

  lemma {:induction false} UniqueReachesInside(json: Json, position: seq<nat>)
    requires Unique(json) && Inside(json, position).Some?
    ensures NoKeyTwice(Inside(json, position).value)
    decreases |position|
  {
    if json.Object? {
      UniqueKeysIffNoneTwice(json.members);
    }
    if position != [] {
      if json.Object? {
        assert json.members[position[0]] in json.members;
        UniqueReachesInside(json.members[position[0]].1, position[1..]);
      } else if json.Array? {
        assert json.items[position[0]] in json.items;
        UniqueReachesInside(json.items[position[0]], position[1..]);
      }
    }
  }

  ghost predicate NowhereTwice(json: Json)
  {
    forall position: seq<nat> :: Inside(json, position).Some? ==> NoKeyTwice(Inside(json, position).value)
  }

  lemma NowhereTwiceInside(json: Json, i: nat, child: Json)
    requires NowhereTwice(json) && forall rest: seq<nat> :: Inside(json, [i] + rest) == Inside(child, rest)
    ensures NowhereTwice(child)
  {
    forall rest: seq<nat> | Inside(child, rest).Some? ensures NoKeyTwice(Inside(child, rest).value) {
      assert Inside(json, [i] + rest) == Inside(child, rest);
    }
  }

  /** A configuration is refused for a duplicate key wherever that is, also below arrays. */
  lemma {:induction false} UniqueIffNowhereTwice(json: Json)
    ensures Unique(json) <==> NowhereTwice(json)
    decreases json
  {
    if Unique(json) {
      forall position: seq<nat> | Inside(json, position).Some? ensures NoKeyTwice(Inside(json, position).value) {
        UniqueReachesInside(json, position);
      }
    }
    if NowhereTwice(json) {
      assert Inside(json, []) == Some(json);
      if json.Object? {
        UniqueKeysIffNoneTwice(json.members);
        forall m | m in json.members ensures Unique(m.1) {
          var i: nat :| i < |json.members| && json.members[i] == m;
          forall rest: seq<nat> ensures Inside(json, [i] + rest) == Inside(m.1, rest) {
            assert ([i] + rest)[1..] == rest;
          }
          NowhereTwiceInside(json, i, m.1);
          UniqueIffNowhereTwice(m.1);
        }
      } else if json.Array? {
        forall item | item in json.items ensures Unique(item) {
          var i: nat :| i < |json.items| && json.items[i] == item;
          forall rest: seq<nat> ensures Inside(json, [i] + rest) == Inside(item, rest) {
            assert ([i] + rest)[1..] == rest;
          }
          NowhereTwiceInside(json, i, item);
          UniqueIffNowhereTwice(item);
        }
      }
    }
  }

  lemma RegistrationIsThere(value: Json, servers: Json)
    requires value.Object? && Get(value.members, SERVERS) == Some(servers)
    requires servers.Object? && Get(servers.members, NAME).Some?
    ensures At(value, [SERVERS, NAME]).Some?
  {
    var path := [SERVERS, NAME];
    assert path[1..] == [NAME] && [NAME][1..] == [];
    assert At(value, path) == At(servers, [NAME]);
    assert At(servers, [NAME]) == At(Get(servers.members, NAME).value, []);
  }

  /** The other keys keep their order, above and among the registrations. */
  lemma KeysStayInOrder(value: Json, legacy: string) returns (i: nat)
    requires Retired(value, legacy).Ok?
    ensures var after := Retired(value, legacy).value;
      && Keys(after.members) == Keys(value.members)
      && At(after, [SERVERS]).Some? && At(after, [SERVERS]).value.Object?
    ensures var before, after := Keys(Get(value.members, SERVERS).value.members),
                                 Keys(At(Retired(value, legacy).value, [SERVERS]).value.members);
      i < |before| && before[i] == NAME && after == before[..i] + before[i + 1..]
  {
    var servers := Get(value.members, SERVERS).value;
    var changed := Object(Delete(servers.members, NAME));
    PutKeepsKeys(value.members, SERVERS, changed);
    PutKeepsOthers(value.members, SERVERS, changed, SERVERS);
    assert [SERVERS][1..] == [];
    assert At(Retired(value, legacy).value, [SERVERS]) == At(changed, []);
    i := DeleteTakesOneKey(servers.members, NAME);
  }

  /** What is written cannot be retired again. */
  lemma RetiredOnce(value: Json, legacy: string, other: string)
    requires Unique(value) && Retired(value, legacy).Ok?
    ensures Retired(Retired(value, legacy).value, other) == Err(RegistrationChanged)
  {
    var servers := Get(value.members, SERVERS).value;
    GetIsMember(value.members, SERVERS);
    PutKeepsOthers(value.members, SERVERS, Object(Delete(servers.members, NAME)), SERVERS);
    DeleteKeepsOthers(servers.members, NAME, NAME);
  }

  // ---- the files ----

  /** The configuration and its backup; a private backup belongs to the user and only the user can read it. */
  datatype Files = Files(config: string, owned: bool, backup: Option<string>, private: bool)

  /** The original, what it becomes, and whether that has been done already. */
  datatype State = State(original: string, updated: string, disabled: bool)

  function VerifiedBackup(codec: Codec, files: Files, expected: string): Result<string, Error>
    requires files.backup.Some?
  {
    if files.private && codec.digest(files.backup.value) == expected then Ok(files.backup.value)
      else Err(BackupConflict)
  }

  function ConfigState(codec: Codec, files: Files, expected: string, legacy: string): Result<State, Error>
  {
    if !files.owned then Err(OwnerMismatch)
    else if codec.digest(files.config) == expected then
      var updated := WithoutRegistration(codec, files.config, legacy);
      if updated.Err? then Err(updated.error) else Ok(State(files.config, updated.value, false))
    else if files.backup.None? then Err(ConfigChanged)
    else
      var original := VerifiedBackup(codec, files, expected);
      if original.Err? then Err(original.error)
      else
        var updated := WithoutRegistration(codec, original.value, legacy);
        if updated.Err? then Err(updated.error)
        else if files.config != updated.value then Err(ConfigChanged)
        else Ok(State(original.value, updated.value, true))
  }

  /** What is recognised: the text to retire itself, or its change behind a private backup of it. */
  lemma RecognisedStates(codec: Codec, files: Files, expected: string, legacy: string, original: string,
                         updated: string, disabled: bool)
    ensures ConfigState(codec, files, expected, legacy) == Ok(State(original, updated, disabled)) <==>
      && files.owned && codec.digest(original) == expected
      && WithoutRegistration(codec, original, legacy) == Ok(updated)
      && (if disabled then
            && files.config == updated && codec.digest(files.config) != expected
            && files.backup == Some(original) && files.private
          else files.config == original)
    ensures WithoutRegistration(codec, original, legacy) == Ok(updated) <==>
      && codec.parse(original).Some? && NowhereTwice(codec.parse(original).value)
      && Retired(codec.parse(original).value, legacy).Ok?
      && updated == codec.dump(Retired(codec.parse(original).value, legacy).value) + "\n"
  {
    if codec.parse(original).Some? {
      UniqueIffNowhereTwice(codec.parse(original).value);
    }
  }

  /** The hash under which the configuration is approved. */
  function ApprovedHash(codec: Codec, files: Files, expected: string, legacy: string): Result<string, Error>
  {
    var state := ConfigState(codec, files, expected, legacy);
    if state.Err? then Err(state.error)
    else Ok(codec.digest(if state.value.disabled then state.value.updated else state.value.original))
  }

  /** One write: the backup appears empty, it grows, or the configuration is replaced. */
  predicate Step(before: Files, after: Files, original: string, updated: string)
  {
    || (before.config == original && before.backup.None? && after == before.(backup := Some(""), private := true))
    || (before.config == original && before.backup.Some? && before.private && after.backup.Some?
        && before.backup.value <= after.backup.value <= original && after == before.(backup := after.backup))
    || (before.config == original && before.backup == Some(original) && before.private &&
      after == before.(config := updated))
  }

  /** The configuration is the original or what it becomes, and the latter only behind a whole backup. */
  predicate Safe(files: Files, original: string, updated: string)
  {
    && files.owned
    && (files.config == original || files.config == updated)
    && (files.backup.Some? ==> files.private && files.backup.value <= original)
    && (files.config == updated ==> files.backup == Some(original))
  }

  /** The texts are told apart, as texts and by their hashes. */
  predicate Approved(codec: Codec, original: string, updated: string, expected: string, legacy: string)
  {
    && codec.digest(original) == expected && codec.digest(updated) != expected
    && WithoutRegistration(codec, original, legacy) == Ok(updated)
  }

  lemma StepKeepsSafe(before: Files, after: Files, original: string, updated: string)
    requires Safe(before, original, updated) && original != updated && Step(before, after, original, updated)
    ensures Safe(after, original, updated)
  {
  }

  /** In every safe state a run recognises the same two texts, and knows whether the work is done. */
  lemma SafeIsRecognised(codec: Codec, files: Files, original: string, updated: string, expected: string,
                         legacy: string)
    requires Approved(codec, original, updated, expected, legacy) && Safe(files, original, updated)
    ensures ConfigState(codec, files, expected, legacy) == Ok(State(original, updated, files.config == updated))
    ensures ApprovedHash(codec, files, expected, legacy) == Ok(codec.digest(files.config))
  {
  }

  ghost predicate Chain(history: seq<Files>, original: string, updated: string)
  {
    forall i :: 0 < i < |history| ==> Follows(history, i, original, updated)
  }

  ghost predicate Follows(history: seq<Files>, i: nat, original: string, updated: string)
    requires 0 < i < |history|
  {
    history[i - 1] == history[i] || Step(history[i - 1], history[i], original, updated)
  }

  lemma {:induction false} ChainKeepsSafe(history: seq<Files>, original: string, updated: string)
    requires history != [] && Safe(history[0], original, updated) && original != updated &&
      Chain(history, original, updated)
    ensures forall i :: 0 <= i < |history| ==> Safe(history[i], original, updated)
  {
    var n := |history| - 1;
    if n > 0 {
      forall i | 0 < i < n ensures Follows(history[..n], i, original, updated) {
        assert Follows(history, i, original, updated);
      }
      ChainKeepsSafe(history[..n], original, updated);
      assert Follows(history, n, original, updated) && history[..n][n - 1] == history[n - 1];
      if Step(history[n - 1], history[n], original, updated) {
        StepKeepsSafe(history[n - 1], history[n], original, updated);
      }
    }
  }

  // ---- the run ----

  datatype Outcome = Done(hash: string) | Refused(error: Error) | Interrupted

  /** What a run without interruption does to the files. */
  function Attempt(codec: Codec, files: Files, expected: string, legacy: string): (Files, Outcome)
  {
    var state := ConfigState(codec, files, expected, legacy);
    if state.Err? then (files, Refused(state.error))
    else if state.value.disabled then (files, Done(codec.digest(state.value.updated)))
    else if files.backup.None? then
      (Files(state.value.updated, true, Some(state.value.original), true), Done(codec.digest(state.value.updated)))
    else if VerifiedBackup(codec, files, expected) == Ok(state.value.original) then
      (files.(config := state.value.updated), Done(codec.digest(state.value.updated)))
    else (files, Refused(BackupConflict))
  }

  /** A run without interruption gets as far as replacing the configuration. */
  predicate Replaces(codec: Codec, files: Files, expected: string, legacy: string)
  {
    var state := ConfigState(codec, files, expected, legacy);
    && state.Ok? && !state.value.disabled
    && (files.backup.Some? ==> VerifiedBackup(codec, files, expected) == Ok(state.value.original))
  }

  /**
   * From a safe state a run completes exactly if the backup is not torn; then it leaves the same files and the same
   * hash as every later run.
   */
  lemma CompletesIffBackupIsNotTorn(codec: Codec, files: Files, original: string, updated: string, expected: string,
                                    legacy: string)
    requires Approved(codec, original, updated, expected, legacy) && Safe(files, original, updated)
    ensures var (after, outcome) := Attempt(codec, files, expected, legacy);
      && (outcome.Done? <==> files.backup.None? || files.backup == Some(original))
      && (outcome.Done? ==> after == Files(updated, true, Some(original), true) && outcome.hash == codec.digest(updated)
                            && Attempt(codec, after, expected, legacy) == (after, outcome))
      && (!outcome.Done? ==> after == files && outcome == Refused(BackupConflict))
  {
    SafeIsRecognised(codec, files, original, updated, expected, legacy);
    SafeIsRecognised(codec, Files(updated, true, Some(original), true), original, updated, expected, legacy);
  }

  /** An interrupted first run can leave a torn backup, behind which every later run is refused. */
  lemma BackupCanBeTorn(codec: Codec, original: string, updated: string, expected: string, legacy: string, n: nat)
    returns (history: seq<Files>)
    requires Approved(codec, original, updated, expected, legacy) && n < |original|
    ensures history != [] && history[0] == Files(original, true, None, false) && Chain(history, original, updated)
    ensures var torn := history[|history| - 1];
      Attempt(codec, torn, expected, legacy) == (torn, Refused(BackupConflict))
  {
    var start := Files(original, true, None, false);
    var empty := Files(original, true, Some(""), true);
    var torn := Files(original, true, Some(original[..n]), true);
    history := [start, empty, torn];
    assert Follows(history, 1, original, updated) && Follows(history, 2, original, updated);
    CompletesIffBackupIsNotTorn(codec, torn, original, updated, expected, legacy);
  }

  /** A history that goes on from an earlier one by single writes. */
  ghost predicate GoesOn(before: seq<Files>, after: seq<Files>, original: string, updated: string)
  {
    before <= after && forall i :: 0 < |before| <= i < |after| ==> Follows(after, i, original, updated)
  }

  lemma GoesOnByOne(before: seq<Files>, after: seq<Files>, next: Files, original: string, updated: string)
    requires after != [] && GoesOn(before, after, original, updated) &&
      Step(after[|after| - 1], next, original, updated)
    ensures GoesOn(before, after + [next], original, updated)
  {
    forall i | 0 < |before| <= i < |after + [next]| ensures Follows(after + [next], i, original, updated) {
      assert i < |after| ==> Follows(after, i, original, updated);
    }
  }

  class Machine {
    var files: Files
    /** How many more writes may be interrupted. */
    var faults: nat
    ghost var history: seq<Files>

    ghost predicate Tracked()
      reads this
    {
      history != [] && history[|history| - 1] == files
    }

    constructor (start: Files, budget: nat)
      ensures files == start && faults == budget && history == [start]
    {
      files, faults, history := start, budget, [start];
    }

    method Fault() returns (fails: bool)
      modifies this`faults
      ensures fails ==> faults < old(faults)
      ensures !fails ==> faults == old(faults)
    {
      fails := false;
      if faults > 0 {
        fails := *;
        if fails {
          faults := faults - 1;
        }
      }
    }

    method Write(next: Files, ghost before: seq<Files>, ghost original: string, ghost updated: string)
      requires Tracked() && Step(files, next, original, updated) && GoesOn(before, history, original, updated)
      modifies this`files, this`history
      ensures Tracked() && files == next && GoesOn(before, history, original, updated)
    {
      GoesOnByOne(before, history, next, original, updated);
      files := next;
      history := history + [next];
    }

    /** Creates the backup and fills it; an interruption leaves the part written so far. */
    method WriteBackup(ghost before: seq<Files>, original: string, ghost updated: string) returns (whole: bool)
      requires Tracked() && GoesOn(before, history, original, updated) && files.config == original && files.backup.None?
      modifies this
      ensures Tracked() && GoesOn(before, history, original, updated)
      ensures files.config == original && files.owned == old(files.owned)
      ensures whole ==> files == old(files).(backup := Some(original), private := true) && faults == old(faults)
      ensures !whole ==> faults < old(faults)
    {
      var fails := Fault();
      if fails {
        return false;
      }
      Write(files.(backup := Some(""), private := true), before, original, updated);
      fails := Fault();
      if fails {
        var n :| 0 <= n <= |original|;
        Write(files.(backup := Some(original[..n])), before, original, updated);
        return false;
      }
      Write(files.(backup := Some(original)), before, original, updated);
      whole := true;
    }

    /**
     * Retires the registration. Another program may write the configuration before the last look at it, and
     * then that text stays and the run is refused; or after the replacement, and then that text stays too,
     * and the run is refused unless it is the same.
     */
    method Disable(codec: Codec, expected: string, legacy: string, meanwhile: Option<string>,
                   afterwards: Option<string>)
      returns (r: Outcome)
      requires Tracked()
      modifies this
      ensures Tracked() || meanwhile.Some? || afterwards.Some?
      ensures r.Interrupted? ==> faults < old(faults)
      ensures meanwhile.None? && afterwards.None? && !r.Interrupted? && faults == old(faults) ==>
                (files, r) == Attempt(codec, old(files), expected, legacy)
      ensures meanwhile.None? && !r.Interrupted? ==>
                var (done, outcome) := Attempt(codec, old(files), expected, legacy);
                if !Replaces(codec, old(files), expected, legacy) || afterwards.None? then (files, r) == (done, outcome)
                else
                  && files == done.(config := afterwards.value)
                  && r == if afterwards.value == done.config then outcome else Refused(ChangedAfterReplace)
      ensures !r.Interrupted? ==> faults == old(faults)
      ensures var state := ConfigState(codec, old(files), expected, legacy);
        && (state.Err? ==> files == old(files) && r == Refused(state.error))
        && (state.Ok? && meanwhile.None? && afterwards.None? ==>
          GoesOn(old(history), history, state.value.original, state.value.updated))
      ensures meanwhile.Some? && meanwhile.value != old(files.config) ==>
                files.config in {old(files.config), meanwhile.value}
      ensures meanwhile.Some? && meanwhile.value != old(files.config) && r.Done? ==> files == old(files)
    {
      var state := ConfigState(codec, files, expected, legacy);
      if state.Err? {
        return Refused(state.error);
      }
      var original, updated := state.value.original, state.value.updated;
      if state.value.disabled {
        return Done(codec.digest(updated));
      }
      if files.backup.None? {
        var whole := WriteBackup(history, original, updated);
        if !whole {
          return Interrupted;
        }
      } else if VerifiedBackup(codec, files, expected) != Ok(original) {
        return Refused(BackupConflict);
      }
      var fails := Fault();
      if fails {
        return Interrupted;
      }
      if meanwhile.Some? {
        files := files.(config := meanwhile.value);
      }
      if files.config != original {
        return Refused(ConfigChanged);
      }
      Write(files.(config := updated), old(history), original, updated);
      fails := Fault();
      if fails {
        return Interrupted;
      }
      if afterwards.Some? {
        files := files.(config := afterwards.value);
      }
      if files.config != updated {
        return Refused(ChangedAfterReplace);
      }
      r := Done(codec.digest(updated));
    }

    /**
     * Starts over after every interruption. Whatever happened, every state on the way is safe, and the
     * end is the retired configuration unless an interruption tore the backup.
     */
    method DisableAcrossRestarts(codec: Codec, ghost original: string, ghost updated: string, expected: string,
                                 legacy: string)
      returns (r: Outcome)
      requires Tracked() && Safe(files, original, updated) && original != updated
      requires Approved(codec, original, updated, expected, legacy)
      modifies this
      ensures Tracked() && old(history) <= history
      ensures forall i :: |old(history)| <= i < |history| ==> Safe(history[i], original, updated)
      ensures r.Done? ==> files == Files(updated, true, Some(original), true) && r.hash == codec.digest(updated)
      ensures !r.Done? ==>
        r == Refused(BackupConflict) && files.config == original && files.backup.Some? && files.backup != Some(original)
    {
      r := Interrupted;
      while r.Interrupted?
        invariant Tracked() && old(history) <= history
        invariant Safe(files, original, updated)
        invariant forall i :: |old(history)| <= i < |history| ==> Safe(history[i], original, updated)
        invariant r.Done? ==> files == Files(updated, true, Some(original), true) && r.hash == codec.digest(updated)
        invariant r.Refused? ==> r == Refused(BackupConflict) && files.backup.Some? && files.backup != Some(original)
        decreases faults, r.Interrupted?
      {
        SafeIsRecognised(codec, files, original, updated, expected, legacy);
        CompletesIffBackupIsNotTorn(codec, files, original, updated, expected, legacy);
        ghost var before := history;
        r := Disable(codec, expected, legacy, None, None);
        GoingOnStaysSafe(before, history, original, updated);
      }
    }
  }

  lemma GoingOnStaysSafe(before: seq<Files>, after: seq<Files>, original: string, updated: string)
    requires before != [] && Safe(before[|before| - 1], original, updated) && original != updated
    requires GoesOn(before, after, original, updated)
    ensures forall i :: |before| <= i < |after| ==> Safe(after[i], original, updated)
    ensures Safe(after[|after| - 1], original, updated)
  {
    var n := |before| - 1;
    var tail := after[n..];
    forall i | 0 < i < |tail| ensures Follows(tail, i, original, updated) {
      assert Follows(after, n + i, original, updated);
    }
    ChainKeepsSafe(tail, original, updated);
    forall i | |before| <= i < |after| ensures Safe(after[i], original, updated) {
      assert after[i] == tail[i - n];
    }
    assert after[|after| - 1] == tail[|tail| - 1];
  }
}
