/**
 * The inventory of an application bundle: a hash over one record per directory and file, in the
 * order of a walk that sorts every directory. The records determine the whole tree.
 */
module BundleInventory {
  import opened Wrappers
  import opened ByteStrings
  import opened Listing
  import opened HashFraming
  import opened Sequences

  /** A bundle as the file system holds it; a file is known by the 64 digits of its hash. */
  datatype Node =
    | File(mode: nat, sha256: Bytes)
    | Directory(mode: nat, entries: seq<Entry<Node>>)
    | Other

  const SLASH: Byte := 47
  const FILE: Byte := 102
  const DIRECTORY: Byte := 100

  /** One name in a path: not empty, and no separator in it. */
  predicate IsName(name: Bytes)
  {
    name != [] && SLASH !in name
  }

  /** What a file system can hold. */
  ghost predicate Valid(node: Node)
  {
    match node
    case File(mode, sha256) => mode < 0x1_0000_0000 && |sha256| == 64
    case Directory(mode, entries) =>
      && mode < 0x1_0000_0000 && Distinct(entries)
      && forall e :: e in entries ==> IsName(e.name) && Valid(e.value)
    case Other => true
  }

  /** The relative path of an entry; that of the bundle itself is empty. */
  function Joined(path: seq<Bytes>): Bytes
  {
    if path == [] then []
    else if |path| == 1 then path[0]
    else path[0] + [SLASH] + Joined(path[1..])
  }

  datatype Record = Record(directory: bool, path: seq<Bytes>, mode: nat, content: Bytes)

  function Written(r: Record): Bytes
  {
    [if r.directory then DIRECTORY else FILE] + (Frame(Joined(r.path)) + (BigEndian(r.mode, 4) + r.content))
  }

  function WrittenAll(records: seq<Record>): Bytes
  {
    if records == [] then [] else Written(records[0]) + WrittenAll(records[1..])
  }

  /** The records of a node and of everything below it, directories first. */
  function Records(path: seq<Bytes>, node: Node): seq<Record>
    decreases node
  {
    match node
    case File(mode, sha256) => [Record(false, path, mode, sha256)]
    case Directory(mode, entries) => [Record(true, path, mode, [])] + RecordsOf(path, entries)
    case Other => []
  }

  function RecordsOf(path: seq<Bytes>, entries: seq<Entry<Node>>): seq<Record>
    decreases entries
  {
    if entries == [] then []
    else Records(path + [entries[0].name], entries[0].value) + RecordsOf(path, entries[1..])
  }

  /** The same tree with every directory sorted by name. */
  function Canonical(node: Node): Node
    decreases node
  {
    if node.Directory? then Directory(node.mode, Sort(CanonicalAll(node.entries))) else node
  }

  function CanonicalAll(entries: seq<Entry<Node>>): seq<Entry<Node>>
    decreases entries
  {
    if entries == [] then [] else [Entry(entries[0].name, Canonical(entries[0].value))] + CanonicalAll(entries[1..])
  }

  /** No entry that is neither a file nor a directory, and no path that is not UTF-8. */
  ghost predicate Walkable(path: seq<Bytes>, node: Node, utf8: Bytes -> bool)
    decreases node
  {
    && !node.Other? && utf8(Joined(path))
    && (node.Directory? ==> forall e :: e in node.entries ==> Walkable(path + [e.name], e.value, utf8))
  }

  // ---- the walk ----

  method WriteRecord(digest: Digest, kind: Byte, path: Bytes, mode: nat, content: Bytes)
    modifies digest
    ensures digest.fed == old(digest.fed) + ([kind] + (Frame(path) + (BigEndian(mode, 4) + content)))
  {
    digest.Update([kind]);
    WriteFrame(digest, path);
    digest.Update(BigEndian(mode, 4));
    digest.Update(content);
  }

  lemma {:induction false} WrittenOfTwo(a: seq<Record>, b: seq<Record>)
    ensures WrittenAll(a + b) == WrittenAll(a) + WrittenAll(b)
  {
    if a == [] {
      assert a + b == b;
    } else {
      assert (a + b)[1..] == a[1..] + b;
      WrittenOfTwo(a[1..], b);
    }
  }

  lemma {:induction false} RecordsOfOneMore(path: seq<Bytes>, entries: seq<Entry<Node>>, i: nat)
    requires i < |entries|
    ensures RecordsOf(path, entries[..i + 1])
            == RecordsOf(path, entries[..i]) + Records(path + [entries[i].name], entries[i].value)
  {
    if i > 0 {
      RecordsOfOneMore(path, entries[1..], i - 1);
      assert entries[..i + 1][1..] == entries[1..][..i] && entries[..i][1..] == entries[1..][..i - 1];
    }
  }

  lemma {:induction false} CanonicalOfEach(entries: seq<Entry<Node>>, i: nat)
    requires i < |entries|
    ensures |CanonicalAll(entries)| == |entries|
    ensures CanonicalAll(entries)[i] == Entry(entries[i].name, Canonical(entries[i].value))
  {
    if i > 0 {
      CanonicalOfEach(entries[1..], i - 1);
    } else if |entries| > 1 {
      CanonicalOfEach(entries[1..], 0);
    }
  }

  lemma {:induction false} CanonicalInsert(e: Entry<Node>, entries: seq<Entry<Node>>)
    ensures CanonicalAll(Insert(e, entries)) == Insert(Entry(e.name, Canonical(e.value)), CanonicalAll(entries))
  {
    if entries == [] || Before(e.name, entries[0].name) {
      assert ([e] + entries)[1..] == entries;
    } else {
      CanonicalInsert(e, entries[1..]);
      assert ([entries[0]] + Insert(e, entries[1..]))[1..] == Insert(e, entries[1..]);
    }
  }

  /** Sorting the names first or last comes to the same. */
  lemma {:induction false} CanonicalSort(entries: seq<Entry<Node>>)
    ensures CanonicalAll(Sort(entries)) == Sort(CanonicalAll(entries))
  {
    if entries != [] {
      CanonicalSort(entries[1..]);
      CanonicalInsert(entries[0], Sort(entries[1..]));
    }
  }

  lemma {:induction false} CanonicalOneMore(entries: seq<Entry<Node>>, i: nat)
    requires i < |entries|
    ensures CanonicalAll(entries[..i + 1])
      == CanonicalAll(entries[..i]) + [Entry(entries[i].name, Canonical(entries[i].value))]
  {
    if i > 0 {
      CanonicalOneMore(entries[1..], i - 1);
      assert entries[..i + 1][1..] == entries[1..][..i] && entries[..i][1..] == entries[1..][..i - 1];
    }
  }

  lemma OneMoreWalked(path: seq<Bytes>, entries: seq<Entry<Node>>, i: nat)
    requires i < |entries|
    ensures WrittenAll(RecordsOf(path, CanonicalAll(entries[..i + 1])))
            == WrittenAll(RecordsOf(path, CanonicalAll(entries[..i])))
               + WrittenAll(Records(path + [entries[i].name], Canonical(entries[i].value)))
  {
    hide WrittenAll, Canonical;
    var done, e := CanonicalAll(entries[..i]), Entry(entries[i].name, Canonical(entries[i].value));
    CanonicalOneMore(entries, i);
    assert (done + [e])[..|done|] == done;
    RecordsOfOneMore(path, done + [e], |done|);
    assert (done + [e])[..|done| + 1] == done + [e];
    WrittenOfTwo(RecordsOf(path, done), Records(path + [e.name], e.value));
  }

  lemma DirectoryWalked(path: seq<Bytes>, node: Node)
    requires node.Directory?
    ensures WrittenAll(Records(path, Canonical(node)))
            == Written(Record(true, path, node.mode, []))
              + WrittenAll(RecordsOf(path, CanonicalAll(Sort(node.entries))))
  {
    hide Written, Sort;
    var head, rest := Record(true, path, node.mode, []), RecordsOf(path, CanonicalAll(Sort(node.entries)));
    CanonicalSort(node.entries);
    assert ([head] + rest)[1..] == rest;
  }

  lemma FileWalked(path: seq<Bytes>, node: Node)
    requires node.File?
    ensures WrittenAll(Records(path, Canonical(node))) == Written(Record(false, path, node.mode, node.sha256))
  {
    hide Written;
    assert [Record(false, path, node.mode, node.sha256)][1..] == [];
  }

  lemma WalkableLeaf(path: seq<Bytes>, node: Node, utf8: Bytes -> bool)
    ensures Walkable(path, node, utf8) ==> !node.Other? && utf8(Joined(path))
    ensures node.File? && utf8(Joined(path)) ==> Walkable(path, node, utf8)
  {
  }

  lemma WalkableSorted(path: seq<Bytes>, node: Node, utf8: Bytes -> bool)
    requires node.Directory?
    ensures Walkable(path, node, utf8) <==> utf8(Joined(path)) && Reached(path, Sort(node.entries), utf8)
    ensures forall e :: e in Sort(node.entries) ==> e in node.entries
  {
    hide Sort;
    forall e: Entry<Node> ensures e in Sort(node.entries) <==> e in node.entries {
      SortHolds(node.entries, e);
    }
  }

  ghost predicate Reached(path: seq<Bytes>, entries: seq<Entry<Node>>, utf8: Bytes -> bool)
  {
    forall e :: e in entries ==> Walkable(path + [e.name], e.value, utf8)
  }

  /** Feeds a directory and all below it; refuses it if anything in it is neither a file nor a directory. */
  method Walk(digest: Digest, path: seq<Bytes>, node: Node, utf8: Bytes -> bool) returns (ok: bool)
    requires Valid(node)
    modifies digest
    ensures ok <==> Walkable(path, node, utf8)
    ensures ok ==> digest.fed == old(digest.fed) + WrittenAll(Records(path, Canonical(node)))
    decreases node
  {
    hide WrittenAll, Records, RecordsOf, Canonical, CanonicalAll, Frame, Sort, Walkable, Joined, Distinct;
    WalkableLeaf(path, node, utf8);
    if node.Other? || !utf8(Joined(path)) {
      return false;
    }
    if node.File? {
      WriteRecord(digest, FILE, Joined(path), node.mode, node.sha256);
      FileWalked(path, node);
      return true;
    }
    WriteRecord(digest, DIRECTORY, Joined(path), node.mode, []);
    ghost var head := digest.fed;
    var paths := Sort(node.entries);
    WalkableSorted(path, node, utf8);
    DirectoryWalked(path, node);
    NothingWalked(path);
    var i := 0;
    while i < |paths|
      invariant 0 <= i <= |paths|
      invariant Reached(path, paths[..i], utf8)
      invariant digest.fed == head + WrittenAll(RecordsOf(path, CanonicalAll(paths[..i])))
    {
      assert paths[i] in paths && paths[i] in node.entries;
      ok := Walk(digest, path + [paths[i].name], paths[i].value, utf8);
      if !ok {
        return false;
      }
      OneMoreWalked(path, paths, i);
      assert paths[..i + 1] == paths[..i] + [paths[i]];
      i := i + 1;
    }
    assert paths[..i] == paths;
    ok := true;
  }

  lemma NothingWalked(path: seq<Bytes>)
    ensures WrittenAll(RecordsOf(path, CanonicalAll([]))) == []
  {
  }

  // ---- what the records tell ----

  datatype Stat = Stat(directory: bool, mode: nat, content: Bytes)

  /** What is at a path: its kind, its mode and the hash of its content. */
  function At(node: Node, path: seq<Bytes>): Option<Stat>
    decreases |path|
  {
    if node.Other? then None
    else if path == [] then Some(if node.File? then Stat(false, node.mode, node.sha256) else Stat(true, node.mode, []))
    else if node.File? then None
    else
      var child := Lookup(node.entries, path[0]);
      if child.None? then None else At(child.value, path[1..])
  }

  /** What is at a path as a file has the 64 digits of a hash; a directory has none. */
  lemma {:induction false} ContentOfFilesOnly(node: Node, path: seq<Bytes>)
    requires Valid(node) && At(node, path).Some?
    ensures |At(node, path).value.content| == if At(node, path).value.directory then 0 else 64
    decreases |path|
  {
    if path != [] {
      LookupFinds(node.entries, path[0]);
      ContentOfFilesOnly(Lookup(node.entries, path[0]).value, path[1..]);
    }
  }

  ghost predicate SameTree(a: Node, b: Node)
  {
    forall path: seq<Bytes> :: At(a, path) == At(b, path)
  }

  predicate NotBelow(records: seq<Record>, path: seq<Bytes>)
  {
    records == [] || !(path < records[0].path)
  }

  lemma RecordsBegin(path: seq<Bytes>, node: Node)
    requires !node.Other?
    ensures Records(path, node) != [] && Records(path, node)[0].path == path
    ensures Records(path, node)[0].directory == node.Directory? && Records(path, node)[0].mode == node.mode
    ensures node.File? ==> Records(path, node)[0].content == node.sha256
  {
  }

  ghost predicate NoOthers(node: Node)
    decreases node
  {
    !node.Other? && (node.Directory? ==> forall e :: e in node.entries ==> NoOthers(e.value))
  }

  /** A node and what comes after it can be told from the records. */
  lemma {:induction false} NodeDetermined(path: seq<Bytes>, a: Node, x: seq<Record>, b: Node, y: seq<Record>)
    requires NoOthers(a) && NoOthers(b) && NotBelow(x, path) && NotBelow(y, path)
    requires Records(path, a) + x == Records(path, b) + y
    ensures a == b && x == y
    decreases a
  {
    var s, t := Records(path, a) + x, Records(path, b) + y;
    RecordsBegin(path, a);
    RecordsBegin(path, b);
    assert s[0] == t[0];
    if a.Directory? {
      assert s[1..] == RecordsOf(path, a.entries) + x && t[1..] == RecordsOf(path, b.entries) + y;
      EntriesDetermined(path, a.entries, x, b.entries, y);
    } else {
      assert s[1..] == x && t[1..] == y;
    }
  }

  lemma {:induction false} EntriesDetermined(path: seq<Bytes>, a: seq<Entry<Node>>, x: seq<Record>, b: seq<Entry<Node>>,
                                             y: seq<Record>)
    requires forall e :: e in a ==> NoOthers(e.value)
    requires forall e :: e in b ==> NoOthers(e.value)
    requires NotBelow(x, path) && NotBelow(y, path)
    requires RecordsOf(path, a) + x == RecordsOf(path, b) + y
    ensures a == b && x == y
    decreases a
  {
    EntriesBegin(path, a, x);
    EntriesBegin(path, b, y);
    if a == [] {
      assert RecordsOf(path, a) + x == x && RecordsOf(path, b) + y == y;
    } else {
      var p := path + [a[0].name];
      assert p[|path|] == a[0].name && (path + [b[0].name])[|path|] == b[0].name;
      EntriesApart(path, a, x);
      EntriesApart(path, b, y);
      NodeDetermined(p, a[0].value, RecordsOf(path, a[1..]) + x, b[0].value, RecordsOf(path, b[1..]) + y);
      EntriesDetermined(path, a[1..], x, b[1..], y);
      assert a == [a[0]] + a[1..] && b == [b[0]] + b[1..];
    }
  }

  /** Whether another entry follows can be told from the next record, and so can its name. */
  lemma EntriesBegin(path: seq<Bytes>, entries: seq<Entry<Node>>, x: seq<Record>)
    requires forall e :: e in entries ==> NoOthers(e.value)
    requires NotBelow(x, path)
    ensures entries == [] <==> NotBelow(RecordsOf(path, entries) + x, path)
    ensures entries != [] ==> RecordsOf(path, entries) + x != []
    ensures entries != [] ==> (RecordsOf(path, entries) + x)[0].path == path + [entries[0].name]
  {
    if entries == [] {
      assert RecordsOf(path, entries) + x == x;
    } else {
      RecordsBegin(path + [entries[0].name], entries[0].value);
    }
  }

  /** The next entry is not below the first one. */
  lemma EntriesApart(path: seq<Bytes>, entries: seq<Entry<Node>>, x: seq<Record>)
    requires entries != [] && forall e :: e in entries ==> NoOthers(e.value)
    requires NotBelow(x, path)
    ensures NotBelow(RecordsOf(path, entries[1..]) + x, path + [entries[0].name])
    ensures RecordsOf(path, entries) + x
      == Records(path + [entries[0].name], entries[0].value) + (RecordsOf(path, entries[1..]) + x)
  {
    EntriesBegin(path, entries[1..], x);
    if entries[1..] == [] {
      assert RecordsOf(path, entries[1..]) + x == x;
    }
  }

  // ---- from the bytes to the records ----

  lemma {:induction false} JoinedDetermines(p: seq<Bytes>, q: seq<Bytes>)
    requires (forall n :: n in p ==> IsName(n)) && (forall n :: n in q ==> IsName(n))
    requires Joined(p) == Joined(q)
    ensures p == q
  {
    if p == [] || q == [] {
      JoinedIsEmpty(p);
      JoinedIsEmpty(q);
    } else {
      FirstNameIsTold(p);
      FirstNameIsTold(q);
      if |p| > 1 && |q| > 1 {
        assert Joined(p)[|p[0]| + 1..] == Joined(p[1..]) && Joined(q)[|q[0]| + 1..] == Joined(q[1..]);
        JoinedDetermines(p[1..], q[1..]);
        assert p == [p[0]] + p[1..] && q == [q[0]] + q[1..];
      } else {
        assert p == [p[0]] && q == [q[0]];
      }
    }
  }

  lemma JoinedIsEmpty(p: seq<Bytes>)
    requires forall n :: n in p ==> IsName(n)
    ensures Joined(p) == [] <==> p == []
  {
    assert p != [] ==> p[0] in p;
  }

  /** The position of the first separator. */
  function FirstSlash(bytes: Bytes): nat
  {
    if bytes == [] || bytes[0] == SLASH then 0 else 1 + FirstSlash(bytes[1..])
  }

  lemma {:induction false} FirstSlashIs(bytes: Bytes, n: nat)
    requires n <= |bytes| && SLASH !in bytes[..n] && (n < |bytes| ==> bytes[n] == SLASH)
    ensures FirstSlash(bytes) == n
  {
    if n > 0 {
      assert bytes[..n][0] == bytes[0] && bytes[..n][1..] == bytes[1..][..n - 1];
      FirstSlashIs(bytes[1..], n - 1);
    }
  }

  lemma FirstNameIsTold(p: seq<Bytes>)
    requires p != [] && forall n :: n in p ==> IsName(n)
    ensures FirstSlash(Joined(p)) <= |Joined(p)| && p[0] == Joined(p)[..FirstSlash(Joined(p))]
    ensures FirstSlash(Joined(p)) == |p[0]|
    ensures |p| == 1 <==> FirstSlash(Joined(p)) == |Joined(p)|
  {
    assert IsName(p[0]);
    assert Joined(p)[..|p[0]|] == p[0];
    FirstSlashIs(Joined(p), |p[0]|);
  }

  /** A record as the walk writes it. */
  predicate WellFormed(r: Record)
  {
    && (forall n :: n in r.path ==> IsName(n))
    && Fits(Joined(r.path))
    && r.mode < 0x1_0000_0000
    && |r.content| == if r.directory then 0 else 64
  }

  lemma FourBytes()
    ensures Power256(4) == 0x1_0000_0000
  {
  }

  /** Modes and contents are not framed, but their lengths follow from the kind. */
  lemma TailDetermines(m: nat, c: Bytes, x: Bytes, n: nat, d: Bytes, y: Bytes)
    requires m < 0x1_0000_0000 && n < 0x1_0000_0000 && |c| == |d|
    requires BigEndian(m, 4) + c + x == BigEndian(n, 4) + d + y
    ensures m == n && c == d && x == y
  {
    var s, t := BigEndian(m, 4) + c + x, BigEndian(n, 4) + d + y;
    assert s[..4] == BigEndian(m, 4) && t[..4] == BigEndian(n, 4);
    FourBytes();
    BigEndianDetermines(m, n, 4);
    assert c == s[4..4 + |c|] && d == t[4..4 + |d|];
    assert x == s[4 + |c|..] && y == t[4 + |d|..];
  }

  lemma RecordDetermines(r: Record, x: Bytes, s: Record, y: Bytes)
    requires WellFormed(r) && WellFormed(s) && Written(r) + x == Written(s) + y
    ensures r == s && x == y
  {
    hide Frame, WellFormed, Joined;
    var a, b := Written(r) + x, Written(s) + y;
    var u, v := BigEndian(r.mode, 4) + r.content + x, BigEndian(s.mode, 4) + s.content + y;
    assert a[0] == if r.directory then DIRECTORY else FILE;
    assert b[0] == if s.directory then DIRECTORY else FILE;
    assert a[1..] == Frame(Joined(r.path)) + u && b[1..] == Frame(Joined(s.path)) + v;
    Parts(r);
    Parts(s);
    FrameDetermines(Joined(r.path), u, Joined(s.path), v);
    JoinedDetermines(r.path, s.path);
    TailDetermines(r.mode, r.content, x, s.mode, s.content, y);
  }

  lemma FourParts(kind: Byte, frame: Bytes, mode: Bytes, content: Bytes)
    ensures var w, n := [kind] + (frame + (mode + content)), |frame|;
      && w[0] == kind && w[1..1 + n] == frame
      && w[1 + n..1 + n + |mode|] == mode && w[1 + n + |mode|..] == content
  {
  }

  /** A record is a letter, a framed path, a mode in four bytes and, of a file, the digits of its hash. */
  lemma RecordIsReadBack(r: Record)
    requires WellFormed(r)
    ensures var w, n := Written(r), |Joined(r.path)|;
      && |w| == 13 + n + (if r.directory then 0 else 64)
      && w[0] == (if r.directory then 'd' else 'f') as int
      && Number(w[1..9]) == n && w[9..9 + n] == Joined(r.path)
      && Number(w[9 + n..13 + n]) == r.mode && w[13 + n..] == r.content
  {
    hide Frame, WellFormed, Joined, BigEndian, Number;
    Parts(r);
    var path, w := Joined(r.path), Written(r);
    var n, frame := |path|, Frame(path);
    FrameIsReadBack(path);
    FourBytes();
    NumberOfBigEndian(r.mode, 4);
    FourParts(if r.directory then DIRECTORY else FILE, frame, BigEndian(r.mode, 4), r.content);
    SliceOfSlice(w, 1, 9 + n, 0, 8);
    SliceOfSlice(w, 1, 9 + n, 8, 8 + n);
    assert frame[0..8] == frame[..8] && frame[8..8 + n] == frame[8..];
  }

  /** The path of an entry is that of its directory, a slash, and its name. */
  lemma {:induction false} JoinedOfOneMore(path: seq<Bytes>, name: Bytes)
    ensures Joined(path + [name]) == if path == [] then name else Joined(path) + ['/' as int] + name
  {
    if |path| > 1 {
      JoinedOfOneMore(path[1..], name);
      assert (path + [name])[1..] == path[1..] + [name];
    }
  }

  lemma Parts(r: Record)
    requires WellFormed(r)
    ensures (forall n :: n in r.path ==> IsName(n)) && Fits(Joined(r.path))
    ensures r.mode < 0x1_0000_0000 && |r.content| == if r.directory then 0 else 64
  {
  }

  lemma {:induction false} RecordsDetermined(a: seq<Record>, b: seq<Record>)
    requires (forall r :: r in a ==> WellFormed(r)) && (forall r :: r in b ==> WellFormed(r))
    requires WrittenAll(a) == WrittenAll(b)
    ensures a == b
  {
    hide Written, WellFormed;
    SomethingIsWritten(a);
    SomethingIsWritten(b);
    if a != [] && b != [] {
      RecordDetermines(a[0], WrittenAll(a[1..]), b[0], WrittenAll(b[1..]));
      RecordsDetermined(a[1..], b[1..]);
      assert a == [a[0]] + a[1..] && b == [b[0]] + b[1..];
    }
  }

  lemma SomethingIsWritten(a: seq<Record>)
    ensures WrittenAll(a) == [] <==> a == []
  {
    assert a != [] ==> |Written(a[0])| > 0;
  }

  // ---- from the records to the tree ----

  /** Every directory is sorted. */
  ghost predicate Tidy(node: Node)
    decreases node
  {
    node.Directory? ==> Sorted(node.entries) && forall e :: e in node.entries ==> Tidy(e.value)
  }

  lemma {:induction false} CanonicalLookup(entries: seq<Entry<Node>>, name: Bytes)
    ensures Lookup(CanonicalAll(entries), name)
            == var child := Lookup(entries, name); if child.None? then None else Some(Canonical(child.value))
  {
    if entries != [] && entries[0].name != name {
      CanonicalLookup(entries[1..], name);
    }
  }

  lemma {:induction false} CanonicalDistinct(entries: seq<Entry<Node>>)
    requires Distinct(entries)
    ensures Distinct(CanonicalAll(entries))
  {
    if entries != [] {
      CanonicalDistinct(entries[1..]);
      CanonicalLookup(entries[1..], entries[0].name);
    }
  }

  /** Sorting the directories changes nothing of what is where. */
  lemma {:induction false} CanonicalHoldsTheSame(node: Node, path: seq<Bytes>)
    requires Valid(node)
    ensures At(Canonical(node), path) == At(node, path)
    decreases |path|
  {
    if node.Directory? && path != [] {
      CanonicalDistinct(node.entries);
      SortLooksUp(CanonicalAll(node.entries), path[0]);
      CanonicalLookup(node.entries, path[0]);
      var child := Lookup(node.entries, path[0]);
      if child.Some? {
        LookupFinds(node.entries, path[0]);
        CanonicalHoldsTheSame(child.value, path[1..]);
      }
    }
  }

  /** A tree of files and sorted directories. */
  ghost predicate Clean(node: Node)
  {
    Valid(node) && NoOthers(node) && Tidy(node)
  }

  lemma {:induction false} CanonicalAllAreClean(entries: seq<Entry<Node>>)
    requires forall e :: e in entries ==> IsName(e.name) && Valid(e.value) && NoOthers(e.value)
    ensures forall e :: e in CanonicalAll(entries) ==> IsName(e.name) && Clean(e.value)
    decreases entries
  {
    if entries != [] {
      CanonicalIsClean(entries[0].value);
      CanonicalAllAreClean(entries[1..]);
    }
  }

  lemma {:induction false} CanonicalIsClean(node: Node)
    requires Valid(node) && NoOthers(node)
    ensures Clean(Canonical(node))
    decreases node
  {
    if node.Directory? {
      var children := CanonicalAll(node.entries);
      CanonicalAllAreClean(node.entries);
      CanonicalDistinct(node.entries);
      SortSorts(children);
      SortedIsDistinct(Sort(children));
    }
  }

  lemma {:induction false} SortedIsDistinct(entries: seq<Entry<Node>>)
    requires Sorted(entries)
    ensures Distinct(entries)
  {
    if entries != [] {
      RestIsAhead(entries);
      AheadHoldsNothing(entries[0].name, entries[1..]);
      SortedIsDistinct(entries[1..]);
    }
  }

  lemma SameChildren(a: Node, b: Node, name: Bytes)
    requires a.Directory? && b.Directory? && NoOthers(a) && NoOthers(b) && SameTree(a, b)
    ensures Lookup(a.entries, name).Some? <==> Lookup(b.entries, name).Some?
    ensures Lookup(a.entries, name).Some? ==> SameTree(Lookup(a.entries, name).value, Lookup(b.entries, name).value)
  {
    var c, d := Lookup(a.entries, name), Lookup(b.entries, name);
    LookupFinds(a.entries, name);
    LookupFinds(b.entries, name);
    assert At(a, [name]) == At(b, [name]) && [name][1..] == [];
    assert At(a, [name]) == if c.None? then None else At(c.value, []);
    assert At(b, [name]) == if d.None? then None else At(d.value, []);
    if c.Some? {
      forall path: seq<Bytes> ensures At(c.value, path) == At(d.value, path) {
        assert At(a, [name] + path) == At(b, [name] + path) && ([name] + path)[1..] == path;
      }
    }
  }

  /** Two trees with sorted directories that hold the same are the same. */
  lemma {:induction false} CleanTreesAreUnique(a: Node, b: Node)
    requires Clean(a) && Clean(b) && SameTree(a, b)
    ensures a == b
    decreases a
  {
    assert At(a, []) == At(b, []);
    if a.Directory? {
      forall name: Bytes ensures Lookup(a.entries, name) == Lookup(b.entries, name) {
        SameChildren(a, b, name);
        var c, d := Lookup(a.entries, name), Lookup(b.entries, name);
        LookupFinds(a.entries, name);
        LookupFinds(b.entries, name);
        if c.Some? {
          CleanTreesAreUnique(c.value, d.value);
        }
      }
      SortedIsUnique(a.entries, b.entries);
    }
  }

  lemma CanonicalIffSame(a: Node, b: Node)
    requires Valid(a) && Valid(b) && NoOthers(a) && NoOthers(b)
    ensures Canonical(a) == Canonical(b) <==> SameTree(a, b)
  {
    CanonicalIsClean(a);
    CanonicalIsClean(b);
    forall path: seq<Bytes> ensures At(Canonical(a), path) == At(a, path) && At(Canonical(b), path) == At(b, path) {
      CanonicalHoldsTheSame(a, path);
      CanonicalHoldsTheSame(b, path);
    }
    if Canonical(a) == Canonical(b) {
      assert forall path: seq<Bytes> :: At(Canonical(a), path) == At(Canonical(b), path);
    }
    if SameTree(a, b) {
      assert SameTree(Canonical(a), Canonical(b));
      CleanTreesAreUnique(Canonical(a), Canonical(b));
    }
  }

  predicate AreNames(path: seq<Bytes>)
  {
    forall n :: n in path ==> IsName(n)
  }

  lemma {:induction false} RecordsAreWellFormed(path: seq<Bytes>, node: Node, r: Record)
    requires AreNames(path) && Valid(node) && r in Records(path, node) && Fits(Joined(r.path))
    ensures WellFormed(r)
    decreases node
  {
    if node.Directory? && r in RecordsOf(path, node.entries) {
      RecordsOfAreWellFormed(path, node.entries, r);
    }
  }

  lemma {:induction false} RecordsOfAreWellFormed(path: seq<Bytes>, entries: seq<Entry<Node>>, r: Record)
    requires AreNames(path) && (forall e :: e in entries ==> IsName(e.name) && Valid(e.value))
    requires r in RecordsOf(path, entries) && Fits(Joined(r.path))
    ensures WellFormed(r)
    decreases entries
  {
    if r in Records(path + [entries[0].name], entries[0].value) {
      RecordsAreWellFormed(path + [entries[0].name], entries[0].value, r);
    } else {
      RecordsOfAreWellFormed(path, entries[1..], r);
    }
  }

  /** What the walk feeds for a whole bundle. */
  function Inventory(node: Node): Bytes
  {
    WrittenAll(Records([], Canonical(node)))
  }

  /** No path is longer than a frame can say. */
  predicate PathsFit(node: Node)
  {
    forall r :: r in Records([], Canonical(node)) ==> Fits(Joined(r.path))
  }

  lemma InventoryDetermines(a: Node, b: Node)
    requires Valid(a) && Valid(b) && NoOthers(a) && NoOthers(b) && PathsFit(a) && PathsFit(b)
    requires Inventory(a) == Inventory(b)
    ensures Canonical(a) == Canonical(b)
  {
    hide Written, WrittenAll, Canonical, WellFormed, Joined;
    var x, y := Records([], Canonical(a)), Records([], Canonical(b));
    CanonicalIsClean(a);
    CanonicalIsClean(b);
    forall r | r in x ensures WellFormed(r) {
      RecordsAreWellFormed([], Canonical(a), r);
    }
    forall r | r in y ensures WellFormed(r) {
      RecordsAreWellFormed([], Canonical(b), r);
    }
    RecordsDetermined(x, y);
    assert x + [] == y + [];
    NodeDetermined([], Canonical(a), [], Canonical(b), []);
  }

  /** Two bundles feed the hash alike exactly if they have the same kind, mode and content at every path. */
  lemma InventoriesAgreeIffTreesDo(a: Node, b: Node)
    requires Valid(a) && Valid(b) && NoOthers(a) && NoOthers(b) && PathsFit(a) && PathsFit(b)
    ensures Inventory(a) == Inventory(b) <==> SameTree(a, b)
  {
    hide Canonical, Records, WrittenAll, At;
    CanonicalIffSame(a, b);
    if Inventory(a) == Inventory(b) {
      InventoryDetermines(a, b);
    }
  }

  lemma {:induction false} WalkableHasNoOthers(path: seq<Bytes>, node: Node, utf8: Bytes -> bool)
    requires Walkable(path, node, utf8)
    ensures NoOthers(node)
    decreases node
  {
    if node.Directory? {
      forall e | e in node.entries ensures NoOthers(e.value) {
        WalkableHasNoOthers(path + [e.name], e.value, utf8);
      }
    }
  }

  /** The hash that identifies a bundle, or nothing if the bundle cannot be walked. */
  method InventoryHash(app: Node, utf8: Bytes -> bool, sha256: Bytes -> string) returns (hash: Option<string>)
    requires Valid(app)
    ensures hash.Some? <==> app.Directory? && Walkable([], app, utf8)
    ensures hash.Some? ==> NoOthers(app) && hash.value == sha256(Inventory(app))
  {
    if !app.Directory? {
      return None;
    }
    var digest := new Digest();
    var ok := Walk(digest, [], app, utf8);
    if !ok {
      return None;
    }
    WalkableHasNoOthers([], app, utf8);
    assert digest.fed == Inventory(app);
    hash := Some(sha256(digest.fed));
  }

  // ---- the identity of a bundle ----

  /** What tells one bundle from another: the hashes of its executable and of its plan, and that of its inventory. */
  datatype BundleIdentity = BundleIdentity(executable: Bytes, plan: Bytes, inventory: string)

  function Executable(): seq<Bytes>
  {
    [Ascii("Contents"), Ascii("MacOS"), Ascii("kb-app")]
  }

  function Plan(): seq<Bytes>
  {
    [Ascii("Contents"), Ascii("Resources"), Ascii("release"), Ascii("plan.json")]
  }

  /** The hash of the regular file at a path. */
  function FileAt(node: Node, path: seq<Bytes>): Option<Bytes>
  {
    var stat := At(node, path);
    if stat.Some? && !stat.value.directory then Some(stat.value.content) else None
  }

  function IdentityFor(app: Node, sha256: Bytes -> string): Option<BundleIdentity>
  {
    var executable, plan := FileAt(app, Executable()), FileAt(app, Plan());
    if executable.None? || plan.None? then None
    else Some(BundleIdentity(executable.value, plan.value, sha256(Inventory(app))))
  }

  method IdentityOf(app: Node, utf8: Bytes -> bool, sha256: Bytes -> string) returns (identity: Option<BundleIdentity>)
    requires Valid(app)
    ensures identity.Some? <==> app.Directory? && Walkable([], app, utf8) && IdentityFor(app, sha256).Some?
    ensures identity.Some? ==> identity == IdentityFor(app, sha256)
    ensures identity.Some? ==>
      var executable := At(app, [Ascii("Contents"), Ascii("MacOS"), Ascii("kb-app")]);
      var plan := At(app, [Ascii("Contents"), Ascii("Resources"), Ascii("release"), Ascii("plan.json")]);
      && executable.Some? && !executable.value.directory && identity.value.executable == executable.value.content
      && plan.Some? && !plan.value.directory && identity.value.plan == plan.value.content
      && identity.value.inventory == sha256(WrittenAll(Records([], Canonical(app))))
      && |identity.value.executable| == 64 && |identity.value.plan| == 64
    ensures app.Directory? && Walkable([], app, utf8) ==>
      var executable := At(app, [Ascii("Contents"), Ascii("MacOS"), Ascii("kb-app")]);
      var plan := At(app, [Ascii("Contents"), Ascii("Resources"), Ascii("release"), Ascii("plan.json")]);
      executable.Some? && !executable.value.directory && plan.Some? && !plan.value.directory ==> identity.Some?
  {
    var inventory := InventoryHash(app, utf8, sha256);
    if inventory.None? {
      return None;
    }
    var executable, plan := FileAt(app, Executable()), FileAt(app, Plan());
    if executable.None? || plan.None? {
      return None;
    }
    identity := Some(BundleIdentity(executable.value, plan.value, inventory.value));
    ContentOfFilesOnly(app, Executable());
    ContentOfFilesOnly(app, Plan());
  }

  /**
   * Two bundles with an identity have the same one exactly if they are the same tree, unless the hash confuses the
   * two inventories.
   */
  lemma IdentitiesAgreeIffTreesDo(a: Node, b: Node, sha256: Bytes -> string)
    requires Valid(a) && Valid(b) && NoOthers(a) && NoOthers(b) && PathsFit(a) && PathsFit(b)
    requires IdentityFor(a, sha256).Some? && IdentityFor(b, sha256).Some?
    requires sha256(Inventory(a)) == sha256(Inventory(b)) ==> Inventory(a) == Inventory(b)
    ensures IdentityFor(a, sha256) == IdentityFor(b, sha256) <==> SameTree(a, b)
  {
    hide Inventory, At, Valid, NoOthers, PathsFit;
    InventoriesAgreeIffTreesDo(a, b);
    if SameTree(a, b) {
      assert At(a, Executable()) == At(b, Executable()) && At(a, Plan()) == At(b, Plan());
    }
  }
}
