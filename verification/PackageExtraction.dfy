/** Extracting a checked inventory into an empty directory builds exactly the inventory's tree. */
module PackageExtraction {
  import opened Wrappers
  import opened Text
  import opened ByteStrings
  import opened Ordered
  import opened PackageInventory

  datatype Node = Directory(mode: nat) | File(content: Bytes, mode: nat)

  type Nodes = map<string, Node>

  datatype ExtractionError = UnsafeStaging | StagingNotEmpty | ExtractionFailed

  // ---- the staging directory ----

  predicate IsDirectory(nodes: Nodes, path: string)
  {
    path in nodes && nodes[path].Directory?
  }

  /** Every ancestor below the staging directory exists as a directory. */
  predicate AncestorsAreDirectories(nodes: Nodes, path: string)
    decreases |path|
  {
    Parent(path).Some? ==> IsDirectory(nodes, Parent(path).value) && AncestorsAreDirectories(nodes, Parent(path).value)
  }

  /** The directory that holds the path exists and its owner may enter and change it. */
  predicate Writable(nodes: Nodes, path: string)
  {
    Parent(path).Some? ==> IsDirectory(nodes, Parent(path).value) && nodes[Parent(path).value].mode / 64 % 4 == 3
  }

  /** Whatever stands before a separator of the path is a directory. */
  lemma {:induction false} AncestorsSpelledOut(nodes: Nodes, path: string)
    ensures AncestorsAreDirectories(nodes, path) <==>
      forall i :: 0 <= i < |path| && path[i] == '/' ==> IsDirectory(nodes, path[..i])
    decreases |path|
  {
    hide IsDirectory;
    ParentEndsAtTheLastSeparator(path);
    if Parent(path).Some? {
      var p := Parent(path).value;
      AncestorsSpelledOut(nodes, p);
      assert forall i :: 0 <= i < |p| ==> p[i] == path[i] && p[..i] == path[..i];
    }
  }

  lemma ParentOfJoined(directory: string, name: string)
    requires '/' !in name
    ensures Parent(directory + "/" + name) == Some(directory)
  {
    var path, n := directory + "/" + name, |directory|;
    ParentEndsAtTheLastSeparator(path);
    assert path[n] == '/' && path[..n] == directory;
    assert forall i :: n < i < |path| ==> path[i] == name[i - n - 1];
    assert forall i :: 0 <= i < |name| ==> name[i] in name;
    var p := Parent(path);
    assert path[n] in path;
    assert |p.value| == n;
  }

  /** The octal digits with the bits for writing and entering. */
  lemma OpenDigits(digits: nat)
    ensures digits % 4 == 3 <==> digits % 8 == 3 || digits % 8 == 7
  {
    var q, r := digits / 8, digits % 8;
    assert digits == 4 * (2 * q) + r;
  }

  /** The owner may write in and enter the directory that holds the path. */
  lemma WritableSpelledOut(nodes: Nodes, directory: string, name: string)
    requires '/' !in name
    ensures Writable(nodes, directory + "/" + name) <==>
      && directory in nodes && nodes[directory].Directory?
      && (nodes[directory].mode / 0x40 % 8 == 3 || nodes[directory].mode / 0x40 % 8 == 7)
  {
    hide Parent;
    ParentOfJoined(directory, name);
    if directory in nodes {
      OpenDigits(nodes[directory].mode / 0x40);
    }
  }

  /** Contents by path relative to the staging directory. */
  class Staging {
    var nodes: Nodes

    constructor ()
      ensures nodes == map[]
    {
      nodes := map[];
    }

    /** Creates what is not there yet; fails if the name is taken or the parent is missing or closed. */
    method Create(path: string, node: Node) returns (ok: bool)
      modifies this
      ensures ok <==> path !in old(nodes) && Writable(old(nodes), path)
      ensures nodes == if ok then old(nodes)[path := node] else old(nodes)
    {
      ok := path !in nodes && Writable(nodes, path);
      if ok {
        nodes := nodes[path := node];
      }
    }

    method SetMode(path: string, mode: nat) returns (ok: bool)
      modifies this
      ensures ok <==> path in old(nodes)
      ensures nodes == if ok then old(nodes)[path := old(nodes)[path].(mode := mode)] else old(nodes)
    {
      ok := path in nodes;
      if ok {
        nodes := nodes[path := nodes[path].(mode := mode)];
      }
    }
  }

  // ---- what is there after how much work ----

  predicate Readable(entries: seq<Entry>, tar: Bytes)
  {
    forall i :: 0 <= i < |entries| ==> entries[i].offset + entries[i].size <= |tar|
  }

  /** What an entry turns into. */
  function NodeOf(e: Entry, tar: Bytes): Node
    requires e.offset + e.size <= |tar|
  {
    if e.directory then Directory(e.mode) else File(tar[e.offset..e.offset + e.size], e.mode)
  }

  /** While entries are being written every directory has mode 0700. */
  function Draft(e: Entry, tar: Bytes): Node
    requires e.offset + e.size <= |tar|
  {
    if e.directory then Directory(0x1C0) else NodeOf(e, tar)
  }

  /** Exactly the first written entries are there; those from open onwards have their final form. */
  ghost predicate Holds(nodes: Nodes, entries: seq<Entry>, tar: Bytes, written: nat, draft: nat)
    requires Readable(entries, tar) && written <= |entries|
  {
    && (forall p :: p in nodes ==> exists i :: 0 <= i < written && entries[i].path == p)
    && (forall i :: 0 <= i < written ==> entries[i].path in nodes)
    && (forall i :: 0 <= i < written ==>
      nodes[entries[i].path] == if i < draft then Draft(entries[i], tar) else NodeOf(entries[i], tar))
  }

  lemma PathsDiffer(entries: seq<Entry>, i: nat, j: nat)
    requires Sorted(entries) && i < |entries| && j < |entries| && i != j
    ensures entries[i].path != entries[j].path
  {
    LessIsIrreflexive(entries[i].path);
  }

  lemma ParentIsLess(path: string)
    requires Parent(path).Some?
    ensures Less(Parent(path).value, path) && !Less(path, Parent(path).value)
  {
    hide Less, Parent;
    var parent := Parent(path).value;
    var rest := path[|parent|..];
    assert parent + rest == path;
    PrefixIsLess(parent, rest);
    LessIsIrreflexive(parent);
    if Less(path, parent) {
      LessIsTransitive(parent, path, parent);
    }
  }

  lemma RootedHasParent(entries: seq<Entry>, path: string)
    requires Parent(path).Some? && Rooted(entries, path)
    ensures HasDirectory(entries, Parent(path).value)
  {
  }

  /** In path order a parent is written before its children. */
  lemma ParentComesFirst(entries: seq<Entry>, i: nat) returns (k: nat)
    requires Sorted(entries) && i < |entries| && Parent(entries[i].path).Some? && Rooted(entries, entries[i].path)
    ensures k < i && entries[k].path == Parent(entries[i].path).value && entries[k].directory
  {
    hide Less, Parent, Rooted;
    var path := entries[i].path;
    RootedHasParent(entries, path);
    k :| 0 <= k < |entries| && entries[k].path == Parent(path).value && entries[k].directory;
    ParentIsLess(path);
  }

  /** When an entry's turn comes, its name is free and all its ancestors are open directories. */
  lemma {:induction false} ReadyForItsTurn(nodes: Nodes, entries: seq<Entry>, tar: Bytes, written: nat, i: nat)
    requires Sorted(entries) && Readable(entries, tar) && i <= written <= |entries| && i < |entries|
    requires Rooted(entries, entries[i].path) && Holds(nodes, entries, tar, written, |entries|)
    ensures AncestorsAreDirectories(nodes, entries[i].path) && Writable(nodes, entries[i].path)
    ensures i == written ==> entries[i].path !in nodes
    decreases |entries[i].path|
  {
    if Parent(entries[i].path).Some? {
      var k := ParentComesFirst(entries, i);
      ReadyForItsTurn(nodes, entries, tar, written, k);
    }
    if i == written && entries[i].path in nodes {
      var k :| 0 <= k < written && entries[k].path == entries[i].path;
      PathsDiffer(entries, k, i);
    }
  }

  lemma OneMoreWritten(nodes: Nodes, entries: seq<Entry>, tar: Bytes, i: nat)
    requires Sorted(entries) && Readable(entries, tar) && i < |entries| && Holds(nodes, entries, tar, i, |entries|)
    ensures Holds(nodes[entries[i].path := Draft(entries[i], tar)], entries, tar, i + 1, |entries|)
  {
    forall k | 0 <= k < i ensures entries[k].path != entries[i].path {
      PathsDiffer(entries, k, i);
    }
  }

  lemma OneMoreFinal(nodes: Nodes, entries: seq<Entry>, tar: Bytes, i: nat)
    requires Sorted(entries) && Readable(entries, tar) && i < |entries| && Holds(nodes, entries, tar, |entries|, i + 1)
    ensures Holds(nodes[entries[i].path := NodeOf(entries[i], tar)], entries, tar, |entries|, i)
  {
    forall k | 0 <= k < |entries| && k != i ensures entries[k].path != entries[i].path {
      PathsDiffer(entries, k, i);
    }
  }

  /** Writes one entry; a directory stays open for its children. */
  method WriteEntry(staging: Staging, e: Entry, tar: Bytes) returns (error: Option<ExtractionError>)
    requires e.offset + e.size <= |tar|
    modifies staging
    ensures error.None? <==>
      AncestorsAreDirectories(old(staging.nodes), e.path) && Writable(old(staging.nodes), e.path) &&
        e.path !in old(staging.nodes)
    ensures error.None? ==> staging.nodes == old(staging.nodes)[e.path := Draft(e, tar)]
  {
    if !AncestorsAreDirectories(staging.nodes, e.path) { return Some(UnsafeStaging); }
    var node := if e.directory then Directory(0x1FF) else File(tar[e.offset..e.offset + e.size], 0x1A4);
    var made := staging.Create(e.path, node);
    if !made { return Some(ExtractionFailed); }
    var changed := staging.SetMode(e.path, if e.directory then 0x1C0 else e.mode);
    if !changed { return Some(ExtractionFailed); }
    return None;
  }

  /** Gives a directory its own mode, after its children were written. */
  method FinishEntry(staging: Staging, e: Entry, tar: Bytes)
    requires e.offset + e.size <= |tar| && e.path in staging.nodes && staging.nodes[e.path] == Draft(e, tar)
    modifies staging
    ensures staging.nodes == old(staging.nodes)[e.path := NodeOf(e, tar)]
  {
    if e.directory {
      var _ := staging.SetMode(e.path, e.mode);
    }
  }

  /**
   * Writes the entries in path order, then gives the directories their modes in reverse order.
   * A checked inventory never fails on an empty directory, and nothing is written into another one.
   */
  method ExtractInto(staging: Staging, entries: seq<Entry>, tar: Bytes, limits: Limits, fold: string -> string)
    returns (error: Option<ExtractionError>)
    requires Tree(entries, limits, fold) && Readable(entries, tar)
    modifies staging
    ensures error.None? <==> old(staging.nodes) == map[]
    ensures error.None? ==> Holds(staging.nodes, entries, tar, |entries|, 0)
    ensures error.Some? ==> staging.nodes == old(staging.nodes)
  {
    if staging.nodes != map[] {
      return Some(StagingNotEmpty);
    }
    for i := 0 to |entries|
      invariant Holds(staging.nodes, entries, tar, i, |entries|)
    {
      ReadyForItsTurn(staging.nodes, entries, tar, i, i);
      OneMoreWritten(staging.nodes, entries, tar, i);
      error := WriteEntry(staging, entries[i], tar);
      if error.Some? { return; }
    }
    for i := |entries| downto 0
      invariant Holds(staging.nodes, entries, tar, |entries|, i)
    {
      OneMoreFinal(staging.nodes, entries, tar, i);
      FinishEntry(staging, entries[i], tar);
    }
    return None;
  }

  /** The entries an archive check accepted can be extracted from the same archive. */
  lemma InventoryIsReadable(tar: Bytes, blocks: seq<Block>, laid: seq<Entry>, entries: seq<Entry>,
                            hash: Bytes -> string)
    requires Tiled(tar, blocks, laid, hash) && forall e :: e in entries ==> e in laid
    ensures Readable(entries, tar)
  {
    forall i | 0 <= i < |entries| ensures entries[i].offset + entries[i].size <= |tar| {
      assert entries[i] in laid;
      var k :| 0 <= k < |laid| && laid[k] == entries[i];
      ContentIsWhereTheEntrySays(tar, blocks, laid, hash, k);
    }
  }

  /** What is on disk is what the blocks of the archive contain, and nothing else. */
  ghost predicate OnDisk(nodes: Nodes, blocks: seq<Block>, laid: seq<Entry>)
    requires |blocks| == |laid|
  {
    && (forall i :: 0 <= i < |laid| ==> laid[i].path in nodes)
    && (forall i :: 0 <= i < |laid| ==>
          nodes[laid[i].path] == if laid[i].directory then Directory(laid[i].mode)
            else File(blocks[i].content, laid[i].mode))
    && (forall p :: p in nodes ==> exists i :: 0 <= i < |laid| && laid[i].path == p)
  }

  lemma HeldIsOnDisk(nodes: Nodes, tar: Bytes, blocks: seq<Block>, laid: seq<Entry>, entries: seq<Entry>,
                     hash: Bytes -> string)
    requires Tiled(tar, blocks, laid, hash) && (forall e :: e in entries <==> e in laid) && Readable(entries, tar)
    requires Holds(nodes, entries, tar, |entries|, 0)
    ensures OnDisk(nodes, blocks, laid)
  {
    forall i | 0 <= i < |laid|
      ensures laid[i].path in nodes
      ensures nodes[laid[i].path] == if laid[i].directory then Directory(laid[i].mode)
        else File(blocks[i].content, laid[i].mode)
    {
      ContentIsWhereTheEntrySays(tar, blocks, laid, hash, i);
      assert laid[i] in entries;
      var k :| 0 <= k < |entries| && entries[k] == laid[i];
      assert nodes[entries[k].path] == NodeOf(entries[k], tar);
    }
    forall p | p in nodes ensures exists i :: 0 <= i < |laid| && laid[i].path == p {
      var k :| 0 <= k < |entries| && entries[k].path == p;
      assert entries[k] in laid;
    }
  }

  /** Checks an archive and extracts it; a refused archive leaves the directory empty. */
  method CheckAndExtract(tar: Bytes, readable: bool, yielded: seq<Yielded>, limits: Limits, fold: string -> string,
                         hash: Bytes -> string, staging: Staging)
    returns (r: Result<seq<Entry>, Error>, ghost blocks: seq<Block>, ghost laid: seq<Entry>)
    requires staging.nodes == map[] && |tar| <= USIZE_MAX
    modifies staging
    ensures r.Ok? <==> readable && exists bs, ls :: WellMade(tar, yielded, bs, ls, limits, fold, hash)
    ensures r.Err? ==> staging.nodes == map[]
    ensures r.Ok? ==> WellMade(tar, yielded, blocks, laid, limits, fold, hash) && OnDisk(staging.nodes, blocks, laid)
  {
    r, blocks, laid := Inventory(tar, readable, yielded, limits, fold, hash);
    hide Tree, Holds, Readable;
    if r.Ok? {
      InventoryIsReadable(tar, blocks, laid, r.value, hash);
      var error := ExtractInto(staging, r.value, tar, limits, fold);
      HeldIsOnDisk(staging.nodes, tar, blocks, laid, r.value, hash);
    }
  }
}
