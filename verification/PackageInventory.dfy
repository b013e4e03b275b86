/**
 * Checking an update archive: the tar bytes must be laid out without gaps, and the entries must form
 * one tree below the application root. The tar library's iterator is not trusted: it may yield
 * anything, in any order, and stop anywhere.
 */
module PackageInventory {
  import opened Wrappers
  import opened ByteStrings
  import opened Ordered
  import opened Sequences
  import opened Text

  datatype Limits = Limits(entries: nat, entry: nat)

  /** What the library yields for one entry; path is None when its bytes are not UTF-8. */
  datatype Yielded =
    | Broken
    | Header(
        kind: Byte,
        ustar: bool,
        gnu: bool,
        hasLinkName: bool,
        nameField: Bytes,
        prefixField: Bytes,
        path: Option<string>,
        mode: Option<nat>,
        size: nat,
        headerAt: nat,
        dataAt: nat)

  datatype Error =
    | InvalidTar
    | EntryLimitExceeded
    | UnsupportedEntry
    | InvalidPath
    | DuplicatePath
    | InvalidMode
    | EntrySizeLimitExceeded
    | MissingRequiredEntry
    | PathCollision

  datatype Entry = Entry(path: string, directory: bool, mode: nat, size: nat, offset: nat, sha256: string)

  const ROOT := "kb-app.app"
  const USIZE_MAX := 0xFFFF_FFFF_FFFF_FFFF

  // ---- paths ----

  function Split(s: string): (parts: seq<string>)
    ensures |parts| > 0
    decreases |s|
  {
    var i := IndexOf(s, '/');
    if i.None? then [s] else [s[..i.value]] + Split(s[i.value + 1..])
  }

  predicate Control(c: char)
  {
    c as int < 0x20 || 0x7F <= c as int < 0xA0
  }

  function Utf8Length(s: string): nat
  {
    if s == "" then 0
    else
      var c := s[0] as int;
      (if c < 0x80 then 1 else if c < 0x800 then 2 else if c < 0x10000 then 3 else 4) + Utf8Length(s[1..])
  }

  predicate Canonical(path: string)
  {
    && path != ""
    && (forall i :: 0 <= i < |Split(path)| ==> Split(path)[i] !in {"", ".", ".."})
    && (path == ROOT || ROOT + "/" <= path)
  }

  function CanonicalPath(raw: Option<string>, directory: bool): (r: Result<string, Error>)
    ensures r.Ok? ==> Canonical(r.value)
    ensures r.Ok? ==> raw.Some? && (r.value == raw.value || r.value + "/" == raw.value)
  {
    if raw.None? then Err(InvalidPath)
    else
      var s := raw.value;
      if Utf8Length(s) > 1024 || '\\' in s || (exists c :: c in s && Control(c)) then Err(InvalidPath)
      else
        var path := if directory && s != "" && s[|s| - 1] == '/' then s[..|s| - 1] else s;
        assert path == s || path + "/" == s;
        if Canonical(path) then Ok(path) else Err(InvalidPath)
  }

  /** Short enough, and without backslashes and control characters. */
  predicate Plain(raw: string)
  {
    Utf8Length(raw) <= 1024 && '\\' !in raw && forall c :: c in raw ==> !Control(c)
  }

  lemma {:induction false} TrailingSlashLeavesAnEmptyPart(s: string)
    requires s != "" && s[|s| - 1] == '/'
    ensures Split(s)[|Split(s)| - 1] == ""
    decreases |s|
  {
    var i := IndexOf(s, '/').value;
    if i + 1 < |s| {
      TrailingSlashLeavesAnEmptyPart(s[i + 1..]);
    } else {
      assert s[i + 1..] == "" && Split("") == [""];
    }
  }

  /**
   * A path is taken exactly from a plain text that is the path itself or, for a directory, the path with one
   * separator after it.
   */
  lemma AcceptedPaths(raw: string, directory: bool, path: string)
    ensures CanonicalPath(Some(raw), directory) == Ok(path) <==>
      Plain(raw) && Canonical(path) && (raw == path || (directory && raw == path + "/"))
  {
    hide Utf8Length, Control, Split;
    if Canonical(path) && path[|path| - 1] == '/' {
      TrailingSlashLeavesAnEmptyPart(path);
    }
    assert (path + "/")[..|path + "/"| - 1] == path;
  }

  /** The stretch from i to j lies between two separators, or between one of them and an end of the text. */
  predicate PartAt(s: string, i: nat, j: nat)
  {
    i <= j <= |s| && (i == 0 || s[i - 1] == '/') && (j == |s| || s[j] == '/') && '/' !in s[i..j]
  }

  /** Behind a separator the parts are those of the rest. */
  lemma PartOfRest(s: string, n: nat, a: nat, b: nat)
    requires n < |s| && s[n] == '/' && n < a <= b <= |s|
    ensures s[n + 1..][a - n - 1..b - n - 1] == s[a..b]
    ensures PartAt(s, a, b) <==> PartAt(s[n + 1..], a - n - 1, b - n - 1)
  {
    SliceOfSlice(s, n + 1, |s|, a - n - 1, b - n - 1);
    assert a - 1 > n ==> s[a - 1] == s[n + 1..][a - n - 2];
    assert b < |s| ==> s[b] == s[n + 1..][b - n - 1];
  }

  lemma SplitUnfolds(s: string)
    ensures IndexOf(s, '/').None? ==> Split(s) == [s]
    ensures IndexOf(s, '/').Some? ==>
      var n := IndexOf(s, '/').value; Split(s) == [s[..n]] + Split(s[n + 1..])
  {
  }

  /** The first part ends at the first separator. */
  lemma FirstPartEnds(s: string, j: nat)
    requires PartAt(s, 0, j)
    ensures s[0..j] == if IndexOf(s, '/').None? then s else s[..IndexOf(s, '/').value]
  {
    var at := IndexOf(s, '/');
    assert forall k :: 0 <= k < |s| ==> s[k] in s;
    if at.Some? {
      assert forall k :: 0 <= k < at.value ==> s[k] in s[..at.value];
      assert forall k :: 0 <= k < j ==> s[k] in s[0..j];
    }
  }

  /** A later part begins behind the first separator. */
  lemma LaterPartBegins(s: string, i: nat, j: nat)
    requires 0 < i && PartAt(s, i, j)
    ensures IndexOf(s, '/').Some? && IndexOf(s, '/').value < i <= j <= |s|
  {
    assert s[i - 1] in s;
    var at := IndexOf(s, '/');
    if at.Some? {
      assert forall k :: 0 <= k < at.value ==> s[k] in s[..at.value];
    }
  }

  lemma {:induction false} PartIsSplitOff(s: string, i: nat, j: nat)
    requires i <= j <= |s| && PartAt(s, i, j)
    ensures s[i..j] in Split(s)
    decreases |s|
  {
    hide Split, PartAt;
    SplitUnfolds(s);
    if i == 0 {
      FirstPartEnds(s, j);
      assert Split(s)[0] == s[i..j];
    } else {
      LaterPartBegins(s, i, j);
      var n := IndexOf(s, '/').value;
      PartOfRest(s, n, i, j);
      PartIsSplitOff(s[n + 1..], i - n - 1, j - n - 1);
    }
  }

  lemma {:induction false} SplitOffIsPart(s: string, k: nat) returns (i: nat, j: nat)
    requires k < |Split(s)|
    ensures i <= j <= |s| && PartAt(s, i, j) && s[i..j] == Split(s)[k]
    decreases |s|
  {
    hide Split, PartAt;
    SplitUnfolds(s);
    var at := IndexOf(s, '/');
    if k == 0 {
      i, j := 0, if at.None? then |s| else at.value;
      EndsArePart(s, j);
      assert s[0..|s|] == s;
    } else {
      var n := at.value;
      var a, b := SplitOffIsPart(s[n + 1..], k - 1);
      i, j := n + 1 + a, n + 1 + b;
      PartOfRest(s, n, i, j);
    }
  }

  lemma EndsArePart(s: string, j: nat)
    requires j <= |s| && '/' !in s[..j] && (j < |s| ==> s[j] == '/')
    ensures PartAt(s, 0, j)
  {
  }

  /** Nothing between the separators is empty or a dot name. */
  ghost predicate PartsHaveNames(path: string)
  {
    forall i, j :: 0 <= i <= j <= |path| && PartAt(path, i, j) ==>
      path[i..j] != "" && path[i..j] != "." && path[i..j] != ".."
  }

  /** The path is the root or lies below it, and its parts have names. */
  lemma CanonicalBetweenSeparators(path: string)
    ensures Canonical(path) <==>
      (path == "kb-app.app" || "kb-app.app/" <= path) && PartsHaveNames(path)
  {
    hide PartAt, Split;
    if Canonical(path) {
      forall i, j | 0 <= i <= j <= |path| && PartAt(path, i, j) ensures path[i..j] !in {"", ".", ".."} {
        PartIsSplitOff(path, i, j);
      }
    }
    if (path == "kb-app.app" || "kb-app.app/" <= path) && PartsHaveNames(path) {
      forall k | 0 <= k < |Split(path)| ensures Split(path)[k] !in {"", ".", ".."} {
        var i, j := SplitOffIsPart(path, k);
      }
    }
  }

  /** One to four bytes hold 7, 11, 16 and 21 bits; a character takes as few as hold it. */
  lemma {:induction false} Utf8LengthAdds(a: string, b: string, c: char, bytes: nat)
    requires 1 <= bytes <= 4 && (c as int) < [0x80, 0x800, 0x10000, 0x110000][bytes - 1]
    requires bytes > 1 ==> c as int >= [0x80, 0x800, 0x10000, 0x110000][bytes - 2]
    ensures Utf8Length(a + [c] + b) == Utf8Length(a) + bytes + Utf8Length(b)
    ensures Utf8Length("") == 0
  {
    if a == "" {
      assert a + [c] + b == [c] + b && ([c] + b)[1..] == b;
    } else {
      assert (a + [c] + b)[1..] == a[1..] + [c] + b;
      Utf8LengthAdds(a[1..], b, c, bytes);
    }
  }

  /** The field is a C string: nothing but zeros after the first zero. */
  predicate CanonicalCString(field: Bytes)
  {
    forall i, j :: 0 <= i < j < |field| && field[i] == 0 ==> field[j] == 0
  }

  function Parent(path: string): (p: Option<string>)
    ensures p.Some? ==> |p.value| < |path| && p.value + "/" <= path
    decreases |path|
  {
    if path == "" then None
    else if path[|path| - 1] == '/' then Some(path[..|path| - 1])
    else Parent(path[..|path| - 1])
  }

  // ---- the layout of an archive ----

  datatype Block = Block(header: Bytes, content: Bytes)

  function Padding(n: nat): (p: nat)
    ensures p < 512 && (n + p) % 512 == 0
  {
    (512 - n % 512) % 512
  }

  /** The bytes of one entry: header block, content, and zeros up to the next block. */
  function Piece(b: Block): Bytes
  {
    b.header + b.content + Zeros(Padding(|b.content|))
  }

  function Render(blocks: seq<Block>): Bytes
  {
    if blocks == [] then [] else Render(blocks[..|blocks| - 1]) + Piece(blocks[|blocks| - 1])
  }

  /** Entry e describes block i of the archive. */
  predicate Describes(e: Entry, blocks: seq<Block>, i: nat, hash: Bytes -> string)
    requires i < |blocks|
  {
    && e.offset == |Render(blocks[..i])| + 512
    && e.size == |blocks[i].content|
    && e.sha256 == hash(blocks[i].content)
  }

  /** The whole archive is header, content and padding of one entry after the other, then zero blocks. */
  ghost predicate Tiled(tar: Bytes, blocks: seq<Block>, laid: seq<Entry>, hash: Bytes -> string)
  {
    && |laid| == |blocks|
    && (forall i :: 0 <= i < |blocks| ==> |blocks[i].header| == 512 && Describes(laid[i], blocks, i, hash))
    && |Render(blocks)| + 1024 <= |tar|
    && |tar| % 512 == 0
    && tar == Render(blocks) + Zeros(|tar| - |Render(blocks)|)
  }

  // ---- the entries ----

  /** Permission bits only; the owner may enter, list and change a directory and may read a file. */
  predicate SafeMode(mode: nat, directory: bool)
  {
    mode < 0x200 && if directory then mode / 64 == 7 else mode / 256 % 2 == 1
  }

  predicate Admissible(e: Entry, limits: Limits)
  {
    && Canonical(e.path)
    && SafeMode(e.mode, e.directory)
    && (e.directory ==> e.size == 0)
    && e.size <= limits.entry
  }

  function PathOf(e: Entry): string
  {
    e.path
  }

  ghost predicate Sorted(entries: seq<Entry>)
  {
    SortedBy(PathOf, entries)
  }

  predicate HasDirectory(entries: seq<Entry>, path: string)
  {
    exists i :: 0 <= i < |entries| && entries[i].path == path && entries[i].directory
  }

  /** Every ancestor of the path is a directory of the inventory. */
  predicate Rooted(entries: seq<Entry>, path: string)
    decreases |path|
  {
    Parent(path).Some? ==> HasDirectory(entries, Parent(path).value) && Rooted(entries, Parent(path).value)
  }

  /** One tree below the root: sorted, without collisions even when case is ignored, closed under parents. */
  ghost predicate Tree(entries: seq<Entry>, limits: Limits, fold: string -> string)
  {
    && Sorted(entries)
    && |entries| <= limits.entries
    && (forall i :: 0 <= i < |entries| ==> Admissible(entries[i], limits) && Rooted(entries, entries[i].path))
    && (forall i, j :: 0 <= i < j < |entries| ==> fold(entries[i].path) != fold(entries[j].path))
    && HasDirectory(entries, ROOT)
  }

  // ---- an ordered map, kept as a sorted sequence ----

  function Insert(entries: seq<Entry>, e: Entry): seq<Entry>
  {
    InsertBy(PathOf, e, entries)
  }

  // ---- one entry ----

  /** Whether the type byte names a directory, if it names anything supported. */
  function Kind(b: Byte): Option<bool>
  {
    if b == 0 || b == 0x30 then Some(false) else if b == 0x35 then Some(true) else None
  }

  /** A ustar or GNU header without a link and with clean name fields. */
  predicate PlainHeader(y: Yielded)
    requires y.Header?
  {
    (y.ustar || y.gnu) && !y.hasLinkName && CanonicalCString(y.nameField) &&
      (y.ustar ==> CanonicalCString(y.prefixField))
  }

  /** The canonical path that a supported header names, and whether it names a directory. */
  function Name(y: Yielded): (r: Result<(string, bool), Error>)
    requires y.Header?
    ensures r.Ok? ==> Canonical(r.value.0)
  {
    var kind := Kind(y.kind);
    if kind.None? || !PlainHeader(y) then Err(UnsupportedEntry)
    else
      var path := CanonicalPath(y.path, kind.value);
      if path.Err? then Err(path.error) else Ok((path.value, kind.value))
  }

  function ModeAndSize(y: Yielded, directory: bool, limits: Limits): Option<Error>
    requires y.Header?
  {
    if y.mode.None? || !SafeMode(y.mode.value, directory) then Some(InvalidMode)
    else if y.size > limits.entry || (directory && y.size != 0) then Some(EntrySizeLimitExceeded)
    else None
  }

  lemma PaddingRoundsUp(n: nat)
    ensures (n + 511) / 512 * 512 == n + Padding(n)
  {
    var q, r := n / 512, n % 512;
    assert n == 512 * q + r;
    if r == 0 {
      assert (n + 511) / 512 == q;
    } else {
      assert (n + 511) / 512 == q + 1;
    }
  }

  /** The entry starts where the previous one ended, lies in the archive, and its padding is zero. */
  predicate InPlace(tar: Bytes, y: Yielded, next: nat)
    requires y.Header?
  {
    && y.headerAt == next && y.dataAt == next + 512
    && y.dataAt + y.size + Padding(y.size) <= |tar|
    && forall i :: y.dataAt + y.size <= i < y.dataAt + y.size + Padding(y.size) ==> tar[i] == 0
  }

  lemma FourSlices(s: Bytes, a: nat, b: nat, c: nat, d: nat)
    requires a <= b <= c <= d <= |s|
    ensures s[..d] == s[..a] + s[a..b] + s[b..c] + s[c..d]
  {
    assert s[..b] == s[..a] + s[a..b];
    assert s[..c] == s[..b] + s[b..c];
    assert s[..d] == s[..c] + s[c..d];
  }

  method CheckPlace(tar: Bytes, y: Yielded, next: nat) returns (r: Result<nat, Error>, ghost b: Block)
    requires y.Header? && next <= |tar| <= USIZE_MAX
    ensures r.Ok? <==> InPlace(tar, y, next)
    ensures r.Err? ==> r.error == InvalidTar
    ensures r.Ok? ==> r.value == y.dataAt + y.size + Padding(y.size) && tar[..r.value] == tar[..next] + Piece(b)
    ensures r.Ok? ==> b == Block(tar[next..next + 512], tar[next + 512..next + 512 + y.size])
  {
    b := Block([], []);
    PaddingRoundsUp(y.size);
    if y.dataAt + y.size > USIZE_MAX || y.dataAt + (y.size + 511) / 512 * 512 > USIZE_MAX {
      return Err(InvalidTar), b;
    }
    var end, padded := y.dataAt + y.size, y.dataAt + (y.size + 511) / 512 * 512;
    if y.headerAt != next || y.dataAt != next + 512 || padded > |tar| {
      return Err(InvalidTar), b;
    }
    if exists i :: end <= i < padded && tar[i] != 0 {
      return Err(InvalidTar), b;
    }
    b := Block(tar[next..y.dataAt], tar[y.dataAt..end]);
    assert tar[end..padded] == Zeros(Padding(y.size));
    FourSlices(tar, next, y.dataAt, end, padded);
    return Ok(padded), b;
  }

  /** Follows the parents up to the root. */
  method CheckAncestors(entries: seq<Entry>, path: string) returns (ok: bool)
    ensures ok <==> Rooted(entries, path)
  {
    var child := path;
    while Parent(child).Some?
      invariant Rooted(entries, path) <==> Rooted(entries, child)
      decreases |child|
    {
      var parent := Parent(child).value;
      if !HasDirectory(entries, parent) {
        return false;
      }
      child := parent;
    }
    return true;
  }

  // ---- the whole archive ----

  /** The archive up to next is exactly the blocks read so far, and their entries describe them. */
  ghost predicate Laid(tar: Bytes, blocks: seq<Block>, laid: seq<Entry>, next: nat, hash: Bytes -> string)
  {
    && |laid| == |blocks|
    && (forall i :: 0 <= i < |blocks| ==> |blocks[i].header| == 512 && Describes(laid[i], blocks, i, hash))
    && next <= |tar| && tar[..next] == Render(blocks)
  }

  lemma NextBlockIsLaid(tar: Bytes, blocks: seq<Block>, laid: seq<Entry>, next: nat, b: Block, e: Entry, after: nat,
                        hash: Bytes -> string)
    requires Laid(tar, blocks, laid, next, hash)
    requires after <= |tar| && tar[..after] == tar[..next] + Piece(b)
    requires |b.header| == 512 && e.offset == next + 512 && e.size == |b.content| && e.sha256 == hash(b.content)
    ensures Laid(tar, blocks + [b], laid + [e], after, hash)
  {
    var bs, es := blocks + [b], laid + [e];
    assert bs[..|bs| - 1] == blocks;
    forall i | 0 <= i < |bs| ensures |bs[i].header| == 512 && Describes(es[i], bs, i, hash) {
      if i < |blocks| {
        assert bs[..i] == blocks[..i] && Describes(laid[i], blocks, i, hash);
      } else {
        assert bs[..i] == blocks;
      }
    }
  }

  /** The entries read so far: where they lie, and what the ordered map and the folded names hold. */
  ghost predicate Collected(entries: seq<Entry>, laid: seq<Entry>, folded: set<string>, limits: Limits,
                            fold: string -> string)
  {
    && Sorted(entries)
    && |laid| == |entries| <= limits.entries
    && (forall e :: e in entries <==> e in laid)
    && (forall e :: e in laid ==> Admissible(e, limits) && fold(e.path) in folded)
    && (forall f :: f in folded ==> exists e :: e in laid && fold(e.path) == f)
    && (forall a, b :: a in laid && b in laid && a != b ==> fold(a.path) != fold(b.path))
  }

  lemma CollectOneMore(entries: seq<Entry>, laid: seq<Entry>, folded: set<string>, limits: Limits,
                       fold: string -> string, e: Entry)
    requires Collected(entries, laid, folded, limits, fold) && Admissible(e, limits) && |entries| < limits.entries
    requires fold(e.path) !in folded
    ensures Collected(Insert(entries, e), laid + [e], folded + {fold(e.path)}, limits, fold)
  {
    forall i | 0 <= i < |entries| ensures entries[i].path != e.path {
      assert entries[i] in laid;
    }
    InsertSorts(PathOf, e, entries);
    InsertedHolds(entries, laid, e);
    hide Sorted, SortedBy, Insert, Admissible;
    FoldedHolds(laid, folded, fold, e);
  }

  lemma InsertedHolds(entries: seq<Entry>, laid: seq<Entry>, e: Entry)
    requires forall x :: x in entries <==> x in laid
    ensures |Insert(entries, e)| == |entries| + 1
    ensures forall x :: x in Insert(entries, e) <==> x in laid + [e]
  {
    InsertAdds(PathOf, e, entries);
    forall x ensures x in Insert(entries, e) <==> x in laid + [e] {
      InsertHolds(PathOf, e, entries, x);
    }
  }

  lemma FoldedHolds(laid: seq<Entry>, folded: set<string>, fold: string -> string, e: Entry)
    requires forall f :: f in folded ==> exists x :: x in laid && fold(x.path) == f
    ensures forall f :: f in folded + {fold(e.path)} ==> exists x :: x in laid + [e] && fold(x.path) == f
  {
    forall f | f in folded + {fold(e.path)} ensures exists x :: x in laid + [e] && fold(x.path) == f {
      if f in folded {
        var x :| x in laid && fold(x.path) == f;
        assert x in laid + [e];
      } else {
        assert e in laid + [e];
      }
    }
  }

  /** What makes an entry acceptable after those that were collected. */
  predicate Takes(tar: Bytes, y: Yielded, next: nat, entries: seq<Entry>, folded: set<string>, limits: Limits,
                  fold: string -> string)
  {
    && y.Header? && |entries| < limits.entries && Name(y).Ok?
    && (forall i :: 0 <= i < |entries| ==> entries[i].path != Name(y).value.0)
    && fold(Name(y).value.0) !in folded
    && ModeAndSize(y, Name(y).value.1, limits).None?
    && InPlace(tar, y, next)
  }

  /** The path, or one that differs from it only in case, was read before. */
  predicate Taken(path: string, entries: seq<Entry>, folded: set<string>, fold: string -> string)
  {
    fold(path) in folded || exists i :: 0 <= i < |entries| && entries[i].path == path
  }

  /** Whether an entry is refused, and with which error: the first objection counts. */
  ghost predicate Refused(tar: Bytes, y: Yielded, next: nat, entries: seq<Entry>, folded: set<string>, limits: Limits,
                          fold: string -> string, error: Error)
  {
    if y.Broken? then error == InvalidTar
    else if |entries| >= limits.entries then error == EntryLimitExceeded
    else if !Supported(y) then error == UnsupportedEntry
    else if forall p :: !Names(y, p) then error == InvalidPath
    else if exists p :: Names(y, p) && Taken(p, entries, folded, fold) then error == DuplicatePath
    else if !ModeFits(y) then error == InvalidMode
    else if !SizeFits(y, limits) then error == EntrySizeLimitExceeded
    else !InPlace(tar, y, next) && error == InvalidTar
  }

  /** Reads one entry into the collection. */
  method ReadEntry(tar: Bytes, y: Yielded, next: nat, entries: seq<Entry>, folded: set<string>, limits: Limits,
                   fold: string -> string, hash: Bytes -> string, ghost blocks: seq<Block>, ghost laid: seq<Entry>)
    returns (r: Result<(nat, Entry), Error>, ghost b: Block)
    requires |tar| <= USIZE_MAX && Laid(tar, blocks, laid, next, hash) && Collected(entries, laid, folded, limits, fold)
    ensures r.Ok? <==> Takes(tar, y, next, entries, folded, limits, fold)
    ensures r.Err? ==> Refused(tar, y, next, entries, folded, limits, fold, r.error)
    ensures r.Ok? ==>
      && Ordinary(y, r.value.1, next, limits) && |entries| < limits.entries && InPlace(tar, y, next)
      && !Taken(r.value.1.path, entries, folded, fold)
    ensures r.Ok? ==> Laid(tar, blocks + [b], laid + [r.value.1], r.value.0, hash)
    ensures r.Ok? ==>
      Collected(Insert(entries, r.value.1), laid + [r.value.1], folded + {fold(r.value.1.path)}, limits, fold)
    ensures r.Ok? ==> Matches(y, r.value.1, next) && r.value.1.offset == next + 512 && fold(r.value.1.path) !in folded
    ensures r.Ok? ==> next + 512 + r.value.1.size <= |tar|
    ensures r.Ok? ==>
      b == Block(tar[next..next + 512], tar[next + 512..next + 512 + r.value.1.size]) &&
        r.value.1.sha256 == hash(b.content)
  {
    hide Laid, Collected, Canonical, CanonicalPath, PlainHeader, Insert, Name, Supported, Names, SizeFits, ModeAndSize;
    hide Ordinary, SafeMode;
    b := Block([], []);
    if y.Broken? {
      return Err(InvalidTar), b;
    }
    if |entries| >= limits.entries {
      return Err(EntryLimitExceeded), b;
    }
    NameOrError(y);
    var name := Name(y);
    if name.Err? {
      return Err(name.error), b;
    }
    var (path, directory) := name.value;
    if (exists i :: 0 <= i < |entries| && entries[i].path == path) || fold(path) in folded {
      return Err(DuplicatePath), b;
    }
    ModeAndSizeIff(y, limits);
    var odd := ModeAndSize(y, directory, limits);
    if odd.Some? {
      return Err(odd.value), b;
    }
    LaidInside(tar, blocks, laid, next, hash);
    var place;
    place, b := CheckPlace(tar, y, next);
    if place.Err? {
      return Err(place.error), b;
    }
    var e := Entry(path, directory, y.mode.value, y.size, y.dataAt, hash(tar[y.dataAt..y.dataAt + y.size]));
    OrdinaryIffTold(y, e, next, limits);
    ReadIsOrdinary(tar, y, e, next, limits);
    CollectOneMore(entries, laid, folded, limits, fold, e);
    NextBlockIsLaid(tar, blocks, laid, next, b, e, place.value, hash);
    return Ok((place.value, e)), b;
  }

  lemma LaidInside(tar: Bytes, blocks: seq<Block>, laid: seq<Entry>, next: nat, hash: Bytes -> string)
    requires Laid(tar, blocks, laid, next, hash)
    ensures next <= |tar| && next == |Render(blocks)|
  {
  }

  // ---- what is accepted ----

  /** The library tells the truth about an entry whose header is at the given place. */
  predicate Matches(y: Yielded, e: Entry, at: nat)
  {
    && y.Header? && Name(y) == Ok((e.path, e.directory))
    && y.mode == Some(e.mode) && y.size == e.size && y.headerAt == at && y.dataAt == at + 512
  }

  // ---- entries, spelled out ----

  predicate ZeroFrom(field: Bytes, n: nat)
  {
    n <= |field| && 0 !in field[..n] && forall i :: n <= i < |field| ==> field[i] == 0
  }

  /** The field holds a text and then only zeros. */
  ghost predicate ZeroEnded(field: Bytes)
  {
    exists n :: ZeroFrom(field, n)
  }

  /** A file or directory in the ustar or GNU format, without a link. */
  ghost predicate Supported(y: Yielded)
  {
    && y.Header? && (y.kind == 0 || y.kind == 0x30 || y.kind == 0x35) && (y.ustar || y.gnu) && !y.hasLinkName
    && ZeroEnded(y.nameField) && (y.ustar ==> ZeroEnded(y.prefixField))
  }

  /** The header names the path, a directory possibly with one separator after it. */
  ghost predicate Names(y: Yielded, path: string)
    requires y.Header?
  {
    && y.path.Some? && (y.path.value == path || (y.kind == 0x35 && y.path.value == path + "/"))
    && Utf8Length(y.path.value) <= 1024
    && (forall c :: c in y.path.value ==> c != '\\' && ' ' <= c && !('\U{7F}' <= c <= '\U{9F}'))
    && (path == "kb-app.app" || "kb-app.app/" <= path) && PartsHaveNames(path)
  }

  /** Directories are open to their owner, files can be read by it, and nothing but permissions is set. */
  predicate ModeFits(y: Yielded)
    requires y.Header?
  {
    y.mode.Some? && (if y.kind == 0x35 then 0x1C0 else 0x100) <= y.mode.value < 0x200
  }

  predicate SizeFits(y: Yielded, limits: Limits)
    requires y.Header?
  {
    y.size <= limits.entry && (y.kind == 0x35 ==> y.size == 0)
  }

  /** What may be in an archive as this entry, and where. */
  ghost predicate Ordinary(y: Yielded, e: Entry, at: nat, limits: Limits)
  {
    && y.Header? && Supported(y) && Names(y, e.path) && ModeFits(y) && SizeFits(y, limits)
    && e.directory == (y.kind == 0x35) && y.mode == Some(e.mode) && y.size == e.size
    && y.headerAt == at && y.dataAt == at + 512
  }

  lemma {:induction false} ZerosAtTheEnd(field: Bytes) returns (n: nat)
    requires CanonicalCString(field)
    ensures ZeroFrom(field, n)
  {
    n := 0;
    while n < |field| && field[n] != 0
      invariant n <= |field| && 0 !in field[..n]
    {
      n := n + 1;
    }
  }

  lemma ZeroEndedIffCanonical(field: Bytes)
    ensures ZeroEnded(field) <==> CanonicalCString(field)
  {
    if CanonicalCString(field) {
      var n := ZerosAtTheEnd(field);
    }
    if ZeroEnded(field) {
      var n: nat :| ZeroFrom(field, n);
      assert forall k :: 0 <= k < n ==> field[k] in field[..n];
      forall i, j | 0 <= i < j < |field| && field[i] == 0 ensures field[j] == 0 {
      }
    }
  }

  lemma SafeModeBounds(mode: nat)
    ensures SafeMode(mode, true) <==> 0x1C0 <= mode < 0x200
    ensures SafeMode(mode, false) <==> 0x100 <= mode < 0x200
  {
  }

  lemma SupportedIff(y: Yielded)
    requires y.Header?
    ensures Supported(y) <==> Kind(y.kind).Some? && PlainHeader(y)
    ensures Supported(y) ==> Kind(y.kind) == Some(y.kind == 0x35)
  {
    hide ZeroEnded, CanonicalCString;
    ZeroEndedIffCanonical(y.nameField);
    ZeroEndedIffCanonical(y.prefixField);
  }

  lemma NamesIff(y: Yielded, path: string)
    requires y.Header?
    ensures Names(y, path) <==> CanonicalPath(y.path, y.kind == 0x35) == Ok(path)
  {
    hide Canonical, PartAt, Utf8Length, CanonicalPath;
    if y.path.Some? {
      AcceptedPaths(y.path.value, y.kind == 0x35, path);
      CanonicalBetweenSeparators(path);
    } else {
      NothingNamed(y.kind == 0x35, path);
    }
  }

  lemma NothingNamed(directory: bool, path: string)
    ensures CanonicalPath(None, directory) != Ok(path)
  {
  }

  lemma NameIff(y: Yielded, path: string, directory: bool)
    requires y.Header?
    ensures Name(y) == Ok((path, directory)) <==> Supported(y) && Names(y, path) && directory == (y.kind == 0x35)
  {
    hide Supported, Names, PlainHeader, CanonicalPath, Kind;
    SupportedIff(y);
    NamesIff(y, path);
  }

  lemma NameOrError(y: Yielded)
    requires y.Header?
    ensures var name := Name(y);
      if !Supported(y) then name == Err(UnsupportedEntry)
      else if name.Ok? then
        && name.value.1 == (y.kind == 0x35) && Names(y, name.value.0)
        && forall p :: Names(y, p) ==> p == name.value.0
      else name == Err(InvalidPath) && forall p :: !Names(y, p)
  {
    hide Supported, Names, PlainHeader, CanonicalPath, Kind;
    SupportedIff(y);
    PathOrError(y.path, y.kind == 0x35);
    forall p ensures Names(y, p) <==> CanonicalPath(y.path, y.kind == 0x35) == Ok(p) {
      NamesIff(y, p);
    }
  }

  lemma PathOrError(raw: Option<string>, directory: bool)
    ensures CanonicalPath(raw, directory).Err? ==> CanonicalPath(raw, directory) == Err(InvalidPath)
  {
  }

  lemma ModeAndSizeIff(y: Yielded, limits: Limits)
    requires y.Header?
    ensures ModeAndSize(y, y.kind == 0x35, limits)
      == if !ModeFits(y) then Some(InvalidMode)
        else if !SizeFits(y, limits) then Some(EntrySizeLimitExceeded) else None
  {
    hide SafeMode;
    if y.mode.Some? {
      SafeModeBounds(y.mode.value);
    }
  }

  /** What was read under a fitting header is ordinary. */
  lemma ReadIsOrdinary(tar: Bytes, y: Yielded, e: Entry, next: nat, limits: Limits)
    requires y.Header? && Supported(y) && Names(y, e.path) && ModeFits(y) && SizeFits(y, limits)
    requires InPlace(tar, y, next)
    requires e.directory == (y.kind == 0x35) && y.mode == Some(e.mode) && e.size == y.size
    ensures Ordinary(y, e, next, limits)
  {
    hide Supported, Names;
  }

  /** The entries of an archive are exactly its ordinary ones. */
  lemma OrdinaryIffTold(y: Yielded, e: Entry, at: nat, limits: Limits)
    ensures Ordinary(y, e, at, limits) <==> Matches(y, e, at) && Admissible(e, limits)
  {
    hide Supported, Names, Canonical, SafeMode, Name;
    if y.Header? {
      NameIff(y, e.path, e.directory);
      NamedIsCanonical(y, e.path);
      SafeModeBounds(e.mode);
      assert SafeMode(e.mode, e.directory) == if e.directory then SafeMode(e.mode, true) else SafeMode(e.mode, false);
    }
  }

  lemma NamedIsCanonical(y: Yielded, path: string)
    requires y.Header?
    ensures Names(y, path) ==> Canonical(path)
  {
    hide Canonical;
    CanonicalBetweenSeparators(path);
  }

  predicate MatchesAt(yielded: seq<Yielded>, blocks: seq<Block>, laid: seq<Entry>, i: nat)
    requires i < |yielded| && i < |laid| && i <= |blocks|
  {
    Matches(yielded[i], laid[i], |Render(blocks[..i])|)
  }

  /** The library yields every entry, in order and truthfully. */
  ghost predicate Told(yielded: seq<Yielded>, blocks: seq<Block>, laid: seq<Entry>, limits: Limits)
  {
    && |yielded| == |laid| == |blocks| <= limits.entries
    && forall i :: 0 <= i < |laid| ==> MatchesAt(yielded, blocks, laid, i) && Admissible(laid[i], limits)
  }

  /** No two paths are the same, even when case is ignored. */
  ghost predicate Apart(laid: seq<Entry>, fold: string -> string)
  {
    forall i, j :: 0 <= i < j < |laid| ==> fold(laid[i].path) != fold(laid[j].path)
  }

  /** The root and every parent are there. */
  ghost predicate Complete(laid: seq<Entry>)
  {
    HasDirectory(laid, ROOT) && forall i :: 0 <= i < |laid| ==> Rooted(laid, laid[i].path)
  }

  /** The archive is laid out as these blocks, the library yields them in order, and their entries form one tree. */
  ghost predicate Correct(tar: Bytes, yielded: seq<Yielded>, blocks: seq<Block>, laid: seq<Entry>, limits: Limits,
                          fold: string -> string, hash: Bytes -> string)
  {
    Tiled(tar, blocks, laid, hash) && Told(yielded, blocks, laid, limits) && Apart(laid, fold) && Complete(laid)
  }

  // ---- archives, spelled out ----

  lemma {:induction false} ParentEndsAtTheLastSeparator(path: string)
    ensures Parent(path).None? ==> '/' !in path
    ensures Parent(path).Some? ==>
      var p := Parent(path).value;
      |p| < |path| && p == path[..|p|] && path[|p|] == '/' && forall i :: |p| < i < |path| ==> path[i] != '/'
  {
    if path != "" && path[|path| - 1] != '/' {
      var rest := path[..|path| - 1];
      ParentEndsAtTheLastSeparator(rest);
      assert path == rest + [path[|path| - 1]];
    }
  }

  ghost predicate DirectoryIn(entries: seq<Entry>, path: string)
  {
    exists d :: d in entries && d.directory && d.path == path
  }

  /** Whatever stands before a separator of the path is a directory of the archive. */
  ghost predicate ParentsIn(entries: seq<Entry>, path: string)
  {
    forall i :: 0 <= i < |path| && path[i] == '/' ==> DirectoryIn(entries, path[..i])
  }

  lemma DirectoryInIff(entries: seq<Entry>, path: string)
    ensures HasDirectory(entries, path) <==> DirectoryIn(entries, path)
  {
    if HasDirectory(entries, path) {
      var k :| 0 <= k < |entries| && entries[k].path == path && entries[k].directory;
      assert entries[k] in entries;
    }
  }

  lemma {:induction false} RootedIffParentsIn(entries: seq<Entry>, path: string)
    ensures Rooted(entries, path) <==> ParentsIn(entries, path)
    decreases |path|
  {
    hide HasDirectory, DirectoryIn;
    ParentEndsAtTheLastSeparator(path);
    if Parent(path).Some? {
      var p := Parent(path).value;
      RootedIffParentsIn(entries, p);
      DirectoryInIff(entries, p);
      assert forall i :: 0 <= i < |p| ==> p[i] == path[i] && p[..i] == path[..i];
    }
  }

  ghost predicate OrdinaryAt(yielded: seq<Yielded>, blocks: seq<Block>, laid: seq<Entry>, i: nat, limits: Limits)
    requires i < |yielded| && i < |laid| && i <= |blocks|
  {
    Ordinary(yielded[i], laid[i], |Render(blocks[..i])|, limits)
  }

  /** The library yields exactly the blocks of the archive, and they are ordinary entries that form one tree. */
  ghost predicate WellMade(tar: Bytes, yielded: seq<Yielded>, blocks: seq<Block>, laid: seq<Entry>, limits: Limits,
                           fold: string -> string, hash: Bytes -> string)
  {
    && Tiled(tar, blocks, laid, hash) && |yielded| == |laid| == |blocks| <= limits.entries
    && (forall i :: 0 <= i < |laid| ==> OrdinaryAt(yielded, blocks, laid, i, limits))
    && (forall i, j :: 0 <= i < |laid| && 0 <= j < |laid| && i != j ==> fold(laid[i].path) != fold(laid[j].path))
    && DirectoryIn(laid, "kb-app.app")
    && forall i :: 0 <= i < |laid| ==> ParentsIn(laid, laid[i].path)
  }

  /** The archives that are accepted are the well-made ones. */
  lemma CorrectIffWellMade(tar: Bytes, yielded: seq<Yielded>, blocks: seq<Block>, laid: seq<Entry>, limits: Limits,
                           fold: string -> string, hash: Bytes -> string)
    ensures Correct(tar, yielded, blocks, laid, limits, fold, hash)
      <==> WellMade(tar, yielded, blocks, laid, limits, fold, hash)
  {
    hide Tiled, Render, HasDirectory, DirectoryIn, Rooted, ParentsIn, Ordinary, Matches, Admissible;
    DirectoryInIff(laid, ROOT);
    forall i | 0 <= i < |laid| ensures Rooted(laid, laid[i].path) <==> ParentsIn(laid, laid[i].path) {
      RootedIffParentsIn(laid, laid[i].path);
    }
    if |laid| == |blocks| == |yielded| {
      forall i | 0 <= i < |laid|
        ensures OrdinaryAt(yielded, blocks, laid, i, limits)
          <==> MatchesAt(yielded, blocks, laid, i) && Admissible(laid[i], limits)
      {
        OrdinaryIffTold(yielded[i], laid[i], |Render(blocks[..i])|, limits);
      }
    }
  }

  lemma SomeCorrectIffSomeWellMade(tar: Bytes, yielded: seq<Yielded>, limits: Limits, fold: string -> string,
                                   hash: Bytes -> string)
    ensures (exists bs, ls :: Correct(tar, yielded, bs, ls, limits, fold, hash))
      <==> exists bs, ls :: WellMade(tar, yielded, bs, ls, limits, fold, hash)
  {
    hide *;
    forall bs, ls
      ensures Correct(tar, yielded, bs, ls, limits, fold, hash) <==> WellMade(tar, yielded, bs, ls, limits, fold, hash)
    {
      CorrectIffWellMade(tar, yielded, bs, ls, limits, fold, hash);
    }
  }

  lemma BlockInPlace(tar: Bytes, blocks: seq<Block>, laid: seq<Entry>, hash: Bytes -> string, i: nat)
    requires Tiled(tar, blocks, laid, hash) && i < |blocks|
    ensures var at, b := |Render(blocks[..i])|, blocks[i];
      && at + |Piece(b)| <= |tar| && tar[at..at + |Piece(b)|] == Piece(b)
  {
    RenderSplits(blocks, i);
    RenderPrefix(blocks, i + 1, |blocks|);
    assert blocks[..|blocks|] == blocks;
    var front, p, next := Render(blocks[..i]), Piece(blocks[i]), Render(blocks[..i + 1]);
    assert next <= Render(blocks) <= tar;
    SliceOfSecond(front, p, 0, |p|);
    SliceOfPrefix(tar, |next|, |front|, |next|);
  }

  lemma PieceInParts(tar: Bytes, at: nat, b: Block)
    requires |b.header| == 512 && at + |Piece(b)| <= |tar| && tar[at..at + |Piece(b)|] == Piece(b)
    ensures at + 512 + |b.content| + Padding(|b.content|) == at + |Piece(b)|
    ensures b == Block(tar[at..at + 512], tar[at + 512..at + 512 + |b.content|])
    ensures forall i :: at + 512 + |b.content| <= i < at + |Piece(b)| ==> tar[i] == 0
  {
    var piece := tar[at..at + |Piece(b)|];
    assert b.header == piece[..512] == tar[at..at + 512];
    assert b.content == piece[512..512 + |b.content|];
    SliceOfSlice(tar, at, at + |Piece(b)|, 512, 512 + |b.content|);
    forall i | at + 512 + |b.content| <= i < at + |Piece(b)| ensures tar[i] == 0 {
      assert tar[i] == piece[i - at];
    }
  }

  /** Where an entry of a tiled archive is. */
  lemma EntryInPlace(tar: Bytes, blocks: seq<Block>, laid: seq<Entry>, hash: Bytes -> string, n: nat)
    requires Tiled(tar, blocks, laid, hash) && n < |laid|
    ensures var at, e := |Render(blocks[..n])|, laid[n];
      && at + 512 + e.size + Padding(e.size) <= |tar|
      && blocks[n] == Block(tar[at..at + 512], tar[at + 512..at + 512 + e.size])
      && e.offset == at + 512 && e.sha256 == hash(blocks[n].content)
      && forall i :: at + 512 + e.size <= i < at + 512 + e.size + Padding(e.size) ==> tar[i] == 0
  {
    assert Describes(laid[n], blocks, n, hash) && |blocks[n].header| == 512;
    BlockInPlace(tar, blocks, laid, hash, n);
    PieceInParts(tar, |Render(blocks[..n])|, blocks[n]);
  }

  /** A truthful next entry that differs from all before it is taken. */
  lemma ToldIsTaken(tar: Bytes, y: Yielded, e: Entry, next: nat, entries: seq<Entry>, laid: seq<Entry>,
                    folded: set<string>, limits: Limits, fold: string -> string)
    requires Matches(y, e, next) && Admissible(e, limits) && InPlace(tar, y, next)
    requires Collected(entries, laid, folded, limits, fold) && |laid| < limits.entries
    requires forall x :: x in laid ==> fold(x.path) != fold(e.path)
    ensures Takes(tar, y, next, entries, folded, limits, fold)
  {
    hide InPlace, Name, Canonical, SafeMode;
    forall i | 0 <= i < |entries| ensures entries[i].path != e.path {
      assert entries[i] in laid;
    }
  }

  lemma ToldInPlace(tar: Bytes, y: Yielded, e: Entry, next: nat)
    requires Matches(y, e, next) && next + 512 + e.size + Padding(e.size) <= |tar|
    requires forall i :: next + 512 + e.size <= i < next + 512 + e.size + Padding(e.size) ==> tar[i] == 0
    ensures InPlace(tar, y, next)
  {
    hide Name, Padding;
  }

  lemma SameRoots(a: seq<Entry>, b: seq<Entry>, path: string)
    requires forall e :: e in a <==> e in b
    ensures HasDirectory(a, path) <==> HasDirectory(b, path)
  {
    if HasDirectory(a, path) {
      var i :| 0 <= i < |a| && a[i].path == path && a[i].directory;
      assert a[i] in b;
    }
    if HasDirectory(b, path) {
      var i :| 0 <= i < |b| && b[i].path == path && b[i].directory;
      assert b[i] in a;
    }
  }

  lemma {:induction false} SameAncestors(a: seq<Entry>, b: seq<Entry>, path: string)
    requires forall e :: e in a <==> e in b
    ensures Rooted(a, path) <==> Rooted(b, path)
    decreases |path|
  {
    if Parent(path).Some? {
      SameRoots(a, b, Parent(path).value);
      SameAncestors(a, b, Parent(path).value);
    }
  }

  /** The tree of the collected entries and that of the entries as they were laid are the same. */
  lemma TreeIffLaidTree(entries: seq<Entry>, laid: seq<Entry>, folded: set<string>, limits: Limits,
                        fold: string -> string)
    requires Collected(entries, laid, folded, limits, fold)
    ensures Tree(entries, limits, fold) <==> Complete(laid)
  {
    SameRoots(entries, laid, ROOT);
    if Complete(laid) {
      forall k | 0 <= k < |entries| ensures Rooted(entries, entries[k].path) {
        assert entries[k] in laid;
        SameAncestors(entries, laid, entries[k].path);
      }
      CollectedFormsTree(entries, laid, folded, limits, fold);
    }
    if Tree(entries, limits, fold) {
      forall i | 0 <= i < |laid| ensures Rooted(laid, laid[i].path) {
        assert laid[i] in entries;
        SameAncestors(entries, laid, laid[i].path);
      }
    }
  }

  lemma LaidStaysApart(entries: seq<Entry>, laid: seq<Entry>, folded: set<string>, limits: Limits,
                       fold: string -> string, e: Entry)
    requires Collected(entries, laid, folded, limits, fold) && fold(e.path) !in folded
    requires Apart(laid, fold)
    ensures Apart(laid + [e], fold)
  {
    forall i | 0 <= i < |laid| ensures fold(laid[i].path) != fold(e.path) {
      assert laid[i] in laid;
    }
  }

  lemma LaidToTheEnd(tar: Bytes, blocks: seq<Block>, laid: seq<Entry>, next: nat, hash: Bytes -> string)
    requires Laid(tar, blocks, laid, next, hash)
    requires |tar| % 512 == 0 && |tar| - next >= 1024 && forall i :: next <= i < |tar| ==> tar[i] == 0
    ensures Tiled(tar, blocks, laid, hash)
  {
    hide Describes;
    assert tar == tar[..next] + tar[next..] && tar[next..] == Zeros(|tar| - next);
  }

  /** What was yielded so far is what was laid so far. */
  ghost predicate ToldSoFar(yielded: seq<Yielded>, blocks: seq<Block>, laid: seq<Entry>)
  {
    |laid| == |blocks| <= |yielded| && forall i :: 0 <= i < |laid| ==> MatchesAt(yielded, blocks, laid, i)
  }

  lemma OneMoreTold(yielded: seq<Yielded>, blocks: seq<Block>, laid: seq<Entry>, b: Block, e: Entry)
    requires ToldSoFar(yielded, blocks, laid) && |laid| < |yielded| && Matches(yielded[|laid|], e, |Render(blocks)|)
    ensures ToldSoFar(yielded, blocks + [b], laid + [e])
  {
    hide Matches, Render;
    forall i | 0 <= i < |laid + [e]| ensures MatchesAt(yielded, blocks + [b], laid + [e], i) {
      assert (blocks + [b])[..i] == blocks[..i] && blocks[..|blocks|] == blocks;
      assert i < |laid| ==> MatchesAt(yielded, blocks, laid, i);
    }
  }

  /** What was read is the beginning of a correct description. */
  ghost predicate AsExpected(bs: seq<Block>, ls: seq<Entry>, blocks: seq<Block>, laid: seq<Entry>)
  {
    |laid| == |blocks| <= |ls| == |bs| && laid == ls[..|laid|] && blocks == bs[..|laid|]
  }

  lemma ExpectedIsNext(tar: Bytes, yielded: seq<Yielded>, bs: seq<Block>, ls: seq<Entry>, blocks: seq<Block>,
                       laid: seq<Entry>, entries: seq<Entry>, folded: set<string>, limits: Limits,
                       fold: string -> string, hash: Bytes -> string)
    requires Correct(tar, yielded, bs, ls, limits, fold, hash) && AsExpected(bs, ls, blocks, laid) && |laid| < |yielded|
    requires Collected(entries, laid, folded, limits, fold)
    ensures Takes(tar, yielded[|laid|], |Render(blocks)|, entries, folded, limits, fold)
  {
    hide Takes, Collected, Render, Complete, Tiled, Matches, Admissible, InPlace;
    var n := |laid|;
    assert MatchesAt(yielded, bs, ls, n) && Admissible(ls[n], limits);
    EntryInPlace(tar, bs, ls, hash, n);
    ToldInPlace(tar, yielded[n], ls[n], |Render(blocks)|);
    ToldIsTaken(tar, yielded[n], ls[n], |Render(blocks)|, entries, laid, folded, limits, fold);
  }

  lemma ExpectedIsRead(tar: Bytes, yielded: seq<Yielded>, bs: seq<Block>, ls: seq<Entry>, blocks: seq<Block>,
                       laid: seq<Entry>, limits: Limits, fold: string -> string, hash: Bytes -> string, b: Block,
                       e: Entry)
    requires Correct(tar, yielded, bs, ls, limits, fold, hash) && AsExpected(bs, ls, blocks, laid) && |laid| < |yielded|
    requires var at := |Render(blocks)|;
      && Matches(yielded[|laid|], e, at) && e.offset == at + 512 && e.sha256 == hash(b.content)
      && at + 512 + e.size <= |tar| && b == Block(tar[at..at + 512], tar[at + 512..at + 512 + e.size])
    ensures AsExpected(bs, ls, blocks + [b], laid + [e])
  {
    hide Render, Complete, Tiled, Admissible, Name, Apart;
    var n := |laid|;
    assert MatchesAt(yielded, bs, ls, n);
    EntryInPlace(tar, bs, ls, hash, n);
    assert b == bs[n] && e == ls[n];
    assert bs[..n + 1] == bs[..n] + [bs[n]] && ls[..n + 1] == ls[..n] + [ls[n]];
  }

  /** What is kept up while entries are read; fine says that bs and ls are a correct description. */
  ghost predicate Progress(tar: Bytes, yielded: seq<Yielded>, blocks: seq<Block>, laid: seq<Entry>, next: nat,
                           entries: seq<Entry>, folded: set<string>, limits: Limits, fold: string -> string,
                           hash: Bytes -> string, fine: bool, bs: seq<Block>, ls: seq<Entry>)
  {
    && Laid(tar, blocks, laid, next, hash) && Collected(entries, laid, folded, limits, fold)
    && ToldSoFar(yielded, blocks, laid) && Apart(laid, fold)
    && (fine ==> Correct(tar, yielded, bs, ls, limits, fold, hash) && AsExpected(bs, ls, blocks, laid))
  }

  method ReadNext(tar: Bytes, yielded: seq<Yielded>, n: nat, next: nat, entries: seq<Entry>, folded: set<string>,
                  limits: Limits, fold: string -> string, hash: Bytes -> string, ghost blocks: seq<Block>,
                  ghost laid: seq<Entry>, ghost fine: bool, ghost bs: seq<Block>, ghost ls: seq<Entry>)
    returns (r: Result<(nat, Entry), Error>, ghost b: Block)
    requires |tar| <= USIZE_MAX && n == |laid| < |yielded|
    requires Progress(tar, yielded, blocks, laid, next, entries, folded, limits, fold, hash, fine, bs, ls)
    ensures r.Err? ==> !fine
    ensures r.Ok? ==> Progress(tar, yielded, blocks + [b], laid + [r.value.1], r.value.0, Insert(entries, r.value.1),
                               folded + {fold(r.value.1.path)}, limits, fold, hash, fine, bs, ls)
  {
    hide Laid, Collected, Correct, Takes, Matches, Insert, Render, Apart, ToldSoFar, AsExpected, Refused, Ordinary;
    hide Taken, InPlace, Names, Supported, Sorted, Admissible, Complete, Tiled;
    LaidInside(tar, blocks, laid, next, hash);
    if fine {
      ExpectedIsNext(tar, yielded, bs, ls, blocks, laid, entries, folded, limits, fold, hash);
    }
    r, b := ReadEntry(tar, yielded[n], next, entries, folded, limits, fold, hash, blocks, laid);
    if r.Ok? {
      var e := r.value.1;
      OneMoreTold(yielded, blocks, laid, b, e);
      LaidStaysApart(entries, laid, folded, limits, fold, e);
      if fine {
        ExpectedIsRead(tar, yielded, bs, ls, blocks, laid, limits, fold, hash, b, e);
      }
    }
  }

  /**
   * Reads an archive. Laid lists the entries in archive order with the blocks they come from; the
   * result lists them in the order of their paths. An archive is accepted exactly if it is readable and correct.
   */
  method Inventory(tar: Bytes, readable: bool, yielded: seq<Yielded>, limits: Limits, fold: string -> string,
                   hash: Bytes -> string)
    returns (r: Result<seq<Entry>, Error>, ghost blocks: seq<Block>, ghost laid: seq<Entry>)
    requires |tar| <= USIZE_MAX
    ensures r.Ok? <==> readable && exists bs, ls :: WellMade(tar, yielded, bs, ls, limits, fold, hash)
    ensures r.Ok? <==> readable && exists bs, ls :: Correct(tar, yielded, bs, ls, limits, fold, hash)
    ensures r.Ok? ==> WellMade(tar, yielded, blocks, laid, limits, fold, hash)
    ensures r.Ok? ==> Correct(tar, yielded, blocks, laid, limits, fold, hash) && Tree(r.value, limits, fold)
    ensures r.Ok? ==> |laid| == |r.value| && forall e :: e in r.value <==> e in laid
  {
    blocks, laid := [], [];
    SomeCorrectIffSomeWellMade(tar, yielded, limits, fold, hash);
    if !readable {
      return Err(InvalidTar), blocks, laid;
    }
    ghost var fine := exists bs, ls :: Correct(tar, yielded, bs, ls, limits, fold, hash);
    ghost var bs: seq<Block>, ls: seq<Entry> := [], [];
    if fine {
      bs, ls :| Correct(tar, yielded, bs, ls, limits, fold, hash);
    }
    hide *;
    var entries: seq<Entry>, folded: set<string> := [], {};
    var next: nat := 0;
    NothingRead(tar, yielded, limits, fold, hash, fine, bs, ls);
    for n := 0 to |yielded|
      invariant |laid| == n
      invariant Progress(tar, yielded, blocks, laid, next, entries, folded, limits, fold, hash, fine, bs, ls)
    {
      var read;
      ghost var b;
      read, b := ReadNext(tar, yielded, n, next, entries, folded, limits, fold, hash, blocks, laid, fine, bs, ls);
      if read.Err? {
        return Err(read.error), blocks, laid;
      }
      var e := read.value.1;
      entries, folded, next := Insert(entries, e), folded + {fold(e.path)}, read.value.0;
      blocks, laid := blocks + [b], laid + [e];
    }
    AllRead(tar, yielded, blocks, laid, next, entries, folded, limits, fold, hash, fine, bs, ls);
    if |tar| % 512 != 0 || |tar| - next < 1024 || exists i :: next <= i < |tar| && tar[i] != 0 {
      return Err(InvalidTar), blocks, laid;
    }
    LaidToTheEnd(tar, blocks, laid, next, hash);
    var error := CheckTree(entries, laid, folded, limits, fold);
    TreeIffLaidTree(entries, laid, folded, limits, fold);
    CorrectSoFar(tar, yielded, blocks, laid, entries, folded, limits, fold, hash);
    CorrectIffWellMade(tar, yielded, blocks, laid, limits, fold, hash);
    return if error.Some? then Err(error.value) else Ok(entries), blocks, laid;
  }

  lemma NothingRead(tar: Bytes, yielded: seq<Yielded>, limits: Limits, fold: string -> string, hash: Bytes -> string,
                    fine: bool, bs: seq<Block>, ls: seq<Entry>)
    requires fine ==> Correct(tar, yielded, bs, ls, limits, fold, hash)
    ensures Progress(tar, yielded, [], [], 0, [], {}, limits, fold, hash, fine, bs, ls)
  {
  }

  lemma AllRead(tar: Bytes, yielded: seq<Yielded>, blocks: seq<Block>, laid: seq<Entry>, next: nat, entries: seq<Entry>,
                folded: set<string>, limits: Limits, fold: string -> string, hash: Bytes -> string, fine: bool,
                bs: seq<Block>, ls: seq<Entry>)
    requires Progress(tar, yielded, blocks, laid, next, entries, folded, limits, fold, hash, fine, bs, ls) &&
      |laid| == |yielded|
    ensures Laid(tar, blocks, laid, next, hash) && next <= |tar| && Collected(entries, laid, folded, limits, fold)
    ensures ToldSoFar(yielded, blocks, laid) && Apart(laid, fold)
    ensures fine ==> |tar| % 512 == 0 && |tar| - next >= 1024 && forall i :: next <= i < |tar| ==> tar[i] == 0
    ensures fine ==> Complete(laid)
  {
    LaidInside(tar, blocks, laid, next, hash);
    hide Laid, Collected, Correct, Complete, ToldSoFar, Apart, AsExpected, Render;
    if fine {
      ExpectedEnd(tar, yielded, bs, ls, limits, fold, hash, blocks, laid, next);
    }
  }

  lemma ExpectedEnd(tar: Bytes, yielded: seq<Yielded>, bs: seq<Block>, ls: seq<Entry>, limits: Limits,
                    fold: string -> string, hash: Bytes -> string, blocks: seq<Block>, laid: seq<Entry>, next: nat)
    requires Correct(tar, yielded, bs, ls, limits, fold, hash) && AsExpected(bs, ls, blocks, laid) &&
      |laid| == |yielded|
    requires next == |Render(blocks)|
    ensures |tar| % 512 == 0 && |tar| - next >= 1024 && forall i :: next <= i < |tar| ==> tar[i] == 0
    ensures Complete(laid)
  {
    hide Describes, Complete, Apart, Render;
    assert bs[..|bs|] == bs && ls[..|ls|] == ls;
  }

  lemma CorrectSoFar(tar: Bytes, yielded: seq<Yielded>, blocks: seq<Block>, laid: seq<Entry>, entries: seq<Entry>,
                     folded: set<string>, limits: Limits, fold: string -> string, hash: Bytes -> string)
    requires Tiled(tar, blocks, laid, hash) && Collected(entries, laid, folded, limits, fold)
    requires ToldSoFar(yielded, blocks, laid) && |laid| == |yielded| && Apart(laid, fold)
    ensures Correct(tar, yielded, blocks, laid, limits, fold, hash) <==> Complete(laid)
    ensures |laid| == |entries| && forall e :: e in entries <==> e in laid
  {
    hide Tiled, Complete, Apart, Admissible;
    forall i | 0 <= i < |laid| ensures Admissible(laid[i], limits) {
      assert laid[i] in laid;
    }
  }

  /** Checks that the collected entries have the root and all their ancestors. */
  method CheckTree(entries: seq<Entry>, ghost laid: seq<Entry>, ghost folded: set<string>, limits: Limits,
                   fold: string -> string)
    returns (error: Option<Error>)
    requires Collected(entries, laid, folded, limits, fold)
    ensures error.None? <==> Tree(entries, limits, fold)
    ensures error.Some? ==>
      error == Some(if HasDirectory(entries, "kb-app.app") then PathCollision else MissingRequiredEntry)
  {
    hide Rooted, Collected;
    if !HasDirectory(entries, ROOT) {
      return Some(MissingRequiredEntry);
    }
    for i := 0 to |entries|
      invariant forall k :: 0 <= k < i ==> Rooted(entries, entries[k].path)
    {
      var ok := CheckAncestors(entries, entries[i].path);
      if !ok {
        return Some(PathCollision);
      }
    }
    CollectedFormsTree(entries, laid, folded, limits, fold);
    return None;
  }

  lemma CollectedFormsTree(entries: seq<Entry>, laid: seq<Entry>, folded: set<string>, limits: Limits,
                           fold: string -> string)
    requires Collected(entries, laid, folded, limits, fold) && HasDirectory(entries, ROOT)
    requires forall k :: 0 <= k < |entries| ==> Rooted(entries, entries[k].path)
    ensures Tree(entries, limits, fold)
  {
    forall i, j | 0 <= i < j < |entries| ensures fold(entries[i].path) != fold(entries[j].path) {
      LessIsIrreflexive(entries[i].path);
      assert entries[i] in laid && entries[j] in laid && entries[i] != entries[j];
    }
    forall i | 0 <= i < |entries| ensures Admissible(entries[i], limits) {
      assert entries[i] in laid;
    }
  }

  lemma RenderSplits(blocks: seq<Block>, i: nat)
    requires i < |blocks|
    ensures Render(blocks[..i + 1]) == Render(blocks[..i]) + Piece(blocks[i])
  {
    assert blocks[..i + 1][..i] == blocks[..i];
  }

  lemma {:induction false} RenderPrefix(blocks: seq<Block>, i: nat, j: nat)
    requires i <= j <= |blocks|
    ensures Render(blocks[..i]) <= Render(blocks[..j])
    decreases j
  {
    if i < j {
      RenderPrefix(blocks, i, j - 1);
      RenderSplits(blocks, j - 1);
    }
  }

  lemma ContentOfPiece(b: Block)
    requires |b.header| == 512
    ensures |Piece(b)| >= 512 + |b.content| && Piece(b)[512..512 + |b.content|] == b.content
  {
    SliceOfPrefix(Piece(b), 512 + |b.content|, 512, 512 + |b.content|);
  }

  /** The content of block i lies 512 bytes after the end of the blocks before it. */
  lemma ContentInPlace(blocks: seq<Block>, i: nat)
    requires i < |blocks| && |blocks[i].header| == 512
    ensures var at, all := |Render(blocks[..i])| + 512, Render(blocks);
      && at + |blocks[i].content| <= |all|
      && all[at..at + |blocks[i].content|] == blocks[i].content
      && |Render(blocks[..i + 1])| >= at + |blocks[i].content|
  {
    var front, p, b := Render(blocks[..i]), Piece(blocks[i]), blocks[i];
    RenderSplits(blocks, i);
    RenderPrefix(blocks, i + 1, |blocks|);
    assert blocks[..|blocks|] == blocks;
    var at, n := |front| + 512, |b.content|;
    ContentOfPiece(b);
    SliceOfSecond(front, p, 512, 512 + n);
    SliceOfPrefix(Render(blocks), |front + p|, at, at + n);
  }

  /** In a tiled archive each content lies inside, where its entry says, and no two of them overlap. */
  lemma ContentsAreDisjoint(tar: Bytes, blocks: seq<Block>, laid: seq<Entry>, hash: Bytes -> string, i: nat, j: nat)
    requires Tiled(tar, blocks, laid, hash) && i < j < |laid|
    ensures laid[i].offset + laid[i].size + 512 <= laid[j].offset
    ensures laid[j].offset + laid[j].size + 1024 <= |tar|
  {
    assert Describes(laid[i], blocks, i, hash) && Describes(laid[j], blocks, j, hash);
    ContentInPlace(blocks, i);
    ContentInPlace(blocks, j);
    RenderPrefix(blocks, i + 1, j);
  }

  /** The hash of an entry is the hash of the bytes at its place. */
  lemma ContentIsWhereTheEntrySays(tar: Bytes, blocks: seq<Block>, laid: seq<Entry>, hash: Bytes -> string, i: nat)
    requires Tiled(tar, blocks, laid, hash) && i < |laid|
    ensures laid[i].offset + laid[i].size <= |tar|
    ensures tar[laid[i].offset..laid[i].offset + laid[i].size] == blocks[i].content
    ensures laid[i].sha256 == hash(tar[laid[i].offset..laid[i].offset + laid[i].size])
  {
    assert Describes(laid[i], blocks, i, hash);
    ContentInPlace(blocks, i);
    assert tar[..|Render(blocks)|] == Render(blocks);
    var at, n := laid[i].offset, laid[i].size;
    SliceOfPrefix(tar, |Render(blocks)|, at, at + n);
  }
}
