/**
 * The stamp of the artifact metadata: a hash over the ledger files, their names and their bytes.
 * The hash function, the JSON readers and the UTF-8 check are parameters.
 */
module ArtifactStamp {
  import opened Sequences
  import opened Wrappers
  import opened ByteStrings
  import opened Listing
  import opened HashFraming

  const MAX_METADATA_BYTES := 32 * 1024 * 1024

  /** What a path holds: a regular file with its bytes, or something else. */
  datatype Item = Item(regular: bool, bytes: Bytes)

  /** The ledger directory as the system lists it; each part may be missing. */
  datatype Ledger =
    | Missing
    | Ledger(manifests: Option<seq<Entry<Item>>>, refs: Option<seq<Entry<Item>>>, aliases: Option<Item>)

  /** Which bytes are a manifest, a reference, a table of aliases, and which names are UTF-8. */
  datatype Readers = Readers(manifest: Bytes -> bool, reference: Bytes -> bool, aliases: Bytes -> bool,
                             utf8: Bytes -> bool)

  /** A name with a stem and the extension json. */
  predicate HasJsonExtension(name: Bytes)
  {
    |name| > 5 && name[|name| - 5..] == Ascii(".json")
  }

  predicate Readable(item: Item)
  {
    item.regular && |item.bytes| <= MAX_METADATA_BYTES
  }

  predicate Acceptable(e: Entry<Item>, isValid: Bytes -> bool, isUtf8: Bytes -> bool)
  {
    HasJsonExtension(e.name) && isUtf8(e.name) && Readable(e.value) && isValid(e.value.bytes)
  }

  function Label(directory: string, name: Bytes): Bytes
  {
    Ascii(directory) + Ascii("/") + name
  }

  /** For every file its label and its bytes. */
  function Labelled(directory: string, entries: seq<Entry<Item>>): seq<Bytes>
  {
    if entries == [] then []
      else [Label(directory, entries[0].name), entries[0].value.bytes] + Labelled(directory, entries[1..])
  }

  function DirectoryFields(directory: string, listing: Option<seq<Entry<Item>>>): seq<Bytes>
  {
    if listing.None? then [] else Labelled(directory, Sort(listing.value))
  }

  function AliasFields(aliases: Option<Item>): seq<Bytes>
  {
    [Ascii("aliases.json")] + if aliases.Some? then [Ascii("present"), aliases.value.bytes] else [Ascii("absent")]
  }

  /** Everything that is framed, in order. */
  function Fields(ledger: Ledger): seq<Bytes>
  {
    [Ascii("kb-app.artifact-metadata/v1")]
    + match ledger
      case Missing => AliasFields(None)
      case Ledger(manifests, refs, aliases) =>
        DirectoryFields("manifests", manifests) + (DirectoryFields("refs", refs) + AliasFields(aliases))
  }

  lemma {:induction false} LabelledAt(directory: string, entries: seq<Entry<Item>>, i: nat)
    requires i < |entries|
    ensures |Labelled(directory, entries)| == 2 * |entries|
    ensures Labelled(directory, entries)[2 * i] == Ascii(directory) + Ascii("/") + entries[i].name
    ensures Labelled(directory, entries)[2 * i + 1] == entries[i].value.bytes
  {
    if i > 0 {
      LabelledAt(directory, entries[1..], i - 1);
      assert Labelled(directory, entries)[2..] == Labelled(directory, entries[1..]);
    } else if |entries| > 1 {
      LabelledAt(directory, entries[1..], 0);
    }
  }

  lemma LabelledLength(directory: string, entries: seq<Entry<Item>>)
    ensures |Labelled(directory, entries)| == 2 * |entries|
  {
    if entries != [] {
      LabelledAt(directory, entries, 0);
    }
  }

  /**
   * What is hashed, field by field: the schema, the files of both directories in the order of their names, each with
   * its label, and the aliases.
   */
  lemma FieldsSpelledOut(ledger: Ledger)
    ensures var m, r, f := Sort(Manifests(ledger)), Sort(References(ledger)), Fields(ledger);
      && |f| == 1 + 2 * |m| + 2 * |r| + (if AliasTable(ledger).Some? then 3 else 2)
      && f[0] == Ascii("kb-app.artifact-metadata/v1")
      && (forall i :: 0 <= i < |m| ==>
            f[1 + 2 * i] == Ascii("manifests") + Ascii("/") + m[i].name && f[2 + 2 * i] == m[i].value.bytes)
      && (forall i :: 0 <= i < |r| ==>
            && f[1 + 2 * |m| + 2 * i] == Ascii("refs") + Ascii("/") + r[i].name
            && f[2 + 2 * |m| + 2 * i] == r[i].value.bytes)
      && f[1 + 2 * |m| + 2 * |r|] == Ascii("aliases.json")
      && f[2 + 2 * |m| + 2 * |r|] == Ascii(if AliasTable(ledger).Some? then "present" else "absent")
      && (AliasTable(ledger).Some? ==> f[|f| - 1] == AliasTable(ledger).value.bytes)
  {
    hide Labelled, Sort, Fields, Ascii;
    FieldsAreBody(ledger);
    var m, r := Sort(Manifests(ledger)), Sort(References(ledger));
    LabelledLength("manifests", m);
    LabelledLength("refs", r);
    var f, a, b := Fields(ledger), Labelled("manifests", m), Labelled("refs", r);
    assert f == [Ascii("kb-app.artifact-metadata/v1")] + (a + (b + AliasFields(AliasTable(ledger))));
    forall i | 0 <= i < |m|
      ensures f[1 + 2 * i] == Ascii("manifests") + Ascii("/") + m[i].name && f[2 + 2 * i] == m[i].value.bytes
    {
      LabelledAt("manifests", m, i);
    }
    forall i | 0 <= i < |r|
      ensures f[1 + 2 * |m| + 2 * i] == Ascii("refs") + Ascii("/") + r[i].name
      ensures f[2 + 2 * |m| + 2 * i] == r[i].value.bytes
    {
      LabelledAt("refs", r, i);
    }
  }

  /** A file is taken under a UTF-8 name that ends in .json, up to 32 MiB, if its reader takes its bytes. */
  lemma AcceptableSpelledOut(e: Entry<Item>, isValid: Bytes -> bool, isUtf8: Bytes -> bool)
    ensures Acceptable(e, isValid, isUtf8) <==>
      && (exists stem: Bytes :: stem != [] && e.name == stem + Ascii(".json"))
      && isUtf8(e.name) && e.value.regular && |e.value.bytes| <= 33_554_432 && isValid(e.value.bytes)
  {
    if HasJsonExtension(e.name) {
      var n := |e.name| - 5;
      assert e.name == e.name[..n] + Ascii(".json") && e.name[..n] != [];
    }
    if stem: Bytes :| stem != [] && e.name == stem + Ascii(".json") {
      assert e.name[|e.name| - 5..] == Ascii(".json");
    }
  }

  predicate AllAcceptable(listing: Option<seq<Entry<Item>>>, isValid: Bytes -> bool, isUtf8: Bytes -> bool)
  {
    listing.Some? ==> forall e :: e in listing.value ==> Acceptable(e, isValid, isUtf8)
  }

  predicate WellFormed(ledger: Ledger, readers: Readers)
  {
    ledger.Ledger? ==>
      && AllAcceptable(ledger.manifests, readers.manifest, readers.utf8)
      && AllAcceptable(ledger.refs, readers.reference, readers.utf8)
      && (ledger.aliases.Some? ==> Readable(ledger.aliases.value) && readers.aliases(ledger.aliases.value.bytes))
  }

  lemma {:induction false} LabelledOneMore(directory: string, entries: seq<Entry<Item>>, i: nat)
    requires i < |entries|
    ensures Labelled(directory, entries[..i + 1])
            == Labelled(directory, entries[..i]) + [Label(directory, entries[i].name), entries[i].value.bytes]
  {
    if i > 0 {
      LabelledOneMore(directory, entries[1..], i - 1);
      TailOfPrefix(entries, i + 1);
      TailOfPrefix(entries, i);
    }
  }

  lemma AcceptedSorted(entries: seq<Entry<Item>>, isValid: Bytes -> bool, isUtf8: Bytes -> bool)
    requires Distinct(entries)
    ensures AllAcceptable(Some(entries), isValid, isUtf8) <==> AllAcceptable(Some(Sort(entries)), isValid, isUtf8)
  {
    SortSorts(entries);
  }

  method File(digest: Digest, e: Entry<Item>, name: string)
    modifies digest
    ensures digest.fed == old(digest.fed) + Frames([Label(name, e.name), e.value.bytes])
  {
    WriteFrame(digest, Label(name, e.name));
    WriteFrame(digest, e.value.bytes);
    FramesOfPair(Label(name, e.name), e.value.bytes);
  }

  /** Feeds one directory, sorted by name; stops at the first entry that is not in order. */
  method Directory(digest: Digest, listing: Option<seq<Entry<Item>>>, name: string, isValid: Bytes -> bool,
                   isUtf8: Bytes -> bool)
    returns (ok: bool)
    requires listing.Some? ==> Distinct(listing.value)
    modifies digest
    ensures ok <==> AllAcceptable(listing, isValid, isUtf8)
    ensures ok ==> digest.fed == old(digest.fed) + Frames(DirectoryFields(name, listing))
  {
    hide Frames, Labelled, Sort, Acceptable, Distinct;
    if listing.None? {
      assert Frames([]) == [] && digest.fed + [] == digest.fed by {
        NothingFramed();
      }
      return true;
    }
    var paths := Sort(listing.value);
    AcceptedSorted(listing.value, isValid, isUtf8);
    var i := 0;
    NothingLabelled(name);
    NothingFramed();
    while i < |paths|
      invariant 0 <= i <= |paths|
      invariant AllAcceptable(Some(paths[..i]), isValid, isUtf8)
      invariant digest.fed == old(digest.fed) + Frames(Labelled(name, paths[..i]))
    {
      if !Acceptable(paths[i], isValid, isUtf8) {
        assert paths[i] in paths;
        return false;
      }
      assert paths[..i + 1] == paths[..i] + [paths[i]];
      File(digest, paths[i], name);
      FramesOneMore(name, paths, i);
      i := i + 1;
    }
    assert paths[..i] == paths && listing == Some(listing.value);
    ok := true;
  }

  lemma NothingFramed()
    ensures Frames([]) == []
  {
  }

  lemma NothingLabelled(directory: string)
    ensures Labelled(directory, []) == []
  {
  }

  lemma FramesOneMore(directory: string, entries: seq<Entry<Item>>, i: nat)
    requires i < |entries|
    ensures Frames(Labelled(directory, entries[..i + 1]))
            == Frames(Labelled(directory, entries[..i]))
              + Frames([Label(directory, entries[i].name), entries[i].value.bytes])
  {
    LabelledOneMore(directory, entries, i);
    FramesOfTwo(Labelled(directory, entries[..i]), [Label(directory, entries[i].name), entries[i].value.bytes]);
  }

  lemma FramesOfPair(a: Bytes, b: Bytes)
    ensures Frames([a, b]) == Frame(a) + Frame(b)
  {
    assert [a, b][1..] == [b] && [b][1..] == [];
    assert Frames([b]) == Frame(b) + Frames([]);
    assert Frame(b) + [] == Frame(b);
  }

  method Aliases(digest: Digest, aliases: Option<Item>)
    modifies digest
    ensures digest.fed == old(digest.fed) + Frames(AliasFields(aliases))
  {
    WriteFrame(digest, Ascii("aliases.json"));
    if aliases.Some? {
      WriteFrame(digest, Ascii("present"));
      WriteFrame(digest, aliases.value.bytes);
      FramesOfPair(Ascii("present"), aliases.value.bytes);
    } else {
      WriteFrame(digest, Ascii("absent"));
      assert [Ascii("absent")][1..] == [];
    }
    assert AliasFields(aliases)[1..] == if aliases.Some? then [Ascii("present"), aliases.value.bytes]
      else [Ascii("absent")];
  }

  /** The stamp is refused exactly if the ledger is not in order; otherwise it is the hash of all its fields. */
  method Stamp(ledger: Ledger, readers: Readers, sha256: Bytes -> string) returns (stamp: Option<string>)
    requires Listable(ledger)
    ensures stamp.Some? <==> WellFormed(ledger, readers)
    ensures stamp.Some? ==> stamp.value == "sha256:" + sha256(Frames(Fields(ledger)))
  {
    hide Frames, Frame, AliasFields, DirectoryFields, Fields, Ascii, AllAcceptable;
    var digest := new Digest();
    WriteFrame(digest, Ascii("kb-app.artifact-metadata/v1"));
    ghost var schema := digest.fed;
    assert schema == Frame(Ascii("kb-app.artifact-metadata/v1"));
    if ledger.Ledger? {
      var ok := Directory(digest, ledger.manifests, "manifests", readers.manifest, readers.utf8);
      if !ok {
        return None;
      }
      ok := Directory(digest, ledger.refs, "refs", readers.reference, readers.utf8);
      if !ok {
        return None;
      }
      if ledger.aliases.Some? && !(Readable(ledger.aliases.value) && readers.aliases(ledger.aliases.value.bytes)) {
        return None;
      }
      Aliases(digest, ledger.aliases);
      assert digest.fed == schema + (Frames(DirectoryFields("manifests", ledger.manifests))
        + (Frames(DirectoryFields("refs", ledger.refs)) + Frames(AliasFields(ledger.aliases))));
    } else {
      Aliases(digest, None);
    }
    FramesOfFields(ledger);
    stamp := Some("sha256:" + sha256(digest.fed));
  }

  lemma FramesOfFields(ledger: Ledger)
    ensures Frames(Fields(ledger)) == Frame(Ascii("kb-app.artifact-metadata/v1"))
            + if ledger.Missing? then Frames(AliasFields(None))
              else Frames(DirectoryFields("manifests", ledger.manifests))
                   + (Frames(DirectoryFields("refs", ledger.refs)) + Frames(AliasFields(ledger.aliases)))
  {
    if ledger.Ledger? {
      var m, r, a := DirectoryFields("manifests", ledger.manifests), DirectoryFields("refs", ledger.refs),
        AliasFields(ledger.aliases);
      FramesOfTwo(m, r + a);
      FramesOfTwo(r, a);
      assert Fields(ledger)[1..] == m + (r + a);
    } else {
      assert Fields(ledger)[1..] == AliasFields(None);
    }
  }

  // ---- what the stamp tells ----

  predicate Storable(listing: Option<seq<Entry<Item>>>)
  {
    listing.Some? ==> forall e :: e in listing.value ==> |e.name| < 0x1_0000_0000
  }

  /** What a file system can list: no name twice in a directory, and no name longer than a path can be. */
  ghost predicate Listable(ledger: Ledger)
  {
    ledger.Ledger? ==>
      && (ledger.manifests.Some? ==> Distinct(ledger.manifests.value))
      && (ledger.refs.Some? ==> Distinct(ledger.refs.value))
      && Storable(ledger.manifests) && Storable(ledger.refs)
  }

  function Files(listing: Option<seq<Entry<Item>>>): seq<Entry<Item>>
  {
    if listing.None? then [] else listing.value
  }

  function Manifests(ledger: Ledger): seq<Entry<Item>>
  {
    if ledger.Missing? then [] else Files(ledger.manifests)
  }

  function References(ledger: Ledger): seq<Entry<Item>>
  {
    if ledger.Missing? then [] else Files(ledger.refs)
  }

  function AliasTable(ledger: Ledger): Option<Item>
  {
    if ledger.Missing? then None else ledger.aliases
  }

  /** The same files with the same bytes, and the same table of aliases; a missing directory is an empty one. */
  ghost predicate SameMetadata(a: Ledger, b: Ledger)
  {
    SameHolding(Manifests(a), Manifests(b)) && SameHolding(References(a), References(b)) &&
      AliasTable(a) == AliasTable(b)
  }

  predicate NotUnder(fields: seq<Bytes>, directory: string)
  {
    fields == [] || !(Ascii(directory) <= fields[0])
  }

  predicate Regular(entries: seq<Entry<Item>>)
  {
    forall e :: e in entries ==> e.value.regular
  }

  /** Where a directory ends in the list of fields can be told from the next label. */
  lemma {:induction false} LabelsDetermine(directory: string, a: seq<Entry<Item>>, x: seq<Bytes>, b: seq<Entry<Item>>,
                                           y: seq<Bytes>)
    requires Regular(a) && Regular(b) && NotUnder(x, directory) && NotUnder(y, directory)
    requires Labelled(directory, a) + x == Labelled(directory, b) + y
    ensures a == b && x == y
  {
    var s, t := Labelled(directory, a) + x, Labelled(directory, b) + y;
    LabelledBegins(directory, a, x);
    LabelledBegins(directory, b, y);
    if a != [] {
      assert s[0] == t[0] && s[1] == t[1];
      LabelDetermines(directory, a[0].name, b[0].name);
      assert s[2..] == Labelled(directory, a[1..]) + x && t[2..] == Labelled(directory, b[1..]) + y;
      LabelsDetermine(directory, a[1..], x, b[1..], y);
      assert a == [a[0]] + a[1..] && b == [b[0]] + b[1..];
    } else {
      assert s == x && t == y;
    }
  }

  lemma LabelledBegins(directory: string, a: seq<Entry<Item>>, x: seq<Bytes>)
    requires NotUnder(x, directory)
    ensures a != [] <==> !NotUnder(Labelled(directory, a) + x, directory)
    ensures a != [] ==> (Labelled(directory, a) + x)[..2] == [Label(directory, a[0].name), a[0].value.bytes]
  {
    if a == [] {
      assert Labelled(directory, a) + x == x;
    } else {
      assert (Labelled(directory, a) + x)[0] == Label(directory, a[0].name);
    }
  }

  lemma LabelDetermines(directory: string, m: Bytes, n: Bytes)
    requires Label(directory, m) == Label(directory, n)
    ensures m == n
  {
    assert m == Label(directory, m)[|directory| + 1..] && n == Label(directory, n)[|directory| + 1..];
  }

  function Body(ledger: Ledger): seq<Bytes>
  {
    Labelled("manifests", Sort(Manifests(ledger)))
      + (Labelled("refs", Sort(References(ledger))) + AliasFields(AliasTable(ledger)))
  }

  lemma FieldsAreBody(ledger: Ledger)
    ensures Fields(ledger) == [Ascii("kb-app.artifact-metadata/v1")] + Body(ledger)
  {
    if ledger.Missing? {
      assert Body(ledger) == AliasFields(None);
    }
  }

  lemma DirectoriesAreTold(refs: seq<Entry<Item>>, aliases: Option<Item>)
    ensures NotUnder(AliasFields(aliases), "refs")
    ensures NotUnder(Labelled("refs", refs) + AliasFields(aliases), "manifests")
  {
    var rest := Labelled("refs", refs) + AliasFields(aliases);
    assert AliasFields(aliases)[0][0] == Ascii("aliases.json")[0] == 97;
    assert Ascii("refs")[0] == 114 && Ascii("manifests")[0] == 109;
    if refs != [] {
      assert rest[0] == Label("refs", refs[0].name) && rest[0][0] == 114;
    } else {
      assert rest == AliasFields(aliases);
    }
  }

  lemma AliasesAreTold(a: Option<Item>, b: Option<Item>)
    requires AliasFields(a) == AliasFields(b)
    requires (a.Some? ==> a.value.regular) && (b.Some? ==> b.value.regular)
    ensures a == b
  {
    assert |AliasFields(a)| == |AliasFields(b)|;
    if a.Some? && b.Some? {
      assert AliasFields(a)[2] == a.value.bytes && AliasFields(b)[2] == b.value.bytes;
    }
  }

  lemma SortIsRegular(entries: seq<Entry<Item>>)
    requires Distinct(entries) && Regular(entries)
    ensures Regular(Sort(entries))
  {
    SortSorts(entries);
  }

  lemma BodyDetermines(a: Ledger, b: Ledger, readers: Readers)
    requires Listable(a) && Listable(b) && WellFormed(a, readers) && WellFormed(b, readers) && Body(a) == Body(b)
    ensures SameMetadata(a, b)
  {
    SortIsRegular(Manifests(a));
    SortIsRegular(Manifests(b));
    SortIsRegular(References(a));
    SortIsRegular(References(b));
    DirectoriesAreTold(Sort(References(a)), AliasTable(a));
    DirectoriesAreTold(Sort(References(b)), AliasTable(b));
    LabelsDetermine("manifests", Sort(Manifests(a)), Labelled("refs", Sort(References(a))) + AliasFields(AliasTable(a)),
                    Sort(Manifests(b)), Labelled("refs", Sort(References(b))) + AliasFields(AliasTable(b)));
    LabelsDetermine("refs", Sort(References(a)), AliasFields(AliasTable(a)), Sort(References(b)),
      AliasFields(AliasTable(b)));
    AliasesAreTold(AliasTable(a), AliasTable(b));
    SortedAlikeIffHoldAlike(Manifests(a), Manifests(b));
    SortedAlikeIffHoldAlike(References(a), References(b));
  }

  lemma {:induction false} LabelledFit(directory: string, entries: seq<Entry<Item>>)
    requires |directory| < 100
    requires forall e :: e in entries ==> |e.name| < 0x1_0000_0000 && Readable(e.value)
    ensures AllFit(Labelled(directory, entries))
  {
    if entries != [] {
      LabelledFit(directory, entries[1..]);
    }
  }

  lemma FieldsFit(ledger: Ledger, readers: Readers)
    requires Listable(ledger) && WellFormed(ledger, readers)
    ensures AllFit(Fields(ledger))
  {
    hide Labelled, Sort, Distinct;
    FieldsAreBody(ledger);
    SortSorts(Manifests(ledger));
    SortSorts(References(ledger));
    LabelledFit("manifests", Sort(Manifests(ledger)));
    LabelledFit("refs", Sort(References(ledger)));
  }

  /** Two ledgers in order feed the hash alike exactly if they hold the same, in whatever order they are listed. */
  lemma StreamsAgreeIffMetadataDoes(a: Ledger, b: Ledger, readers: Readers)
    requires Listable(a) && Listable(b) && WellFormed(a, readers) && WellFormed(b, readers)
    ensures Frames(Fields(a)) == Frames(Fields(b)) <==> SameMetadata(a, b)
  {
    FieldsAreBody(a);
    FieldsAreBody(b);
    if Frames(Fields(a)) == Frames(Fields(b)) {
      FieldsFit(a, readers);
      FieldsFit(b, readers);
      FramesDetermine(Fields(a), Fields(b));
      assert Body(a) == Fields(a)[1..] && Body(b) == Fields(b)[1..];
      BodyDetermines(a, b, readers);
    }
    if SameMetadata(a, b) {
      SortedAlikeIffHoldAlike(Manifests(a), Manifests(b));
      SortedAlikeIffHoldAlike(References(a), References(b));
    }
  }
}
