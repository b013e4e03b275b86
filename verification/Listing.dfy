/**
 * Directory listings: entries come in whatever order the system gives them and are sorted by name
 * before use. What is kept of a listing is which name holds what, never the order.
 */
module Listing {
  import opened Wrappers
  import opened ByteStrings
  import opened Ordered
  import opened Text

  datatype Entry<T> = Entry(name: Bytes, value: T)

  /** The bytes as characters, so that text order is byte order. */
  function Chars(name: Bytes): (s: string)
    ensures |s| == |name| && forall i :: 0 <= i < |name| ==> s[i] == name[i] as char
  {
    seq(|name|, i requires 0 <= i < |name| => name[i] as char)
  }

  predicate Before(a: Bytes, b: Bytes)
  {
    Less(Chars(a), Chars(b))
  }

  lemma BeforeIsTotal(a: Bytes, b: Bytes)
    ensures a == b || Before(a, b) || Before(b, a)
    ensures !(Before(a, b) && Before(b, a)) && !Before(a, a)
  {
    LessIsTotal(Chars(a), Chars(b));
    LessIsIrreflexive(Chars(a));
    if Before(a, b) && Before(b, a) {
      LessIsTransitive(Chars(a), Chars(b), Chars(a));
    }
    if Chars(a) == Chars(b) {
      forall i | 0 <= i < |a| ensures a[i] == b[i] {
        assert Chars(a)[i] == Chars(b)[i];
      }
    }
  }

  /** What a name holds in a listing. */
  function Lookup<T>(entries: seq<Entry<T>>, name: Bytes): Option<T>
  {
    if entries == [] then None
    else if entries[0].name == name then Some(entries[0].value)
    else Lookup(entries[1..], name)
  }

  /** No name is listed twice. */
  ghost predicate Distinct<T>(entries: seq<Entry<T>>)
  {
    entries == [] || (Lookup(entries[1..], entries[0].name).None? && Distinct(entries[1..]))
  }

  function NameOf<T>(e: Entry<T>): string
  {
    Chars(e.name)
  }

  ghost predicate Sorted<T>(entries: seq<Entry<T>>)
  {
    SortedBy(NameOf, entries)
  }

  ghost predicate Ahead<T>(name: Bytes, entries: seq<Entry<T>>)
  {
    forall e :: e in entries ==> Before(name, e.name)
  }

  lemma RestIsAhead<T>(entries: seq<Entry<T>>)
    requires entries != [] && Sorted(entries)
    ensures Ahead(entries[0].name, entries[1..]) && Sorted(entries[1..])
  {
    forall e | e in entries[1..] ensures Before(entries[0].name, e.name) {
      var k :| 0 < k < |entries| && entries[k] == e;
      assert Less(NameOf(entries[0]), NameOf(entries[k]));
    }
  }

  function Insert<T>(e: Entry<T>, entries: seq<Entry<T>>): seq<Entry<T>>
  {
    InsertBy(NameOf, e, entries)
  }

  function Sort<T>(entries: seq<Entry<T>>): seq<Entry<T>>
  {
    if entries == [] then [] else Insert(entries[0], Sort(entries[1..]))
  }

  lemma {:induction false} LookupFinds<T>(entries: seq<Entry<T>>, name: Bytes)
    ensures Lookup(entries, name).Some? ==> Entry(name, Lookup(entries, name).value) in entries
    ensures Lookup(entries, name).None? ==> forall e :: e in entries ==> e.name != name
  {
    if entries != [] && entries[0].name != name {
      LookupFinds(entries[1..], name);
    }
  }

  lemma {:induction false} InsertLooksUp<T>(e: Entry<T>, entries: seq<Entry<T>>, name: Bytes)
    requires Lookup(entries, e.name).None?
    ensures Lookup(Insert(e, entries), name) == if name == e.name then Some(e.value) else Lookup(entries, name)
  {
    if entries != [] && !Before(e.name, entries[0].name) {
      InsertLooksUp(e, entries[1..], name);
    }
  }

  /** Sorting changes what no name holds. */
  lemma {:induction false} SortLooksUp<T>(entries: seq<Entry<T>>, name: Bytes)
    requires Distinct(entries)
    ensures Lookup(Sort(entries), name) == Lookup(entries, name)
  {
    if entries != [] {
      SortLooksUp(entries[1..], name);
      SortLooksUp(entries[1..], entries[0].name);
      InsertLooksUp(entries[0], Sort(entries[1..]), name);
    }
  }

  lemma {:induction false} SortHolds<T>(entries: seq<Entry<T>>, x: Entry<T>)
    ensures x in Sort(entries) <==> x in entries
  {
    if entries != [] {
      SortHolds(entries[1..], x);
      InsertHolds(NameOf, entries[0], Sort(entries[1..]), x);
    }
  }

  lemma NoneHasName<T>(entries: seq<Entry<T>>, name: Bytes)
    requires Lookup(entries, name).None?
    ensures forall e :: e in entries ==> NameOf(e) != Chars(name)
  {
    LookupFinds(entries, name);
    forall e | e in entries ensures NameOf(e) != Chars(name) {
      if NameOf(e) == Chars(name) {
        BeforeIsTotal(e.name, name);
        LessIsIrreflexive(Chars(name));
      }
    }
  }

  lemma {:induction false} SortSorts<T>(entries: seq<Entry<T>>)
    requires Distinct(entries)
    ensures Sorted(Sort(entries)) && forall x :: x in Sort(entries) <==> x in entries
  {
    if entries != [] {
      SortSorts(entries[1..]);
      SortLooksUp(entries[1..], entries[0].name);
      NoneHasName(Sort(entries[1..]), entries[0].name);
      InsertSorts(NameOf, entries[0], Sort(entries[1..]));
      forall x ensures x in Sort(entries) <==> x in entries {
        SortHolds(entries, x);
      }
    }
  }

  ghost predicate SameHolding<T>(a: seq<Entry<T>>, b: seq<Entry<T>>)
  {
    forall name: Bytes :: Lookup(a, name) == Lookup(b, name)
  }

  lemma EmptyTogether<T>(a: seq<Entry<T>>, b: seq<Entry<T>>)
    requires SameHolding(a, b)
    ensures a == [] <==> b == []
  {
    assert a != [] ==> Lookup(a, a[0].name) == Lookup(b, a[0].name);
    assert b != [] ==> Lookup(a, b[0].name) == Lookup(b, b[0].name);
  }

  /** A sorted listing is determined by what its names hold. */
  lemma {:induction false} SortedIsUnique<T>(a: seq<Entry<T>>, b: seq<Entry<T>>)
    requires Sorted(a) && Sorted(b) && SameHolding(a, b)
    ensures a == b
  {
    EmptyTogether(a, b);
    if a != [] {
      RestIsAhead(a);
      RestIsAhead(b);
      SameFirst(a, b);
      forall name: Bytes ensures Lookup(a[1..], name) == Lookup(b[1..], name) {
        AheadHoldsNothing(a[0].name, a[1..]);
        AheadHoldsNothing(a[0].name, b[1..]);
        assert Lookup(a, name) == Lookup(b, name);
      }
      SortedIsUnique(a[1..], b[1..]);
      assert a == [a[0]] + a[1..] && b == [b[0]] + b[1..];
    }
  }

  lemma AheadHoldsNothing<T>(name: Bytes, entries: seq<Entry<T>>)
    requires Ahead(name, entries)
    ensures Lookup(entries, name).None?
  {
    LookupFinds(entries, name);
    BeforeIsTotal(name, name);
  }

  lemma FirstIsBefore<T>(entries: seq<Entry<T>>, name: Bytes)
    requires entries != [] && Sorted(entries) && Lookup(entries, name).Some? && name != entries[0].name
    ensures Before(entries[0].name, name)
  {
    LookupFinds(entries, name);
    RestIsAhead(entries);
  }

  lemma SameFirst<T>(a: seq<Entry<T>>, b: seq<Entry<T>>)
    requires a != [] && b != [] && Sorted(a) && Sorted(b) && SameHolding(a, b)
    ensures a[0] == b[0]
  {
    var m, n := a[0].name, b[0].name;
    assert Lookup(a, m) == Lookup(b, m) && Lookup(a, n) == Lookup(b, n);
    BeforeIsTotal(m, n);
    if m != n {
      FirstIsBefore(a, n);
      FirstIsBefore(b, m);
    }
  }

  /** Listings that hold the same come out the same, whatever order they came in; others do not. */
  lemma SortedAlikeIffHoldAlike<T>(a: seq<Entry<T>>, b: seq<Entry<T>>)
    requires Distinct(a) && Distinct(b)
    ensures Sort(a) == Sort(b) <==> SameHolding(a, b)
  {
    forall name: Bytes ensures Lookup(Sort(a), name) == Lookup(a, name) && Lookup(Sort(b), name) == Lookup(b, name) {
      SortLooksUp(a, name);
      SortLooksUp(b, name);
    }
    if Sort(a) == Sort(b) {
      forall name: Bytes ensures Lookup(a, name) == Lookup(b, name) {
        assert Lookup(Sort(a), name) == Lookup(Sort(b), name);
      }
    }
    if SameHolding(a, b) {
      SortSorts(a);
      SortSorts(b);
      assert SameHolding(Sort(a), Sort(b));
      SortedIsUnique(Sort(a), Sort(b));
    }
  }
}
