/** Sequences kept in the text order of a key, as ordered maps and sorted listings are. */
module Ordered {
  import opened Text

  ghost predicate SortedBy<T>(key: T -> string, entries: seq<T>)
  {
    forall i, j :: 0 <= i < j < |entries| ==> Less(key(entries[i]), key(entries[j]))
  }

  function InsertBy<T>(key: T -> string, e: T, entries: seq<T>): seq<T>
  {
    if entries == [] || Less(key(e), key(entries[0])) then [e] + entries
    else [entries[0]] + InsertBy(key, e, entries[1..])
  }

  lemma {:induction false} InsertAdds<T>(key: T -> string, e: T, entries: seq<T>)
    ensures multiset(InsertBy(key, e, entries)) == multiset(entries) + multiset{e}
    ensures |InsertBy(key, e, entries)| == |entries| + 1
  {
    if entries == [] || Less(key(e), key(entries[0])) {
      assert multiset([e] + entries) == multiset{e} + multiset(entries);
    } else {
      InsertAdds(key, e, entries[1..]);
      assert entries == [entries[0]] + entries[1..];
    }
  }

  lemma InsertHolds<T>(key: T -> string, e: T, entries: seq<T>, x: T)
    ensures x in InsertBy(key, e, entries) <==> x == e || x in entries
  {
    InsertAdds(key, e, entries);
    assert x in InsertBy(key, e, entries) <==> x in multiset(InsertBy(key, e, entries));
    assert x in entries <==> x in multiset(entries);
  }

  lemma {:induction false} InsertSorts<T>(key: T -> string, e: T, entries: seq<T>)
    requires SortedBy(key, entries) && forall x :: x in entries ==> key(x) != key(e)
    ensures SortedBy(key, InsertBy(key, e, entries))
  {
    if entries != [] {
      var r, head, rest := InsertBy(key, e, entries), entries[0], entries[1..];
      if Less(key(e), key(head)) {
        forall j | 0 < j < |r| ensures Less(key(r[0]), key(r[j])) {
          if j > 1 {
            LessIsTransitive(key(e), key(head), key(entries[j - 1]));
          }
        }
      } else {
        InsertSorts(key, e, rest);
        LessIsTotal(key(e), key(head));
        assert r[1..] == InsertBy(key, e, rest);
        forall j | 0 < j < |r| ensures Less(key(r[0]), key(r[j])) {
          InsertHolds(key, e, rest, r[j]);
          assert r[j] == r[1..][j - 1];
        }
        assert forall i, j :: 0 < i < j < |r| ==> r[i] == r[1..][i - 1] && r[j] == r[1..][j - 1];
      }
    }
  }
}
