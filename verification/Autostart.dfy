/** What is written to start the program at login, and how it is read back. */
module Autostart {
  import opened Wrappers
  import opened Sequences
  import opened Text

  const HIDDEN_FLAG := "--hidden"

  // ---- whole-string replacement and splitting ----

  /** Every occurrence of a text, from the left and without overlap, replaced by another. */
  function Replace(s: string, from: string, to: string): string
    requires from != ""
  {
    if s == "" then ""
    else if from <= s then to + Replace(s[|from|..], from, to)
    else [s[0]] + Replace(s[1..], from, to)
  }

  /** Position of the first occurrence of a text. */
  function Find(s: string, at: string): (i: Option<nat>)
    requires at != ""
    ensures i.Some? ==> i.value + |at| <= |s| && s[i.value..i.value + |at|] == at
  {
    if at <= s then Some(0)
    else if s == "" then None
    else Later(1, Find(s[1..], at))
  }

  function Later(n: nat, i: Option<nat>): Option<nat>
  {
    if i.None? then None else Some(n + i.value)
  }

  function SplitOnce(s: string, at: string): Option<(string, string)>
    requires at != ""
  {
    var i := Find(s, at);
    if i.None? then None else Some((s[..i.value], s[i.value + |at|..]))
  }

  lemma ReplaceStepsOver(s: string, from: string, to: string)
    requires from != "" && s != "" && !(from <= s)
    ensures Replace(s, from, to) == [s[0]] + Replace(s[1..], from, to)
  {
  }

  lemma {:induction false} ReplaceSkips(x: string, rest: string, from: string, to: string)
    requires from != "" && from[0] !in x
    ensures Replace(x + rest, from, to) == x + Replace(rest, from, to)
  {
    if x == "" {
      assert x + rest == rest;
    } else {
      assert (x + rest)[0] == x[0] && (x + rest)[1..] == x[1..] + rest;
      ReplaceSkips(x[1..], rest, from, to);
    }
  }

  lemma ReplaceFinds(rest: string, from: string, to: string)
    requires from != ""
    ensures Replace(from + rest, from, to) == to + Replace(rest, from, to)
  {
    assert (from + rest)[|from|..] == rest;
  }

  /** A text that begins like the one looked for but is not it stays. */
  lemma ReplacePasses(x: string, rest: string, from: string, to: string)
    requires from != "" && x != "" && from[0] !in x[1..] && !(from <= x + rest)
    ensures Replace(x + rest, from, to) == x + Replace(rest, from, to)
  {
    hide Replace;
    assert (x + rest)[1..] == x[1..] + rest;
    ReplaceStepsOver(x + rest, from, to);
    ReplaceSkips(x[1..], rest, from, to);
  }

  lemma FindStepsOver(s: string, at: string)
    requires at != "" && s != "" && !(at <= s)
    ensures Find(s, at) == Later(1, Find(s[1..], at))
  {
  }

  lemma {:induction false} FindSkips(x: string, rest: string, at: string)
    requires at != "" && at[0] !in x
    ensures Find(x + rest, at) == Later(|x|, Find(rest, at))
  {
    hide Find;
    if x == "" {
      assert x + rest == rest;
    } else {
      assert (x + rest)[0] == x[0] && (x + rest)[1..] == x[1..] + rest;
      FindStepsOver(x + rest, at);
      FindSkips(x[1..], rest, at);
    }
  }

  lemma FoundAtOnce(at: string, rest: string)
    requires at != ""
    ensures Find(at + rest, at) == Some(0)
  {
    assert at <= at + rest;
  }

  lemma SplitWhereFound(x: string, at: string, rest: string)
    requires at != "" && Find(x + (at + rest), at) == Some(|x|)
    ensures SplitOnce(x + (at + rest), at) == Some((x, rest))
  {
    var s := x + (at + rest);
    assert s[..|x|] == x;
    assert s[|x| + |at|..] == rest;
  }

  lemma SplitFinds(x: string, at: string, rest: string)
    requires at != "" && at[0] !in x
    ensures SplitOnce(x + (at + rest), at) == Some((x, rest))
  {
    FindSkips(x, at + rest, at);
    FoundAtOnce(at, rest);
    SplitWhereFound(x, at, rest);
  }

  /** A text cut before its tags. */
  datatype Piece = Plain(text: string) | Tag(text: string)

  function Shown(piece: Piece): string
  {
    if piece.Tag? then "<" + piece.text else piece.text
  }

  function Flat(pieces: seq<Piece>): string
  {
    if pieces == [] then "" else Shown(pieces[0]) + Flat(pieces[1..])
  }

  /** The tag looked for can neither be in this piece nor begin in it. */
  predicate Passes(piece: Piece, tag: string)
  {
    '<' !in piece.text && (piece.Tag? ==> Differ(piece.text, tag))
  }

  predicate Differ(a: string, b: string)
  {
    exists k :: 0 <= k < |a| && k < |b| && a[k] != b[k]
  }

  lemma TagsDiffer(text: string, rest: string, tag: string)
    requires Differ(text, tag)
    ensures !("<" + tag <= "<" + text + rest)
  {
    var k :| 0 <= k < |text| && k < |tag| && text[k] != tag[k];
    assert ("<" + tag)[k + 1] == tag[k] && ("<" + text + rest)[k + 1] == text[k];
  }

  lemma FindPasses(piece: Piece, rest: string, tag: string)
    requires Passes(piece, tag)
    ensures Find(Shown(piece) + rest, "<" + tag) == Later(|Shown(piece)|, Find(rest, "<" + tag))
  {
    hide Find;
    FindSkips(piece.text, rest, "<" + tag);
    if piece.Tag? {
      TagsDiffer(piece.text, rest, tag);
      FindStepsOver(Shown(piece) + rest, "<" + tag);
      assert (Shown(piece) + rest)[1..] == piece.text + rest;
    }
  }

  /** A tag is found behind pieces that cannot hold it. */
  lemma {:induction false} FindBehind(pieces: seq<Piece>, tag: string, rest: string)
    requires forall i :: 0 <= i < |pieces| ==> Passes(pieces[i], tag)
    ensures Find(Flat(pieces) + rest, "<" + tag) == Later(|Flat(pieces)|, Find(rest, "<" + tag))
  {
    hide Find;
    if pieces == [] {
      assert Flat(pieces) + rest == rest;
    } else {
      FindBehind(pieces[1..], tag, rest);
      FindPasses(pieces[0], Flat(pieces[1..]) + rest, tag);
      assert Flat(pieces) + rest == Shown(pieces[0]) + (Flat(pieces[1..]) + rest);
    }
  }

  lemma SplitBehind(pieces: seq<Piece>, tag: string, rest: string)
    requires forall i :: 0 <= i < |pieces| ==> Passes(pieces[i], tag)
    ensures SplitOnce(Flat(pieces) + ("<" + tag + rest), "<" + tag) == Some((Flat(pieces), rest))
  {
    hide Find, SplitOnce, Flat, Passes;
    FindBehind(pieces, tag, "<" + tag + rest);
    FoundAtOnce("<" + tag, rest);
    SplitWhereFound(Flat(pieces), "<" + tag, rest);
  }

  // ---- escaping ----

  function XmlEscape(value: string): string
  {
    Replace(Replace(Replace(value, "&", "&amp;"), "<", "&lt;"), ">", "&gt;")
  }

  function XmlUnescape(value: string): string
  {
    Replace(Replace(Replace(value, "&lt;", "<"), "&gt;", ">"), "&amp;", "&")
  }

  /** A text in which each of the three significant characters is replaced by the given text. */
  function Each(s: string, amp: string, lt: string, gt: string): string
  {
    if s == "" then "" else Letter(s[0], amp, lt, gt) + Each(s[1..], amp, lt, gt)
  }

  function Letter(c: char, amp: string, lt: string, gt: string): string
  {
    if c == '&' then amp else if c == '<' then lt else if c == '>' then gt else [c]
  }

  lemma {:induction false} EachOfItself(s: string)
    ensures Each(s, "&", "<", ">") == s
  {
    if s != "" {
      EachOfItself(s[1..]);
    }
  }

  lemma {:induction false} ReplaceAmpersands(s: string)
    ensures Replace(s, "&", "&amp;") == Each(s, "&amp;", "<", ">")
  {
    if s != "" {
      ReplaceAmpersands(s[1..]);
    }
  }

  lemma {:induction false} ReplaceLess(s: string)
    ensures Replace(Each(s, "&amp;", "<", ">"), "<", "&lt;") == Each(s, "&amp;", "&lt;", ">")
  {
    if s != "" {
      var rest := Each(s[1..], "&amp;", "<", ">");
      ReplaceLess(s[1..]);
      if s[0] == '<' {
        ReplaceFinds(rest, "<", "&lt;");
      } else {
        ReplaceSkips(Letter(s[0], "&amp;", "<", ">"), rest, "<", "&lt;");
      }
    }
  }

  lemma {:induction false} ReplaceGreater(s: string)
    ensures Replace(Each(s, "&amp;", "&lt;", ">"), ">", "&gt;") == Each(s, "&amp;", "&lt;", "&gt;")
  {
    if s != "" {
      var rest := Each(s[1..], "&amp;", "&lt;", ">");
      ReplaceGreater(s[1..]);
      if s[0] == '>' {
        ReplaceFinds(rest, ">", "&gt;");
      } else {
        ReplaceSkips(Letter(s[0], "&amp;", "&lt;", ">"), rest, ">", "&gt;");
      }
    }
  }

  /** Three whole-string replacements amount to one replacement per character. */
  lemma EscapeIsPerCharacter(s: string)
    ensures XmlEscape(s) == Each(s, "&amp;", "&lt;", "&gt;")
  {
    ReplaceAmpersands(s);
    ReplaceLess(s);
    ReplaceGreater(s);
  }

  lemma {:induction false} RestoreLess(s: string)
    ensures Replace(Each(s, "&amp;", "&lt;", "&gt;"), "&lt;", "<") == Each(s, "&amp;", "<", "&gt;")
  {
    if s != "" {
      var rest := Each(s[1..], "&amp;", "&lt;", "&gt;");
      var head := Letter(s[0], "&amp;", "&lt;", "&gt;");
      RestoreLess(s[1..]);
      if s[0] == '<' {
        ReplaceFinds(rest, "&lt;", "<");
      } else {
        assert |head| > 1 ==> (head + rest)[1] == head[1];
        ReplacePasses(head, rest, "&lt;", "<");
      }
    }
  }

  lemma {:induction false} RestoreGreater(s: string)
    ensures Replace(Each(s, "&amp;", "<", "&gt;"), "&gt;", ">") == Each(s, "&amp;", "<", ">")
  {
    if s != "" {
      var rest := Each(s[1..], "&amp;", "<", "&gt;");
      var head := Letter(s[0], "&amp;", "<", "&gt;");
      RestoreGreater(s[1..]);
      if s[0] == '>' {
        ReplaceFinds(rest, "&gt;", ">");
      } else {
        assert |head| > 1 ==> (head + rest)[1] == head[1];
        ReplacePasses(head, rest, "&gt;", ">");
      }
    }
  }

  lemma {:induction false} RestoreAmpersands(s: string)
    ensures Replace(Each(s, "&amp;", "<", ">"), "&amp;", "&") == Each(s, "&", "<", ">")
  {
    if s != "" {
      var rest := Each(s[1..], "&amp;", "<", ">");
      RestoreAmpersands(s[1..]);
      if s[0] == '&' {
        ReplaceFinds(rest, "&amp;", "&");
      } else {
        ReplaceSkips(Letter(s[0], "&amp;", "<", ">"), rest, "&amp;", "&");
      }
    }
  }

  lemma UnescapeAfterEscape(s: string)
    ensures XmlUnescape(XmlEscape(s)) == s
  {
    EscapeIsPerCharacter(s);
    RestoreLess(s);
    RestoreGreater(s);
    RestoreAmpersands(s);
    EachOfItself(s);
  }

  /** No tag can begin or end in an escaped text. */
  lemma {:induction false} EscapedHasNoTags(s: string)
    ensures '<' !in Each(s, "&amp;", "&lt;", "&gt;") && '>' !in Each(s, "&amp;", "&lt;", "&gt;")
  {
    if s != "" {
      EscapedHasNoTags(s[1..]);
    }
  }

  // ---- whitespace ----

  function TrimStart(s: string): string
  {
    if s != "" && IsSpace(s[0]) then TrimStart(s[1..]) else s
  }

  function TrimEnd(s: string): string
  {
    if s != "" && IsSpace(s[|s| - 1]) then TrimEnd(s[..|s| - 1]) else s
  }

  function Trim(s: string): string
  {
    TrimEnd(TrimStart(s))
  }

  lemma {:induction false} TrimStartSkips(x: string, rest: string)
    requires Blank(x)
    ensures TrimStart(x + rest) == TrimStart(rest)
  {
    if x == "" {
      assert x + rest == rest;
    } else {
      assert (x + rest)[0] == x[0] && (x + rest)[1..] == x[1..] + rest;
      TrimStartSkips(x[1..], rest);
    }
  }

  lemma {:induction false} TrimEndSkips(s: string, x: string)
    requires Blank(x)
    ensures TrimEnd(s + x) == TrimEnd(s)
  {
    if x == "" {
      assert s + x == s;
    } else {
      var n := |s + x| - 1;
      assert (s + x)[n] == x[|x| - 1] && (s + x)[..n] == s + x[..|x| - 1];
      TrimEndSkips(s, x[..|x| - 1]);
    }
  }

  /** Trimming takes away exactly the blanks around a text that neither begins nor ends with one. */
  lemma TrimKeepsCore(before: string, core: string, after: string)
    requires Blank(before) && Blank(after)
    requires core != "" && !IsSpace(core[0]) && !IsSpace(core[|core| - 1])
    ensures Trim(before + core + after) == core
  {
    assert before + core + after == before + (core + after);
    TrimStartSkips(before, core + after);
    TrimEndSkips(core, after);
  }

  lemma {:induction false} EachOfTwo(a: string, b: string)
    ensures Each(a + b, "&amp;", "&lt;", "&gt;") == Each(a, "&amp;", "&lt;", "&gt;") + Each(b, "&amp;", "&lt;", "&gt;")
  {
    if a == "" {
      assert a + b == b;
    } else {
      assert (a + b)[0] == a[0] && (a + b)[1..] == a[1..] + b;
      EachOfTwo(a[1..], b);
    }
  }

  lemma {:induction false} EscapeThenTrimStart(s: string)
    ensures TrimStart(Each(s, "&amp;", "&lt;", "&gt;")) == Each(TrimStart(s), "&amp;", "&lt;", "&gt;")
  {
    if s != "" && IsSpace(s[0]) {
      EscapeThenTrimStart(s[1..]);
      assert Each(s, "&amp;", "&lt;", "&gt;")[1..] == Each(s[1..], "&amp;", "&lt;", "&gt;");
    } else if s != "" {
      assert !IsSpace(Letter(s[0], "&amp;", "&lt;", "&gt;")[0]);
    }
  }

  /** A character is escaped to a text that ends in whitespace exactly if it is whitespace, and then to itself. */
  lemma EachOfOne(c: char)
    ensures var one := Each([c], "&amp;", "&lt;", "&gt;");
      one != "" && (IsSpace(one[|one| - 1]) <==> IsSpace(c)) && (IsSpace(c) ==> one == [c])
  {
    assert [c][1..] == "";
  }

  lemma {:induction false} EscapeThenTrimEnd(s: string)
    ensures TrimEnd(Each(s, "&amp;", "&lt;", "&gt;")) == Each(TrimEnd(s), "&amp;", "&lt;", "&gt;")
  {
    if s != "" {
      var n := |s| - 1;
      var init := Each(s[..n], "&amp;", "&lt;", "&gt;");
      assert s == s[..n] + [s[n]];
      EachOfTwo(s[..n], [s[n]]);
      EachOfOne(s[n]);
      if IsSpace(s[n]) {
        WithoutLast(init, s[n]);
        EscapeThenTrimEnd(s[..n]);
      }
    }
  }

  lemma EscapeThenTrim(s: string)
    ensures Trim(XmlEscape(s)) == XmlEscape(Trim(s))
  {
    EscapeIsPerCharacter(s);
    EscapeThenTrimStart(s);
    EscapeThenTrimEnd(TrimStart(s));
    EscapeIsPerCharacter(Trim(s));
  }

  // ---- the launch agent ----

  /** The property list up to its list of arguments. */
  function Preamble(): seq<Piece>
  {
    [Tag("?xml version=\"1.0\""), Plain(" encoding=\"UTF-8\"?>\n"),
     Tag("!DOCTYPE plist PUBLIC "), Plain("\"-//Apple//DTD PLIST 1.0//EN\" "),
     Plain("\"http://www.apple.com/DTDs/"), Plain("PropertyList-1.0.dtd\">\n")]
  }

  function Label(): seq<Piece>
  {
    [Tag("plist version=\"1.0\">\n"), Tag("dict>\n\t"),
     Tag("key>Label"), Tag("/key>\n\t"),
     Tag("string>app.kb.desktop"), Tag("/string>\n\t")]
  }

  /** The two arguments: the escaped path of the program and the flag. */
  function Arguments(escaped: string): seq<Piece>
  {
    [Plain("\n\t\t"), Tag("string>" + escaped), Tag("/string>" + "\n\t\t"),
     Tag("string>" + HIDDEN_FLAG), Tag("/string>\n\t")]
  }

  function Settings(): seq<Piece>
  {
    [Plain("\n\t"), Tag("key>RunAtLoad"), Tag("/key>\n\t"), Tag("true/>\n\t"), Tag("key>ProcessType"),
     Tag("/key>\n\t"), Tag("string>Interactive"), Tag("/string>\n"), Tag("/dict>\n"), Tag("/plist>\n")]
  }

  function Ending(): string
  {
    Flat(Settings())
  }

  const ARGUMENTS := "key>ProgramArguments</key>"

  function ArgumentList(program: string): string
  {
    Flat([Plain("\n\t")]) + ("<" + "array>" + (Flat(Arguments(XmlEscape(program))) + ("<" + "/array>" + Ending())))
  }

  function LaunchAgentPlist(program: string): string
  {
    Flat(Preamble() + Label()) + ("<" + ARGUMENTS + ArgumentList(program))
  }

  lemma {:induction false} FlatOfTwo(a: seq<Piece>, b: seq<Piece>)
    ensures Flat(a + b) == Flat(a) + Flat(b)
  {
    if a == [] {
      assert a + b == b;
    } else {
      assert (a + b)[1..] == a[1..] + b;
      FlatOfTwo(a[1..], b);
    }
  }

  /** A tag, and what comes after it. */
  lemma FlatBehindTag(text: string, rest: seq<Piece>)
    ensures Flat([Tag(text)] + rest) == "<" + text + Flat(rest)
  {
    assert ([Tag(text)] + rest)[1..] == rest;
  }

  /** The whole property list, cut before its tags. */
  function AllPieces(escaped: string): seq<Piece>
  {
    [Tag("?xml version=\"1.0\""), Plain(" encoding=\"UTF-8\"?>\n"),
     Tag("!DOCTYPE plist PUBLIC "), Plain("\"-//Apple//DTD PLIST 1.0//EN\" "),
     Plain("\"http://www.apple.com/DTDs/"), Plain("PropertyList-1.0.dtd\">\n"),
     Tag("plist version=\"1.0\">\n"), Tag("dict>\n\t"),
     Tag("key>Label"), Tag("/key>\n\t"), Tag("string>app.kb.desktop"), Tag("/string>\n\t"),
     Tag("key>ProgramArguments</key>"), Plain("\n\t"), Tag("array>"),
     Plain("\n\t\t"), Tag("string>" + escaped), Tag("/string>" + "\n\t\t"),
     Tag("string>" + "--hidden"), Tag("/string>\n\t"), Tag("/array>"),
     Plain("\n\t"), Tag("key>RunAtLoad"), Tag("/key>\n\t"), Tag("true/>\n\t"),
     Tag("key>ProcessType"), Tag("/key>\n\t"), Tag("string>Interactive"), Tag("/string>\n"),
     Tag("/dict>\n"), Tag("/plist>\n")]
  }

  lemma PiecesInParts(escaped: string)
    ensures AllPieces(escaped)
      == Preamble() + Label() + ([Tag("key>ProgramArguments</key>")]
         + ([Plain("\n\t")] + ([Tag("array>")] + (Arguments(escaped) + ([Tag("/array>")] + Settings())))))
  {
  }

  lemma LaunchAgentText(program: string)
    ensures LaunchAgentPlist(program) == Flat(AllPieces(XmlEscape(program)))
  {
    hide Flat, Preamble, Label, Arguments, Settings, AllPieces;
    var closed := [Tag("/array>")] + Settings();
    var items := [Tag("array>")] + (Arguments(XmlEscape(program)) + closed);
    PiecesInParts(XmlEscape(program));
    FlatBehindTag("/array>", Settings());
    FlatOfTwo(Arguments(XmlEscape(program)), closed);
    FlatBehindTag("array>", Arguments(XmlEscape(program)) + closed);
    FlatOfTwo([Plain("\n\t")], items);
    assert ArgumentList(program) == Flat([Plain("\n\t")] + items);
    FlatBehindTag("key>ProgramArguments</key>", [Plain("\n\t")] + items);
    FlatOfTwo(Preamble() + Label(), [Tag("key>ProgramArguments</key>")] + ([Plain("\n\t")] + items));
  }

  /** The text of the first string in the list of arguments. */
  function FirstArgument(plist: string): Option<string>
  {
    var arguments := SplitOnce(plist, "<" + ARGUMENTS);
    if arguments.None? then None else
    var items := SplitOnce(arguments.value.1, "<" + "array>");
    if items.None? then None else
    var closed := SplitOnce(items.value.1, "<" + "/array>");
    if closed.None? then None else FirstString(closed.value.0)
  }

  function FirstString(text: string): Option<string>
  {
    var first := SplitOnce(text, "<" + "string>");
    if first.None? then None else
    var value := SplitOnce(first.value.1, "<" + "/string>");
    if value.None? then None else Some(value.value.0)
  }

  function LaunchAgentProgram(plist: string): Option<string>
  {
    var value := FirstArgument(plist);
    if value.None? then None else Some(XmlUnescape(Trim(value.value)))
  }

  lemma PlainPasses(text: string)
    requires forall i :: 0 <= i < |text| ==> text[i] != '<'
    ensures Passes(Plain(text), ARGUMENTS)
  {
  }

  lemma TagPasses(text: string, k: nat)
    requires forall i :: 0 <= i < |text| ==> text[i] != '<'
    requires k < |text| && k < |ARGUMENTS| && text[k] != ARGUMENTS[k]
    ensures Passes(Tag(text), ARGUMENTS)
  {
  }

  lemma PreamblePasses()
    ensures forall i :: 0 <= i < |Preamble()| ==> Passes(Preamble()[i], ARGUMENTS)
  {
    hide Passes;
    TagPasses("?xml version=\"1.0\"", 0);
    PlainPasses(" encoding=\"UTF-8\"?>\n");
    TagPasses("!DOCTYPE plist PUBLIC ", 0);
    PlainPasses("\"-//Apple//DTD PLIST 1.0//EN\" ");
    PlainPasses("\"http://www.apple.com/DTDs/");
    PlainPasses("PropertyList-1.0.dtd\">\n");
  }

  lemma LabelPasses()
    ensures forall i :: 0 <= i < |Label()| ==> Passes(Label()[i], ARGUMENTS)
  {
    hide Passes;
    TagPasses("plist version=\"1.0\">\n", 0);
    TagPasses("dict>\n\t", 0);
    TagPasses("key>Label", 4);
    TagPasses("/key>\n\t", 0);
    TagPasses("string>app.kb.desktop", 0);
    TagPasses("/string>\n\t", 0);
  }

  lemma ArgumentsAreFound(program: string)
    ensures SplitOnce(LaunchAgentPlist(program), "<" + ARGUMENTS)
      == Some((Flat(Preamble() + Label()), ArgumentList(program)))
  {
    hide Find, Flat, SplitOnce, Passes, Preamble, Label, ArgumentList;
    var pieces := Preamble() + Label();
    PreamblePasses();
    LabelPasses();
    forall i | 0 <= i < |pieces| ensures Passes(pieces[i], ARGUMENTS) {
      assert pieces[i] == if i < |Preamble()| then Preamble()[i] else Label()[i - |Preamble()|];
    }
    SplitBehind(pieces, ARGUMENTS, ArgumentList(program));
  }

  lemma ArrayEnds(escaped: string, rest: string)
    requires '<' !in escaped
    ensures SplitOnce(Flat(Arguments(escaped)) + ("<" + "/array>" + rest), "<" + "/array>")
      == Some((Flat(Arguments(escaped)), rest))
  {
    var tag := "/array>";
    var pieces := Arguments(escaped);
    assert pieces[1].text[0] != tag[0] && pieces[2].text[1] != tag[1];
    assert pieces[3].text[0] != tag[0] && pieces[4].text[1] != tag[1];
    SplitBehind(pieces, tag, rest);
  }

  lemma ValueBetweenTags(before: string, open: string, value: string, close: string, after: string)
    requires '<' !in before && '<' !in value
    ensures SplitOnce(before + ("<" + open + (value + ("<" + close + after))), "<" + open)
      == Some((before, value + ("<" + close + after)))
    ensures SplitOnce(value + ("<" + close + after), "<" + close) == Some((value, after))
  {
    SplitFinds(before, "<" + open, value + ("<" + close + after));
    SplitFinds(value, "<" + close, after);
  }

  lemma FlatOfThreeText(before: string, open: string, value: string, close: string, blank: string, more: string)
    ensures before + (("<" + (open + value)) + (("<" + (close + blank)) + more))
            == before + ("<" + open + (value + ("<" + close + (blank + more))))
  {
  }

  lemma FlatOfThree(before: string, open: string, value: string, close: string, blank: string, more: seq<Piece>)
    ensures Flat([Plain(before), Tag(open + value), Tag(close + blank)] + more)
            == before + ("<" + open + (value + ("<" + close + (blank + Flat(more)))))
  {
    var pieces := [Plain(before), Tag(open + value), Tag(close + blank)] + more;
    assert pieces[1..] == [Tag(open + value), Tag(close + blank)] + more;
    assert pieces[1..][1..] == [Tag(close + blank)] + more;
    assert pieces[1..][1..][1..] == more;
    assert Flat(pieces[1..][1..]) == ("<" + (close + blank)) + Flat(more);
    assert Flat(pieces[1..]) == ("<" + (open + value)) + Flat(pieces[1..][1..]);
    FlatOfThreeText(before, open, value, close, blank, Flat(more));
  }

  lemma FirstStringIsFound(escaped: string)
    requires '<' !in escaped
    ensures FirstString(Flat(Arguments(escaped))) == Some(escaped)
  {
    var more := [Tag("string>" + HIDDEN_FLAG), Tag("/string>\n\t")];
    FlatOfThree("\n\t\t", "string>", escaped, "/string>", "\n\t\t", more);
    assert Arguments(escaped) == [Plain("\n\t\t"), Tag("string>" + escaped), Tag("/string>" + "\n\t\t")] + more;
    ValueBetweenTags("\n\t\t", "string>", escaped, "/string>", "\n\t\t" + Flat(more));
  }

  lemma ArrayIsFound(escaped: string, rest: string)
    requires '<' !in escaped
    ensures SplitOnce(Flat([Plain("\n\t")]) + ("<" + "array>" + rest), "<" + "array>")
      == Some((Flat([Plain("\n\t")]), rest))
  {
    hide Find, SplitOnce, Flat;
    SplitBehind([Plain("\n\t")], "array>", rest);
  }

  lemma FirstArgumentIsFound(program: string)
    ensures FirstArgument(LaunchAgentPlist(program)) == Some(XmlEscape(program))
  {
    hide Find, SplitOnce, Flat, Arguments, XmlEscape, Each, FirstString, LaunchAgentPlist, Ending;
    var escaped := XmlEscape(program);
    EscapeIsPerCharacter(program);
    EscapedHasNoTags(program);
    ArgumentsAreFound(program);
    ArrayIsFound(escaped, Flat(Arguments(escaped)) + ("<" + "/array>" + Ending()));
    ArrayEnds(escaped, Ending());
    FirstStringIsFound(escaped);
  }

  /** What is read back is the path without the whitespace around it. */
  lemma LaunchAgentReadsBackTrimmed(program: string)
    ensures LaunchAgentProgram(LaunchAgentPlist(program)) == Some(Trim(program))
  {
    FirstArgumentIsFound(program);
    EscapeThenTrim(program);
    UnescapeAfterEscape(Trim(program));
  }

  /** There is whitespace at one end. */
  predicate BlankAround(s: string)
  {
    s != "" && (IsSpace(s[0]) || IsSpace(s[|s| - 1]))
  }

  lemma {:induction false} TrimStartIsSuffix(s: string)
    ensures |TrimStart(s)| <= |s| && TrimStart(s) == s[|s| - |TrimStart(s)|..]
    ensures TrimStart(s) != "" ==> !IsSpace(TrimStart(s)[0])
  {
    if s != "" && IsSpace(s[0]) {
      TrimStartIsSuffix(s[1..]);
    }
  }

  lemma {:induction false} TrimEndIsPrefix(s: string)
    ensures TrimEnd(s) <= s
    ensures TrimEnd(s) != "" ==> !IsSpace(TrimEnd(s)[|TrimEnd(s)| - 1])
  {
    if s != "" && IsSpace(s[|s| - 1]) {
      TrimEndIsPrefix(s[..|s| - 1]);
    }
  }

  /** Trimming changes nothing exactly if there is no whitespace at either end. */
  lemma TrimKeepsExactly(s: string)
    ensures Trim(s) == s <==> !BlankAround(s)
  {
    TrimStartIsSuffix(s);
    TrimEndIsPrefix(TrimStart(s));
  }

  // ---- quoted commands ----

  /** The program of a command line that begins with it, quoted or not. */
  function UnquoteProgram(text: string): string
  {
    var command := Trim(text);
    if "\"" <= command then
      var parts := SplitOnce(command[1..], "\"");
      if parts.None? then command[1..] else parts.value.0
    else
      var parts := SplitOnce(command, " ");
      if parts.None? then command else parts.value.0
  }

  function Command(program: string): string
  {
    "\"" + program + "\" " + HIDDEN_FLAG
  }

  function RunKeyValue(program: string): string
  {
    Command(program)
  }

  lemma {:induction false} NotFoundMeansAbsent(s: string, c: char)
    ensures Find(s, [c]).None? ==> c !in s
    ensures Find(s, [c]).Some? ==> c !in s[..Find(s, [c]).value]
  {
    if s != "" && s[0] != c {
      NotFoundMeansAbsent(s[1..], c);
      var i := Find(s[1..], [c]);
      if i.Some? {
        assert s[..i.value + 1] == [s[0]] + s[1..][..i.value];
      } else {
        assert s == [s[0]] + s[1..];
      }
    }
  }

  /** What comes out of a quoted command holds no quotation mark and nothing that was not in it. */
  lemma UnquotedPart(command: string)
    requires command != "" && command[0] == '"'
    ensures '"' !in UnquoteProgram(command)
    ensures forall c :: c in UnquoteProgram(command) ==> c in command
  {
    TrimEndIsPrefix(command);
    QuoteStays(command);
    assert Trim(command) == TrimEnd(command);
    var rest := TrimEnd(command)[1..];
    NotFoundMeansAbsent(rest, '"');
    assert forall c :: c in rest ==> c in command;
  }

  lemma {:induction false} QuoteStays(s: string)
    requires s != "" && s[0] == '"'
    ensures "\"" <= TrimEnd(s)
  {
    if IsSpace(s[|s| - 1]) {
      QuoteStays(s[..|s| - 1]);
    }
  }

  /** A path without quotation marks comes back from its command, whatever blanks are around it. */
  lemma CommandReadsBack(before: string, program: string, after: string)
    requires Blank(before) && Blank(after) && '"' !in program
    ensures UnquoteProgram(before + Command(program) + after) == program
  {
    var core := Command(program);
    assert core[|core| - 1] == HIDDEN_FLAG[|HIDDEN_FLAG| - 1] == 'n';
    TrimKeepsCore(before, core, after);
    assert core[1..] == program + ("\"" + (" " + HIDDEN_FLAG));
    SplitFinds(program, "\"", " " + HIDDEN_FLAG);
  }

  lemma RunValueReadsBack(before: string, program: string, after: string)
    requires Blank(before) && Blank(after)
    ensures UnquoteProgram(before + RunKeyValue(program) + after) == program <==> '"' !in program
  {
    if '"' !in program {
      CommandReadsBack(before, program, after);
    } else {
      var core := Command(program);
      assert core[|core| - 1] == HIDDEN_FLAG[|HIDDEN_FLAG| - 1] == 'n';
      TrimKeepsCore(before, core, after);
      TrimKeepsCore("", core, "");
      assert "" + core + "" == core;
      UnquotedPart(core);
    }
  }

  // ---- the desktop entry ----

  function Line(text: string, rest: string): string
  {
    text + "\n" + rest
  }

  function WithoutReturn(line: string): string
  {
    if line != "" && line[|line| - 1] == '\r' then line[..|line| - 1] else line
  }

  /** The lines of a text, without the line feeds and the carriage returns before them. */
  function Lines(s: string): seq<string>
  {
    if s == "" then []
    else
      var end := IndexOf(s, '\n');
      if end.None? then [s] else [WithoutReturn(s[..end.value])] + Lines(s[end.value + 1..])
  }

  function FirstExec(lines: seq<string>): Option<string>
  {
    if lines == [] then None
    else if "Exec=" <= lines[0] then Some(lines[0][5..])
    else FirstExec(lines[1..])
  }

  function ExecAndAfter(program: string): string
  {
    Line("Exec=" + Command(program), Line("Terminal=false", Line("X-GNOME-Autostart-enabled=true", "")))
  }

  function DesktopEntry(program: string): string
  {
    Line("[Desktop Entry]", Line("Type=Application", Line("Name=kb-app", ExecAndAfter(program))))
  }

  function DesktopEntryProgram(entry: string): Option<string>
  {
    var command := FirstExec(Lines(entry));
    if command.None? then None else Some(UnquoteProgram(command.value))
  }

  lemma LinesOfLine(text: string, rest: string)
    requires '\n' !in text
    ensures Lines("") == []
    ensures Lines(Line(text, rest)) == [WithoutReturn(text)] + Lines(rest)
  {
    var s := Line(text, rest);
    assert s[..|text|] == text && s[|text| + 1..] == rest;
    IndexIs(s, '\n', |text|);
  }

  lemma OtherLinesArePassed(text: string, rest: string)
    requires '\n' !in text && text != "" && text[0] != 'E'
    ensures FirstExec(Lines(Line(text, rest))) == FirstExec(Lines(rest))
  {
    LinesOfLine(text, rest);
    assert WithoutReturn(text) == "" || WithoutReturn(text)[0] == text[0];
  }

  lemma EntryBeginsWithExec(program: string)
    ensures FirstExec(Lines(DesktopEntry(program))) == FirstExec(Lines(ExecAndAfter(program)))
  {
    hide ExecAndAfter, FirstExec, Lines;
    var exec := ExecAndAfter(program);
    OtherLinesArePassed("Name=kb-app", exec);
    OtherLinesArePassed("Type=Application", Line("Name=kb-app", exec));
    OtherLinesArePassed("[Desktop Entry]", Line("Type=Application", Line("Name=kb-app", exec)));
  }

  /** Only the first line of a text is read from it. */
  function FirstLine(text: string): (first: string)
    ensures '\n' !in first && first <= text
  {
    var end := IndexOf(text, '\n');
    if end.None? then text else WithoutReturn(text[..end.value])
  }

  lemma FirstLineComesFirst(text: string, rest: string)
    requires text != "" && text[|text| - 1] != '\r'
    ensures Lines(Line(text, rest)) != [] && Lines(Line(text, rest))[0] == FirstLine(text)
  {
    var s, end := Line(text, rest), IndexOf(text, '\n');
    var k := if end.None? then |text| else end.value;
    assert s[..k] == text[..k];
    IndexIs(s, '\n', k);
  }

  lemma FirstLineBeginsAlike(text: string)
    requires "Exec=\"" <= text
    ensures "Exec=\"" <= FirstLine(text)
  {
    assert forall k :: 0 <= k < 6 ==> text[k] == "Exec=\""[k] && text[k] != '\n';
    assert text[5] == '"';
  }

  lemma ExecLine(program: string)
    ensures FirstExec(Lines(ExecAndAfter(program))) == Some(FirstLine("Exec=" + Command(program))[5..])
    ensures "Exec=\"" <= FirstLine("Exec=" + Command(program))
  {
    var text := "Exec=" + Command(program);
    assert text[..6] == "Exec=\"";
    assert text[|text| - 1] == HIDDEN_FLAG[|HIDDEN_FLAG| - 1] == 'n';
    FirstLineBeginsAlike(text);
    FirstLineComesFirst(text, Line("Terminal=false", Line("X-GNOME-Autostart-enabled=true", "")));
    assert FirstLine(text)[..5] == "Exec=\""[..5] == "Exec=";
  }

  lemma WholeCommandIsRead(program: string)
    requires '\n' !in program
    ensures FirstLine("Exec=" + Command(program))[5..] == Command(program)
  {
    var text := "Exec=" + Command(program);
    assert '\n' !in Command(program) && '\n' !in "Exec=";
    assert '\n' !in text && text[5..] == Command(program);
  }

  lemma PartOfCommandIsQuoted(program: string)
    requires "Exec=\"" <= FirstLine("Exec=" + Command(program))
    ensures var command := FirstLine("Exec=" + Command(program))[5..];
      command != "" && command[0] == '"' && '\n' !in command
  {
    var first := FirstLine("Exec=" + Command(program));
    assert first[5] == "Exec=\""[5] == '"';
  }

  /** The desktop entry returns a path exactly if it has no quotation mark and no line feed. */
  lemma DesktopEntryReadsBack(program: string)
    ensures DesktopEntryProgram(DesktopEntry(program)).Some?
    ensures DesktopEntryProgram(DesktopEntry(program)) == Some(program) <==> '"' !in program && '\n' !in program
  {
    hide FirstLine, FirstExec, Lines, UnquoteProgram, Command, DesktopEntry, ExecAndAfter;
    EntryBeginsWithExec(program);
    ExecLine(program);
    PartOfCommandIsQuoted(program);
    UnquotedPart(FirstLine("Exec=" + Command(program))[5..]);
    if '"' !in program && '\n' !in program {
      WholeCommandIsRead(program);
      CommandReadsBack("", program, "");
      assert "" + Command(program) + "" == Command(program);
    }
  }

  // ---- the login item of each system ----

  datatype LoginItem = LaunchAgent | Desktop | RunKey | Unsupported

  function Written(item: LoginItem, program: string): Option<string>
  {
    match item
    case LaunchAgent => Some(LaunchAgentPlist(program))
    case Desktop => Some(DesktopEntry(program))
    case RunKey => Some(RunKeyValue(program))
    case Unsupported => None
  }

  function RegisteredProgram(item: LoginItem, stored: Option<string>): Option<string>
  {
    if stored.None? then None else
    match item
    case LaunchAgent => LaunchAgentProgram(stored.value)
    case Desktop => DesktopEntryProgram(stored.value)
    case RunKey => Some(UnquoteProgram(stored.value))
    case Unsupported => None
  }

  /** The command that a registration starts, quoted and with the flag that keeps the window closed. */
  lemma CommandText(program: string)
    ensures Written(RunKey, program) == Some("\"" + program + "\" --hidden")
    ensures Written(Desktop, program).Some? &&
      "[Desktop Entry]\n" + "Type=Application\n" + "Name=kb-app\n" + "Exec=\"" + program + "\" --hidden"
        <= Written(Desktop, program).value
  {
    assert "\" " + HIDDEN_FLAG == "\" --hidden";
    assert Command(program) == "\"" + program + "\" --hidden";
    assert "Exec=" + "\"" == "Exec=\"";
    var lines, command := "[Desktop Entry]\n" + "Type=Application\n" + "Name=kb-app\n", Command(program);
    assert DesktopEntry(program)
      == lines + ("Exec=" + command) + ("\n" + Line("Terminal=false", Line("X-GNOME-Autostart-enabled=true", "")));
  }

  /** The paths that a system's registration can hold. */
  predicate Representable(item: LoginItem, program: string)
  {
    match item
    case LaunchAgent => !BlankAround(program)
    case Desktop => '"' !in program && '\n' !in program
    case RunKey => '"' !in program
    case Unsupported => false
  }

  /** Every registration names some program, and the right one exactly for the representable paths. */
  lemma RegistrationReadsBack(item: LoginItem, program: string)
    ensures !item.Unsupported? ==> RegisteredProgram(item, Written(item, program)).Some?
    ensures RegisteredProgram(item, Written(item, program)) == Some(program) <==> Representable(item, program)
  {
    match item
    case LaunchAgent =>
      LaunchAgentReadsBackTrimmed(program);
      TrimKeepsExactly(program);
    case Desktop =>
      DesktopEntryReadsBack(program);
    case RunKey =>
      RunValueReadsBack("", program, "");
      assert "" + RunKeyValue(program) + "" == RunKeyValue(program);
    case Unsupported =>
  }

  // ---- the setting ----

  /** The stored registration, and whether the first start has set it up. */
  datatype Setup = Setup(stored: Option<string>, initialized: bool)

  /** Whether the setting is shown as on. */
  predicate Enabled(item: LoginItem, stored: Option<string>, program: string)
  {
    RegisteredProgram(item, stored) == Some(program)
  }

  /** What a start leaves, whether it went without errors, and the registration that it wrote, if it wrote one. */
  datatype Start = Start(setup: Setup, ok: bool, wrote: Option<string>)

  /**
   * The start of the program: set up the first time, repair a registration of another path later.
   * The flags say whether writing the registration and writing the mark succeed.
   */
  function Initialize(item: LoginItem, setup: Setup, program: string, writes: bool, marks: bool): Start
  {
    if item.Unsupported? then Start(setup, true, None)
    else
      var registered := RegisteredProgram(item, setup.stored);
      var creates := !setup.initialized && registered.None?;
      if creates && !writes then Start(setup, false, None)
      else
        var text := Written(item, program);
        var stored := if creates then text else setup.stored;
        var wrote := if creates then text else None;
        if !setup.initialized && !marks then Start(Setup(stored, false), false, wrote)
        else if registered.Some? && registered != Some(program) then
          if writes then Start(Setup(text, true), true, text) else Start(Setup(setup.stored, true), false, None)
        else Start(Setup(stored, true), true, wrote)
  }

  /**
   * A registration that the user took away stays away, and its absence after the first start can only be the user's
   * choice.
   */
  lemma TakenAwayStaysAway(item: LoginItem, setup: Setup, program: string, writes: bool, marks: bool)
    ensures var start := Initialize(item, setup, program, writes, marks);
      && (setup.initialized && RegisteredProgram(item, setup.stored).None? ==>
        start.setup == setup && start.wrote.None?)
      && (start.setup.initialized && !setup.initialized ==> RegisteredProgram(item, start.setup.stored).Some?)
      && (start.wrote.Some? ==> start.setup.stored == start.wrote)
  {
    hide RegisteredProgram, Written, Representable;
    RegistrationReadsBack(item, program);
    UnsupportedHoldsNothing(setup.stored, program);
  }

  lemma UnsupportedHoldsNothing(stored: Option<string>, program: string)
    ensures RegisteredProgram(Unsupported, stored).None? && !Representable(Unsupported, program)
  {
  }

  /**
   * After a start without errors the setting is on exactly if the path can be held and the user did not take it away.
   */
  lemma StartEnables(item: LoginItem, setup: Setup, program: string)
    ensures var start := Initialize(item, setup, program, true, true);
      && start.ok
      && (Enabled(item, start.setup.stored, program)
          <==> !item.Unsupported? && !(setup.initialized && RegisteredProgram(item, setup.stored).None?)
               && (Representable(item, program) || RegisteredProgram(item, setup.stored) == Some(program)))
  {
    hide RegisteredProgram, Written, Representable;
    RegistrationReadsBack(item, program);
    UnsupportedHoldsNothing(setup.stored, program);
  }

  /** A start reports an error exactly if it had to write something and could not. */
  lemma FailsIffAWriteFails(item: LoginItem, setup: Setup, program: string, writes: bool, marks: bool)
    ensures var start := Initialize(item, setup, program, writes, marks);
      var registered := RegisteredProgram(item, setup.stored);
      var wanted := if setup.initialized then registered.Some? && registered != Some(program) else
        registered != Some(program);
      && (start.ok <==> item.Unsupported? || ((wanted ==> writes) && (!setup.initialized ==> marks)))
      && (start.wrote.Some? ==> start.wrote == Written(item, program) && wanted && writes)
      && (start.ok && !item.Unsupported? && wanted ==> start.wrote == Written(item, program))
      && (start.wrote.None? ==> start.setup.stored == setup.stored)
      && (start.setup.initialized <==>
            setup.initialized || (!item.Unsupported? && marks && (registered.None? ==> writes)))
  {
    hide RegisteredProgram, Written, Representable;
    UnsupportedHoldsNothing(setup.stored, program);
    WrittenUnlessUnsupported(item, program);
  }

  /** A later start writes exactly if what is registered is another program than this one. */
  lemma LaterStartWritesIffAnotherIsRegistered(item: LoginItem, setup: Setup, program: string)
    requires setup.initialized
    ensures Initialize(item, setup, program, true, true).wrote.Some? <==>
      RegisteredProgram(item, setup.stored).Some? && RegisteredProgram(item, setup.stored) != Some(program)
  {
    hide RegisteredProgram, Written, Representable;
    RegistrationReadsBack(item, program);
    UnsupportedHoldsNothing(setup.stored, program);
    WrittenUnlessUnsupported(item, program);
  }

  lemma WrittenUnlessUnsupported(item: LoginItem, program: string)
    ensures Written(item, program).None? <==> item.Unsupported?
  {
  }

  /** What one start wrote, the next one writes again, for ever, if and only if the path cannot be held. */
  lemma RewrittenAtEveryStartIffPathCannotBeHeld(item: LoginItem, setup: Setup, program: string)
    requires Initialize(item, setup, program, true, true).wrote.Some?
    ensures var first := Initialize(item, setup, program, true, true);
      var second := Initialize(item, first.setup, program, true, true);
      second.setup == first.setup && second.wrote == if Representable(item, program) then None else first.wrote
  {
    hide RegisteredProgram, Written, Representable;
    RegistrationReadsBack(item, program);
    UnsupportedHoldsNothing(setup.stored, program);
  }

  /** A start without errors leaves a setup that the next start does not change. */
  lemma SecondStartChangesNothing(item: LoginItem, setup: Setup, program: string)
    ensures var first := Initialize(item, setup, program, true, true);
      Initialize(item, first.setup, program, true, true).setup == first.setup
  {
    hide RegisteredProgram, Written, Representable;
    RegistrationReadsBack(item, program);
  }
}
