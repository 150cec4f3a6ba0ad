/** The commented-out release notes of the buildpacks e-mail
    (tools/buildpacks/email.go): writing the template and stripping it again. */
module ReleaseNotes {
  import opened Collections

  datatype Notes = Notes(version: string, body: string)

  // ---------------------------------------------------------------- lines

  /** `strings.Split(s, "\n")` */
  function Lines(s: string): (r: seq<string>)
    ensures |r| > 0
    decreases |s|
  {
    var n := LineEnd(s);
    if n == |s| then [s] else [s[..n]] + Lines(s[n + 1..])
  }

  /** `strings.Join(ls, "\n")` */
  function Join(ls: seq<string>): string {
    if ls == [] then "" else if |ls| == 1 then ls[0] else ls[0] + "\n" + Join(ls[1..])
  }

  /** Lines, each with its newline. */
  function Text(ls: seq<string>): string {
    if ls == [] then "" else ls[0] + "\n" + Text(ls[1..])
  }

  predicate Commented(line: string) { line != "" && line[0] == '#' }

  function Uncommented(ls: seq<string>): (r: seq<string>)
    ensures forall l :: l in r <==> l in ls && !Commented(l)
  {
    if ls == [] then [] else (if Commented(ls[0]) then [] else [ls[0]]) + Uncommented(ls[1..])
  }

  // ---------------------------------------------------------------- trimming

  /** Go's `unicode.IsSpace`. */
  predicate IsSpace(c: char) {
    var x := c as int;
    || 0x09 <= x <= 0x0d || x == 0x20 || x == 0x85 || x == 0xa0 || x == 0x1680 || 0x2000 <= x <= 0x200a
    || x == 0x2028 || x == 0x2029 || x == 0x202f || x == 0x205f || x == 0x3000
  }

  lemma AsciiSpaces(c: char)
    requires c < 128 as char
    ensures IsSpace(c) <==> c in " \t\n\U{0b}\U{0c}\r"
  {
  }

  function TrimLeft(s: string): string {
    if s != "" && IsSpace(s[0]) then TrimLeft(s[1..]) else s
  }

  function TrimRight(s: string): string {
    if s != "" && IsSpace(s[|s| - 1]) then TrimRight(s[..|s| - 1]) else s
  }

  /** `strings.TrimSpace` */
  function TrimSpace(s: string): string { TrimRight(TrimLeft(s)) }

  // ---------------------------------------------------------------- the program

  const INTRO: seq<string> := [
    "#",
    "# Read the release notes below and write" + " up any highlights above.",
    "# Lines prefixed with a hash (#)" + " will be ignored in the output.",
    "# Don't include a title line." + (" This will be added when the email" + " is compiled."),
    "#",
    "# Empty highlights will not be" + " included in the email.",
    "# --------",
    "#"
  ]

  function Prefixed(ls: seq<string>): (r: seq<string>)
    ensures |r| == |ls| && forall i :: 0 <= i < |r| ==> r[i] == "# " + ls[i]
  {
    seq(|ls|, i requires 0 <= i < |ls| => "# " + ls[i])
  }

  /** What one release adds: the last line of its notes runs into the closing hash. */
  function Section(n: Notes): string {
    "# --------\n" + "# " + n.version + "\n" + Join(Prefixed(Lines(n.body))) + "#\n"
  }

  function Sections(notes: seq<Notes>): string {
    if notes == [] then "" else Section(notes[0]) + Sections(notes[1..])
  }

  /** The template: room for the user, an introduction, the buildpack's name, the releases. */
  function Template(intro: seq<string>, name: string, notes: seq<Notes>): string {
    "\n\n" + Text(intro) + "# " + name + "\n#\n" + Sections(notes)
  }

  /** The inner loop. */
  method PrefixLines(noteLines: seq<string>) returns (prefixedLines: seq<string>)
    ensures prefixedLines == Prefixed(noteLines)
  {
    prefixedLines := [];
    for j := 0 to |noteLines|
      invariant prefixedLines == Prefixed(noteLines[..j])
    {
      prefixedLines := prefixedLines + ["# " + noteLines[j]];
    }
  }

  lemma NextSection(notes: seq<Notes>, i: nat)
    requires i < |notes|
    ensures Sections(notes[i..]) == Section(notes[i]) + Sections(notes[i + 1..])
  {
    hide Section;
    assert notes[i..][1..] == notes[i + 1..];
  }

  lemma SectionInParts(text: string, n: Notes)
    ensures text + "# --------\n" + ("# " + n.version + "\n") + Join(Prefixed(Lines(n.body))) + "#\n" == text + Section(n)
  {
    hide Join, Lines;
  }

  method CommentifyReleaseNotes(name: string, notes: seq<Notes>) returns (text: string)
    ensures text == Template(INTRO, name, notes)
  {
    hide Section, Sections, Join, Lines, Text, INTRO;
    text := "\n\n" + Text(INTRO) + "# " + name + "\n#\n";
    ghost var head := text;
    assert notes[0..] == notes;
    for i := 0 to |notes|
      invariant text + Sections(notes[i..]) == head + Sections(notes)
    {
      ghost var before := text;
      NextSection(notes, i);
      SectionInParts(text, notes[i]);
      text := text + "# --------\n";
      text := text + ("# " + notes[i].version + "\n");
      var prefixedLines := PrefixLines(Lines(notes[i].body));
      text := text + Join(prefixedLines);
      text := text + "#\n";
      assert text + Sections(notes[i + 1..]) == before + (Section(notes[i]) + Sections(notes[i + 1..]));
    }
    NoSections();
    assert notes[|notes|..] == [] && text + "" == text;
  }

  lemma NoSections()
    ensures Sections([]) == ""
  {
  }

  function Stripped(input: string): string { TrimSpace(Join(Uncommented(Lines(input)))) }

  lemma UncommentedIs(ls: seq<string>)
    ensures Uncommented([]) == []
    ensures ls != [] ==> Uncommented(ls) == (if Commented(ls[0]) then [] else [ls[0]]) + Uncommented(ls[1..])
  {
  }

  lemma StrippedIs(input: string)
    ensures Stripped(input) == TrimSpace(Join(Uncommented(Lines(input))))
  {
  }

  method StripCommentedLines(input: string) returns (text: string)
    ensures text == Stripped(input)
  {
    hide *;
    var ls := Lines(input);
    var out: seq<string> := [];
    UncommentedIs(ls);
    StrippedIs(input);
    assert ls[0..] == ls && ls[|ls|..] == [];
    for i := 0 to |ls|
      invariant out + Uncommented(ls[i..]) == Uncommented(ls)
    {
      UncommentedIs(ls[i..]);
      assert ls[i..][1..] == ls[i + 1..];
      if !Commented(ls[i]) {
        out := out + [ls[i]];
      }
    }
    assert out + [] == out;
    text := TrimSpace(Join(out));
  }

  // ---------------------------------------------------------------- lines and text

  lemma {:induction false} LineEndIs(a: string, b: string)
    requires OneLine(a)
    ensures LineEnd(a + "\n" + b) == |a| && LineEnd(a) == |a|
  {
    if a != "" {
      assert (a + "\n" + b)[1..] == a[1..] + "\n" + b;
      LineEndIs(a[1..], b);
    }
  }

  lemma OneLineIs(s: string)
    requires OneLine(s)
    ensures Lines(s) == [s]
  {
    LineEndIs(s, "");
  }

  lemma FirstLine(h: string, t: string)
    requires OneLine(h)
    ensures Lines(h + "\n" + t) == [h] + Lines(t)
  {
    hide OneLine;
    LineEndIs(h, t);
    var s := h + "\n" + t;
    assert s[..|h|] == h && s[|h| + 1..] == t;
  }

  /** A newline ends the lines before it. */
  lemma {:induction false} LinesAppend(a: string, b: string)
    ensures Lines(a + "\n" + b) == Lines(a) + Lines(b)
    decreases |a|
  {
    hide Lines, OneLine, LineEnd;
    var n := LineEnd(a);
    if n == |a| {
      assert a[..n] == a;
      OneLineIs(a);
      FirstLine(a, b);
    } else {
      var h, t := a[..n], a[n + 1..];
      assert a == h + "\n" + t && a + "\n" + b == h + "\n" + (t + "\n" + b);
      FirstLine(h, t);
      FirstLine(h, t + "\n" + b);
      LinesAppend(t, b);
    }
  }

  ghost predicate Comments(ls: seq<string>) { forall i :: 0 <= i < |ls| ==> OneLine(ls[i]) && Commented(ls[i]) }

  lemma {:induction false} LinesOfText(ls: seq<string>)
    requires forall i :: 0 <= i < |ls| ==> OneLine(ls[i])
    ensures Lines(Text(ls)) == ls + [""]
    decreases |ls|
  {
    hide Lines, OneLine;
    if ls == [] {
      EmptyLine();
    } else {
      LinesOfText(ls[1..]);
      FirstLine(ls[0], Text(ls[1..]));
    }
  }

  lemma {:induction false} TextAppend(a: seq<string>, b: seq<string>)
    ensures Text(a + b) == Text(a) + Text(b)
  {
    if a == [] {
      assert a + b == b;
    } else {
      assert (a + b)[1..] == a[1..] + b;
      TextAppend(a[1..], b);
    }
  }

  lemma {:induction false} LinesAreLines(s: string)
    ensures forall i :: 0 <= i < |Lines(s)| ==> OneLine(Lines(s)[i])
    ensures Join(Lines(s)) == s
    decreases |s|
  {
    hide Lines, OneLine, LineEnd;
    var n := LineEnd(s);
    if n == |s| {
      assert s[..n] == s;
      OneLineIs(s);
    } else {
      var h, t := s[..n], s[n + 1..];
      assert s == h + "\n" + t;
      FirstLine(h, t);
      LinesAreLines(t);
      assert ([h] + Lines(t))[1..] == Lines(t);
    }
  }

  // ---------------------------------------------------------------- the template is comments

  /** The template's lines after the two empty ones. */
  function TemplateLines(intro: seq<string>, name: string, notes: seq<Notes>): seq<string> {
    intro + ["# " + name, "#"] + SectionLines(notes)
  }

  function SectionLines(notes: seq<Notes>): seq<string> {
    if notes == [] then []
    else ["# --------", "# " + notes[0].version] + Closed(Prefixed(Lines(notes[0].body))) + SectionLines(notes[1..])
  }

  /** The last line with the hash that runs into it. */
  function Closed(ls: seq<string>): (r: seq<string>)
    requires |ls| > 0
  {
    ls[|ls| - 1 := ls[|ls| - 1] + "#"]
  }

  lemma {:induction false} ClosedText(ls: seq<string>)
    requires |ls| > 0
    ensures Join(ls) + "#\n" == Text(Closed(ls))
  {
    if |ls| > 1 {
      ClosedText(ls[1..]);
      assert Closed(ls)[1..] == Closed(ls[1..]);
      assert ls[0] + "\n" + Join(ls[1..]) + "#\n" == ls[0] + "\n" + (Join(ls[1..]) + "#\n");
    } else {
      assert Closed(ls)[1..] == [];
      assert ls[0] + "#\n" == (ls[0] + "#") + "\n" + "";
    }
  }

  lemma SectionText(n: Notes)
    ensures Section(n) == Text(["# --------", "# " + n.version] + Closed(Prefixed(Lines(n.body))))
  {
    hide Text, Join, Lines, Closed;
    var body := Closed(Prefixed(Lines(n.body)));
    ClosedText(Prefixed(Lines(n.body)));
    TextAppend(["# --------", "# " + n.version], body);
    TwoLines("# --------", "# " + n.version);
    assert "# --------\n" + "# " + n.version + "\n" + Join(Prefixed(Lines(n.body))) + "#\n"
        == "# --------" + "\n" + ("# " + n.version) + "\n" + (Join(Prefixed(Lines(n.body))) + "#\n");
  }

  lemma TwoLines(a: string, b: string)
    ensures Text([a, b]) == a + "\n" + b + "\n"
  {
    assert [a, b][1..] == [b] && [b][1..] == [];
    assert Text([b]) == b + "\n" + Text([]);
    assert Text([a, b]) == a + "\n" + Text([b]);
    assert a + "\n" + (b + "\n" + "") == a + "\n" + b + "\n";
  }

  lemma {:induction false} SectionsText(notes: seq<Notes>)
    ensures Sections(notes) == Text(SectionLines(notes))
  {
    if notes != [] {
      hide Text, Section, Closed;
      SectionText(notes[0]);
      SectionsText(notes[1..]);
      TextAppend(["# --------", "# " + notes[0].version] + Closed(Prefixed(Lines(notes[0].body))), SectionLines(notes[1..]));
    }
  }

  lemma CommentsAppend(a: seq<string>, b: seq<string>)
    requires Comments(a) && Comments(b)
    ensures Comments(a + b)
  {
    hide OneLine, Commented;
  }

  lemma HashPrefixed(s: string)
    requires OneLine(s)
    ensures OneLine("# " + s) && Commented("# " + s)
  {
  }

  lemma BodyIsComments(body: string)
    ensures Comments(Closed(Prefixed(Lines(body))))
  {
    hide Lines, OneLine, Commented;
    LinesAreLines(body);
    var ls := Prefixed(Lines(body));
    forall i | 0 <= i < |ls| ensures OneLine(ls[i]) && Commented(ls[i]) && OneLine(ls[i] + "#") && Commented(ls[i] + "#") {
      HashPrefixed(Lines(body)[i]);
      HashAppended(ls[i]);
    }
  }

  lemma HashAppended(s: string)
    requires OneLine(s) && Commented(s)
    ensures OneLine(s + "#") && Commented(s + "#")
  {
  }

  lemma {:induction false} SectionLinesAreComments(notes: seq<Notes>)
    requires forall n :: n in notes ==> OneLine(n.version)
    ensures Comments(SectionLines(notes))
  {
    if notes != [] {
      hide OneLine, Commented, Closed, Lines;
      SectionLinesAreComments(notes[1..]);
      BodyIsComments(notes[0].body);
      HashPrefixed(notes[0].version);
      Ruler();
      CommentsAppend(["# --------", "# " + notes[0].version], Closed(Prefixed(Lines(notes[0].body))));
      CommentsAppend(["# --------", "# " + notes[0].version] + Closed(Prefixed(Lines(notes[0].body))), SectionLines(notes[1..]));
    }
  }

  lemma Ruler()
    ensures OneLine("# --------") && Commented("# --------") && OneLine("#") && Commented("#")
  {
  }

  lemma TemplateText(intro: seq<string>, name: string, notes: seq<Notes>)
    ensures Template(intro, name, notes) == "\n\n" + Text(TemplateLines(intro, name, notes))
  {
    hide Text, Sections, SectionLines;
    SectionsText(notes);
    TwoLines("# " + name, "#");
    TextAppend(intro, ["# " + name, "#"]);
    TextAppend(intro + ["# " + name, "#"], SectionLines(notes));
    var i := Text(intro);
    assert "\n\n" + i + "# " + name + "\n#\n" == "\n\n" + (i + ("# " + name + "\n" + "#" + "\n"));
  }

  lemma TemplateIsComments(intro: seq<string>, name: string, notes: seq<Notes>)
    requires Comments(intro) && OneLine(name) && forall n :: n in notes ==> OneLine(n.version)
    ensures Comments(TemplateLines(intro, name, notes))
  {
    hide OneLine, Commented, SectionLines;
    SectionLinesAreComments(notes);
    HashPrefixed(name);
    Ruler();
    CommentsAppend(intro, ["# " + name, "#"]);
    CommentsAppend(intro + ["# " + name, "#"], SectionLines(notes));
  }

  // ---------------------------------------------------------------- the round trip

  lemma {:induction false} UncommentedAppend(a: seq<string>, b: seq<string>)
    ensures Uncommented(a + b) == Uncommented(a) + Uncommented(b)
  {
    hide Commented;
    if a == [] {
      assert a + b == b;
    } else {
      assert (a + b)[1..] == a[1..] + b;
      UncommentedAppend(a[1..], b);
    }
  }

  lemma {:induction false} CommentsGo(ls: seq<string>)
    requires forall i :: 0 <= i < |ls| ==> Commented(ls[i])
    ensures Uncommented(ls) == []
  {
    if ls != [] {
      CommentsGo(ls[1..]);
    }
  }

  lemma {:induction false} JoinAppend(a: seq<string>, b: seq<string>)
    requires a != [] && b != []
    ensures Join(a + b) == Join(a) + "\n" + Join(b)
  {
    assert (a + b)[1..] == a[1..] + b;
    if |a| > 1 {
      JoinAppend(a[1..], b);
      assert a[0] + "\n" + (Join(a[1..]) + "\n" + Join(b)) == a[0] + "\n" + Join(a[1..]) + "\n" + Join(b);
    } else {
      assert a[1..] + b == b;
    }
  }

  lemma {:induction false} TrimLeftAppend(s: string)
    ensures TrimLeft(s) != "" ==> TrimLeft(s + "\n") == TrimLeft(s) + "\n"
    ensures TrimLeft(s) == "" ==> TrimLeft(s + "\n") == ""
  {
    if s == "" {
      assert (s + "\n")[1..] == "";
    } else if IsSpace(s[0]) {
      assert (s + "\n")[1..] == s[1..] + "\n";
      TrimLeftAppend(s[1..]);
    }
  }

  lemma TrimAppend(s: string)
    ensures TrimSpace(s + "\n") == TrimSpace(s)
  {
    TrimLeftAppend(s);
    var t := TrimLeft(s);
    if t != "" {
      assert (t + "\n")[..|t|] == t;
    }
  }

  /** Whatever the introduction says, as long as it is comments. */
  lemma CommentsStripAway(user: string, intro: seq<string>, name: string, notes: seq<Notes>)
    requires Comments(intro) && OneLine(name) && forall n :: n in notes ==> OneLine(n.version)
    ensures Stripped(user + Template(intro, name, notes)) == Stripped(user)
  {
    hide *;
    var ls := TemplateLines(intro, name, notes);
    TemplateText(intro, name, notes);
    TemplateIsComments(intro, name, notes);
    CommentLines(ls);
    LinesOfText(ls);
    CommentsGo(ls);
    assert user + ("\n\n" + Text(ls)) == user + "\n" + ("" + "\n" + Text(ls));
    LinesAppend(user, "" + "\n" + Text(ls));
    LinesAppend("", Text(ls));
    EmptyLine();
    UncommentedAppend(Lines(user), [""] + (ls + [""]));
    UncommentedAppend([""], ls + [""]);
    UncommentedAppend(ls, [""]);
    assert [""] + ([] + [""]) == ["", ""];
    StrippedIs(user);
    StrippedIs(user + Template(intro, name, notes));
    EmptyLinesTrim(Uncommented(Lines(user)));
  }

  lemma CommentAppend(a: string, b: string)
    requires OneLine(a) && Commented(a) && OneLine(b)
    ensures OneLine(a + b) && Commented(a + b)
  {
  }

  lemma IntroIsComments()
    ensures Comments(INTRO)
  {
    CommentAppend("# Read the release notes below and write", " up any highlights above.");
    CommentAppend("# Lines prefixed with a hash (#)", " will be ignored in the output.");
    OneLineAppend(" This will be added when the email", " is compiled.");
    CommentAppend("# Don't include a title line.", " This will be added when the email" + " is compiled.");
    CommentAppend("# Empty highlights will not be", " included in the email.");
    Ruler();
    hide OneLine, Commented;
  }

  lemma OneLineAppend(a: string, b: string)
    requires OneLine(a) && OneLine(b)
    ensures OneLine(a + b)
  {
  }

  /** What the user writes above the template comes back as if the template were not there. */
  lemma TemplateStripsAway(user: string, name: string, notes: seq<Notes>)
    requires OneLine(name) && forall n :: n in notes ==> OneLine(n.version)
    ensures Stripped(user + Template(INTRO, name, notes)) == Stripped(user)
  {
    hide *;
    IntroIsComments();
    CommentsStripAway(user, INTRO, name, notes);
  }

  lemma CommentLines(ls: seq<string>)
    requires Comments(ls)
    ensures forall i :: 0 <= i < |ls| ==> OneLine(ls[i])
    ensures forall i :: 0 <= i < |ls| ==> Commented(ls[i])
  {
  }

  lemma EmptyLine()
    ensures Lines("") == [""] && Uncommented([""]) == [""]
  {
  }

  lemma EmptyLinesTrim(ls: seq<string>)
    ensures TrimSpace(Join(ls + ["", ""])) == TrimSpace(Join(ls))
  {
    hide TrimSpace;
    if ls == [] {
      assert ls + ["", ""] == ["", ""] && ["", ""][1..] == [""];
      assert Join(["", ""]) == "" + "\n";
      TrimAppend("");
    } else {
      JoinAppend(ls, ["", ""]);
      assert ["", ""][1..] == [""];
      assert Join(ls) + "\n" + Join(["", ""]) == Join(ls) + "\n" + "\n";
      TrimAppend(Join(ls) + "\n");
      TrimAppend(Join(ls));
    }
  }

  // ---------------------------------------------------------------- what the user may write

  function Hashes(s: string): nat {
    if s == "" then 0 else (if s[0] == '#' then 1 else 0) + Hashes(s[1..])
  }

  lemma {:induction false} HashesAppend(a: string, b: string)
    ensures Hashes(a + b) == Hashes(a) + Hashes(b)
  {
    if a == "" {
      assert a + b == b;
    } else {
      assert (a + b)[1..] == a[1..] + b;
      HashesAppend(a[1..], b);
    }
  }

  lemma {:induction false} TrimLeftKeepsHashes(s: string)
    ensures Hashes(TrimLeft(s)) == Hashes(s)
  {
    if s != "" && IsSpace(s[0]) {
      TrimLeftKeepsHashes(s[1..]);
    }
  }

  lemma {:induction false} TrimRightKeepsHashes(s: string)
    ensures Hashes(TrimRight(s)) == Hashes(s)
  {
    if s != "" && IsSpace(s[|s| - 1]) {
      var i, c := s[..|s| - 1], s[|s| - 1];
      TrimRightKeepsHashes(i);
      assert s == i + [c];
      HashesAppend(i, [c]);
      assert [c][1..] == "";
    }
  }

  lemma {:induction false} JoinCons(l: string, ls: seq<string>)
    ensures Hashes(Join([l] + ls)) == Hashes(l) + Hashes(Join(ls))
  {
    assert ([l] + ls)[1..] == ls;
    if ls != [] {
      HashesAppend(l + "\n", Join(ls));
      HashesAppend(l, "\n");
      assert "\n"[1..] == "";
    }
  }

  lemma CommentHasHash(l: string)
    ensures Commented(l) ==> Hashes(l) > 0
  {
  }

  /** No line is a comment. */
  ghost predicate Plain(ls: seq<string>) { forall i :: 0 <= i < |ls| ==> !Commented(ls[i]) }

  lemma PlainCons(l: string, ls: seq<string>)
    ensures Plain([l] + ls) <==> !Commented(l) && Plain(ls)
    ensures Uncommented([l] + ls) == (if Commented(l) then Uncommented(ls) else [l] + Uncommented(ls))
  {
    hide Commented;
    var all := [l] + ls;
    assert all[0] == l && all[1..] == ls && forall i :: 0 <= i < |ls| ==> all[i + 1] == ls[i];
  }

  /** Dropping comments drops their hashes. */
  lemma {:induction false} FewerHashes(ls: seq<string>)
    ensures Hashes(Join(Uncommented(ls))) <= Hashes(Join(ls))
    ensures Hashes(Join(Uncommented(ls))) == Hashes(Join(ls)) <==> Plain(ls)
    ensures Plain(ls) ==> Uncommented(ls) == ls
  {
    if ls != [] {
      hide *;
      FewerHashes(ls[1..]);
      assert ls == [ls[0]] + ls[1..];
      CommentHasHash(ls[0]);
      PlainCons(ls[0], ls[1..]);
      JoinCons(ls[0], ls[1..]);
      JoinCons(ls[0], Uncommented(ls[1..]));
    }
  }

  /** The user's text survives, but for surrounding space, exactly when no line of it starts
      with a hash. */
  lemma TextSurvivesIff(user: string)
    ensures Stripped(user) == TrimSpace(user) <==> Plain(Lines(user))
  {
    hide Lines, Join, Uncommented, Plain, Hashes, TrimLeft, TrimRight;
    var kept := Join(Uncommented(Lines(user)));
    LinesAreLines(user);
    FewerHashes(Lines(user));
    TrimLeftKeepsHashes(user);
    TrimRightKeepsHashes(TrimLeft(user));
    TrimLeftKeepsHashes(kept);
    TrimRightKeepsHashes(TrimLeft(kept));
  }

  /** What trimming takes away is space at both ends, all of it. */
  lemma TrimSpaceIs(s: string) returns (before: string, after: string)
    ensures s == before + TrimSpace(s) + after
    ensures forall i :: 0 <= i < |before| ==> IsSpace(before[i])
    ensures forall i :: 0 <= i < |after| ==> IsSpace(after[i])
    ensures var t := TrimSpace(s); t != "" ==> !IsSpace(t[0]) && !IsSpace(t[|t| - 1])
  {
    hide IsSpace;
    before := LeftSpace(s);
    after := RightSpace(TrimLeft(s));
    assert s == before + (TrimSpace(s) + after);
    var t := TrimSpace(s);
    assert t != "" ==> t[0] == TrimLeft(s)[0];
  }

  lemma {:induction false} LeftSpace(s: string) returns (before: string)
    ensures s == before + TrimLeft(s) && forall i :: 0 <= i < |before| ==> IsSpace(before[i])
    ensures TrimLeft(s) != "" ==> !IsSpace(TrimLeft(s)[0])
  {
    hide IsSpace;
    before := "";
    if s != "" && IsSpace(s[0]) {
      before := LeftSpace(s[1..]);
      before := [s[0]] + before;
    }
  }

  lemma {:induction false} RightSpace(s: string) returns (after: string)
    ensures s == TrimRight(s) + after && forall i :: 0 <= i < |after| ==> IsSpace(after[i])
    ensures TrimRight(s) != "" ==> !IsSpace(TrimRight(s)[|TrimRight(s)| - 1])
  {
    hide IsSpace;
    after := "";
    if s != "" && IsSpace(s[|s| - 1]) {
      after := RightSpace(s[..|s| - 1]);
      after := after + [s[|s| - 1]];
    }
  }

  // ---------------------------------------------------------------- what the user reads

  /** The template's lines are room, comments, and the end of the last line. */
  lemma LinesOfTemplate(name: string, notes: seq<Notes>)
    requires OneLine(name) && forall n :: n in notes ==> OneLine(n.version)
    ensures Lines(Template(INTRO, name, notes)) == ["", ""] + TemplateLines(INTRO, name, notes) + [""]
  {
    hide *;
    var ls := TemplateLines(INTRO, name, notes);
    IntroIsComments();
    TemplateText(INTRO, name, notes);
    TemplateIsComments(INTRO, name, notes);
    CommentLines(ls);
    LinesOfText(ls);
    assert "\n\n" + Text(ls) == "" + "\n" + ("" + "\n" + Text(ls));
    LinesAppend("", "" + "\n" + Text(ls));
    LinesAppend("", Text(ls));
    EmptyLine();
    assert [""] + ([""] + (ls + [""])) == ["", ""] + ls + [""];
  }

  /** The `k`th line of some notes as the template shows it: the last one runs into the closing hash. */
  function Shown(body: string, k: nat): string
    requires k < |Lines(body)|
  {
    "# " + Lines(body)[k] + if k == |Lines(body)| - 1 then "#" else ""
  }

  lemma {:induction false} SectionsShow(notes: seq<Notes>, n: Notes, k: nat)
    requires n in notes && k < |Lines(n.body)|
    ensures "# " + n.version in SectionLines(notes) && Shown(n.body, k) in SectionLines(notes)
  {
    hide Lines;
    var body := Closed(Prefixed(Lines(notes[0].body)));
    var first := ["# --------", "# " + notes[0].version] + body;
    assert SectionLines(notes) == first + SectionLines(notes[1..]);
    if n == notes[0] {
      assert first[1] == "# " + n.version && first[1] in first;
      assert body[k] == Shown(n.body, k) && first[2 + k] == body[k] && body[k] in first;
    } else {
      SectionsShow(notes[1..], n, k);
    }
  }

  /** Every release's version and every line of its notes is in the template, commented out, and so
      is the buildpack's name. */
  lemma TemplateShowsNotes(name: string, notes: seq<Notes>, n: Notes, k: nat)
    requires OneLine(name) && forall n :: n in notes ==> OneLine(n.version)
    requires n in notes && k < |Lines(n.body)|
    ensures var ls := Lines(Template(INTRO, name, notes));
            "# " + name in ls && "# " + n.version in ls && Shown(n.body, k) in ls
  {
    hide Lines, Template, INTRO, SectionLines, Shown, OneLine;
    LinesOfTemplate(name, notes);
    SectionsShow(notes, n, k);
    var ls := TemplateLines(INTRO, name, notes);
    assert ls[|INTRO|] == "# " + name && ls[|INTRO|] in ls;
    forall l | l in SectionLines(notes) ensures l in ls {
    }
  }
}
