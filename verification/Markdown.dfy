/** render of assets/js/markdown.js:72-104. The inline rules are a parameter.

    A line is what lies between '\n's; it may hold a lone '\r', U+2028 or U+2029. */
module Markdown {
  import opened Prelude

  // ----- lines

  // replace(/\r\n/g, "\n")
  function Normalized(s: string): (t: string)
    ensures |t| <= |s|
  {
    if s == "" then ""
    else if |s| >= 2 && s[0] == '\r' && s[1] == '\n' then ['\n'] + Normalized(s[2..])
    else [s[0]] + Normalized(s[1..])
  }

  // split("\n")
  function Split(s: string): (lines: seq<string>)
    ensures lines != [] && Size(lines) == |s| + 1
  {
    if s == "" then [""]
    else
      var rest := Split(s[1..]);
      if s[0] == '\n' then [""] + rest else [[s[0]] + rest[0]] + rest[1..]
  }

  // The length of the lines, each with its end.
  function Size(lines: seq<string>): (n: nat)
    ensures n >= |lines|
  {
    if lines == [] then 0 else |lines[0]| + 1 + Size(lines[1..])
  }

  function Lines(md: string): (lines: seq<string>)
    ensures lines != [] && Size(lines) <= |md| + 1
  {
    Split(Normalized(md))
  }

  // join("\n") and join(" ")
  function Join(lines: seq<string>, separator: char): (s: string)
    ensures lines != [] ==> |s| + 1 == Size(lines)
  {
    if lines == [] then ""
    else if |lines| == 1 then lines[0]
    else lines[0] + [separator] + Join(lines[1..], separator)
  }

  // ----- the shapes of lines

  predicate IsTerminator(c: char) {
    c in {'\n', '\r', '\U{2028}', '\U{2029}'}
  }

  // ^\s*$
  predicate Blank(line: string) {
    TrimStart(line) == ""
  }

  function Hashes(line: string): (n: nat)
    ensures n <= |line|
    ensures n > 0 ==> line[0] == '#'
  {
    if line == "" || line[0] != '#' then 0 else 1 + Hashes(line[1..])
  }

  // ^(#{1,6})\s
  predicate HeadingStart(line: string) {
    var n := Hashes(line);
    1 <= n <= 6 && n < |line| && IsSpace(line[n])
  }

  function HeadingText(line: string): string {
    TrimStart(line[Hashes(line)..])
  }

  // ^(#{1,6})\s+(.*)$ where the dot stands for anything but a line terminator
  predicate Heading(line: string) {
    HeadingStart(line) && forall c :: c in HeadingText(line) ==> !IsTerminator(c)
  }

  // ^\s*>
  predicate Quote(line: string) {
    var t := TrimStart(line);
    t != "" && t[0] == '>'
  }

  function Unquoted(line: string): (t: string)
    requires Quote(line)
    ensures |t| < |line|
  {
    var t := TrimStart(line)[1..];
    if t != "" && IsSpace(t[0]) then t[1..] else t
  }

  // ^\s*[-*]\s+
  predicate Item(line: string) {
    var t := TrimStart(line);
    |t| >= 2 && t[0] in {'-', '*'} && IsSpace(t[1])
  }

  function ItemText(line: string): string
    requires Item(line)
  {
    TrimStart(TrimStart(line)[1..])
  }

  predicate Plain(line: string) {
    !Blank(line) && !HeadingStart(line) && !Quote(line) && !Item(line)
  }

  // A line that no branch takes: the paragraph loop stops at it, but it is no heading.
  predicate StuckHeading(line: string) {
    HeadingStart(line) && !Heading(line)
  }

  lemma TrimmedHash(line: string)
    requires Hashes(line) > 0
    ensures TrimStart(line) == line && !Blank(line) && !Quote(line) && !Item(line)
  {
  }

  // ----- one pass of the loop

  // The end of the run of lines at i that satisfy p.
  function Until(lines: seq<string>, i: nat, p: string -> bool): (j: nat)
    requires i <= |lines|
    ensures i <= j <= |lines|
    ensures forall k :: i <= k < j ==> p(lines[k])
    ensures j < |lines| ==> !p(lines[j])
    ensures j == i <==> i == |lines| || !p(lines[i])
    decreases |lines| - i
  {
    if i < |lines| && p(lines[i]) then Until(lines, i + 1, p) else i
  }

  function Next(lines: seq<string>, i: nat): (j: nat)
    requires i < |lines|
    ensures i <= j <= |lines|
  {
    if Blank(lines[i]) || Heading(lines[i]) then i + 1
    else if Quote(lines[i]) then Until(lines, i, Quote)
    else if Item(lines[i]) then Until(lines, i, Item)
    else Until(lines, i, Plain)
  }

  // A pass takes at least one line unless the line is a stuck heading, and then none.
  lemma PassAdvances(lines: seq<string>, i: nat)
    requires i < |lines|
    ensures Next(lines, i) == i <==> StuckHeading(lines[i])
  {
    hide Blank, Quote, Item, Hashes;
    if HeadingStart(lines[i]) { TrimmedHash(lines[i]); }
  }

  function Stripped(lines: seq<string>): (s: seq<string>)
    requires forall k :: 0 <= k < |lines| ==> Quote(lines[k])
    ensures |s| == |lines|
    ensures Size(s) + |lines| <= Size(lines)
  {
    if lines == [] then [] else [Unquoted(lines[0])] + Stripped(lines[1..])
  }

  lemma {:induction false} SizeSlice(lines: seq<string>, i: nat, j: nat)
    requires i <= j <= |lines|
    ensures Size(lines[i..j]) <= Size(lines)
  {
    if lines != [] {
      if j == 0 {
        assert lines[i..j] == [];
      } else if i == 0 {
        assert lines[..j][1..] == lines[1..][..j - 1];
        SizeSlice(lines[1..], 0, j - 1);
      } else {
        assert lines[i..j] == lines[1..][i - 1..j - 1];
        SizeSlice(lines[1..], i - 1, j - 1);
      }
    }
  }

  // The text inside the block quote that starts at i: strictly shorter.
  function QuoteText(lines: seq<string>, i: nat): (text: string)
    requires i < |lines| && Quote(lines[i])
    ensures |text| + 1 < Size(lines)
  {
    var j := Until(lines, i, Quote);
    SizeSlice(lines, i, j);
    Join(Stripped(lines[i..j]), '\n')
  }

  // ----- where rendering never ends

  predicate BlockStart(lines: seq<string>, k: nat)
    requires k < |lines|
  {
    Quote(lines[k]) && (k == 0 || !Quote(lines[k - 1]))
  }

  // Some line is a stuck heading, or a line of some quoted text is, at any depth.
  predicate Stuck(md: string)
    decreases |md|
  {
    var lines := Lines(md);
    || (exists k :: 0 <= k < |lines| && StuckHeading(lines[k]))
    || (exists k :: 0 <= k < |lines| && BlockStart(lines, k) && Stuck(QuoteText(lines, k)))
  }

  // ----- the text a pass adds

  type Inline = string -> string

  function Digit(n: nat): char
    requires n < 10
  {
    '0' + n as char
  }

  function HeadingHtml(inline: Inline, line: string): string
    requires Heading(line)
  {
    var l := [Digit(Hashes(line))];
    "<h" + l + ">" + inline(Trim(HeadingText(line))) + "</h" + l + ">"
  }

  function ItemsHtml(inline: Inline, lines: seq<string>): string
    requires forall k :: 0 <= k < |lines| ==> Item(lines[k])
  {
    if lines == [] then ""
    else
      var n := |lines| - 1;
      ItemsHtml(inline, lines[..n]) + "<li>" + inline(ItemText(lines[n])) + "</li>"
  }

  function AllTrimmed(lines: seq<string>): seq<string> {
    seq(|lines|, k requires 0 <= k < |lines| => Trim(lines[k]))
  }

  function QuoteHtml(inner: string): string {
    "<blockquote>" + inner + "</blockquote>"
  }

  predicate QuotePass(lines: seq<string>, i: nat)
    requires i < |lines|
  {
    Quote(lines[i]) && !Blank(lines[i]) && !Heading(lines[i])
  }

  // All passes but those of block quotes.
  function PassHtml(inline: Inline, lines: seq<string>, i: nat): string
    requires i < |lines| && !QuotePass(lines, i)
  {
    if Blank(lines[i]) then ""
    else if Heading(lines[i]) then HeadingHtml(inline, lines[i])
    else if Item(lines[i]) then "<ul>" + ItemsHtml(inline, lines[i..Next(lines, i)]) + "</ul>"
    else "<p>" + inline(Join(AllTrimmed(lines[i..Next(lines, i)]), ' ')) + "</p>"
  }

  // ----- running for a number of passes

  function Run(inline: Inline, md: string, passes: nat): Option<string>
    decreases passes, 1
  {
    RunFrom(inline, Lines(md), 0, passes)
  }

  // None when the loop has not ended by then. A quoted text is rendered within its pass.
  function RunFrom(inline: Inline, lines: seq<string>, i: nat, passes: nat): Option<string>
    requires i <= |lines|
    decreases passes, 0
  {
    if i == |lines| then Some("")
    else if passes == 0 then None
    else
      var rest := RunFrom(inline, lines, Next(lines, i), passes - 1);
      if QuotePass(lines, i) then
        var inner := Run(inline, QuoteText(lines, i), passes - 1);
        if inner.None? || rest.None? then None else Some(QuoteHtml(inner.value) + rest.value)
      else if rest.None? then None
      else Some(PassHtml(inline, lines, i) + rest.value)
  }

  ghost predicate Halts(inline: Inline, md: string) {
    exists passes: nat :: Run(inline, md, passes).Some?
  }

  // ----- a stuck line is reached and never left

  // Between the runs of quoted lines, not inside one.
  predicate Boundary(lines: seq<string>, i: nat)
    requires i <= |lines|
  {
    i == 0 || i == |lines| || !Quote(lines[i - 1]) || !Quote(lines[i])
  }

  predicate ObstacleAt(lines: seq<string>, k: nat)
    requires k < |lines|
  {
    StuckHeading(lines[k]) || (BlockStart(lines, k) && Stuck(QuoteText(lines, k)))
  }

  predicate ObstacleFrom(lines: seq<string>, i: nat) {
    exists k :: i <= k < |lines| && ObstacleAt(lines, k)
  }

  lemma StuckIsObstacle(md: string)
    ensures Stuck(md) <==> ObstacleFrom(Lines(md), 0)
  {
    hide StuckHeading, Lines, QuoteText;
    var lines := Lines(md);
    if Stuck(md) {
      if k :| 0 <= k < |lines| && StuckHeading(lines[k]) {
        assert ObstacleAt(lines, k);
      } else {
        var k :| 0 <= k < |lines| && BlockStart(lines, k) && Stuck(QuoteText(lines, k));
        assert ObstacleAt(lines, k);
      }
    }
  }

  lemma LineShapes(line: string)
    ensures Quote(line) ==> !Blank(line) && !HeadingStart(line) && !Item(line)
    ensures HeadingStart(line) ==> !Blank(line) && !Item(line)
    ensures Blank(line) ==> !Item(line)
    ensures Heading(line) ==> HeadingStart(line)
  {
    if HeadingStart(line) { TrimmedHash(line); }
  }

  // The lines a pass steps over after its first are no obstacles, and it ends at a boundary.
  lemma PassStepsOver(lines: seq<string>, i: nat)
    requires i < |lines| && Boundary(lines, i)
    ensures Boundary(lines, Next(lines, i))
    ensures forall k :: i < k < Next(lines, i) ==> !ObstacleAt(lines, k)
  {
    hide Blank, Heading, Quote, Item, HeadingStart, Stuck, QuoteText;
    var j := Next(lines, i);
    LineShapes(lines[i]);
    assert i < j ==> (Quote(lines[i]) <==> Quote(lines[j - 1])) by { if i < j { LineShapes(lines[j - 1]); } }
    forall k | i < k < j ensures !ObstacleAt(lines, k) {
      LineShapes(lines[k]);
      assert Quote(lines[i]) ==> Quote(lines[k - 1]);
    }
  }

  lemma PassKeepsObstacles(lines: seq<string>, i: nat)
    requires i < |lines| && Boundary(lines, i)
    ensures Boundary(lines, Next(lines, i)) && (QuotePass(lines, i) <==> Quote(lines[i]))
    ensures ObstacleFrom(lines, i) <==> ObstacleFrom(lines, Next(lines, i)) || ObstacleAt(lines, i)
    ensures ObstacleAt(lines, i) <==> StuckHeading(lines[i]) || (QuotePass(lines, i) && Stuck(QuoteText(lines, i)))
  {
    LineShapes(lines[i]);
    hide Blank, Heading, Quote, Item, HeadingStart, Stuck, QuoteText, Next;
    PassStepsOver(lines, i);
    var j := Next(lines, i);
    if ObstacleFrom(lines, i) {
      var k :| i <= k < |lines| && ObstacleAt(lines, k);
      assert k == i || k >= j;
    }
    if ObstacleFrom(lines, j) {
      var k :| j <= k < |lines| && ObstacleAt(lines, k);
    }
  }

  // However many passes it is given, rendering a stuck text has not ended.
  lemma {:induction false} NeverEnds(inline: Inline, md: string, passes: nat)
    requires Stuck(md)
    ensures Run(inline, md, passes).None?
    decreases passes, 1
  {
    hide Stuck, ObstacleFrom, RunFrom, Lines;
    StuckIsObstacle(md);
    NeverEndsFrom(inline, Lines(md), 0, passes);
  }

  lemma {:induction false} NeverEndsFrom(inline: Inline, lines: seq<string>, i: nat, passes: nat)
    requires i <= |lines| && Boundary(lines, i) && ObstacleFrom(lines, i)
    ensures RunFrom(inline, lines, i, passes).None?
    decreases passes, 0
  {
    hide Stuck, ObstacleAt, QuoteText, Next, Run, PassHtml, StuckHeading, QuotePass;
    if passes > 0 {
      PassKeepsObstacles(lines, i);
      if StuckHeading(lines[i]) {
        PassAdvances(lines, i);
        NeverEndsFrom(inline, lines, i, passes - 1);
      } else if ObstacleAt(lines, i) {
        NeverEnds(inline, QuoteText(lines, i), passes - 1);
      } else {
        NeverEndsFrom(inline, lines, Next(lines, i), passes - 1);
      }
    }
  }

  // ----- every other text is rendered

  // Given n passes or more, the rendering is html.
  ghost predicate SettlesBy(inline: Inline, md: string, html: string, n: nat) {
    forall passes: nat :: passes >= n ==> Run(inline, md, passes) == Some(html)
  }

  ghost predicate RestSettlesBy(inline: Inline, lines: seq<string>, i: nat, html: string, n: nat)
    requires i <= |lines|
  {
    forall passes: nat :: passes >= n ==> RunFrom(inline, lines, i, passes) == Some(html)
  }

  lemma RunStep(inline: Inline, lines: seq<string>, i: nat, passes: nat)
    requires i < |lines| && passes > 0
    ensures var (all, rest) := (RunFrom(inline, lines, i, passes), RunFrom(inline, lines, Next(lines, i), passes - 1));
      && (QuotePass(lines, i) ==>
            var inner := Run(inline, QuoteText(lines, i), passes - 1);
            inner.Some? && rest.Some? ==> all == Some(QuoteHtml(inner.value) + rest.value))
      && (!QuotePass(lines, i) && rest.Some? ==> all == Some(PassHtml(inline, lines, i) + rest.value))
  {
    hide PassHtml, QuoteHtml, Next, QuotePass, QuoteText, Run;
  }

  lemma PassSettles(inline: Inline, lines: seq<string>, i: nat, rest: string, n: nat)
    requires i < |lines| && !QuotePass(lines, i) && RestSettlesBy(inline, lines, Next(lines, i), rest, n)
    ensures RestSettlesBy(inline, lines, i, PassHtml(inline, lines, i) + rest, n + 1)
  {
    hide QuotePass, PassHtml, Next, RunFrom;
    forall passes: nat | passes >= n + 1
      ensures RunFrom(inline, lines, i, passes) == Some(PassHtml(inline, lines, i) + rest)
    {
      RunStep(inline, lines, i, passes);
    }
  }

  lemma QuoteSettles(inline: Inline, lines: seq<string>, i: nat, inner: string, l: nat, rest: string, n: nat)
    requires i < |lines| && QuotePass(lines, i) && RestSettlesBy(inline, lines, Next(lines, i), rest, n)
    requires SettlesBy(inline, QuoteText(lines, i), inner, l)
    ensures RestSettlesBy(inline, lines, i, QuoteHtml(inner) + rest, n + l + 1)
  {
    hide QuotePass, PassHtml, Next, Run, QuoteText, RunFrom, QuoteHtml;
    forall passes: nat | passes >= n + l + 1
      ensures RunFrom(inline, lines, i, passes) == Some(QuoteHtml(inner) + rest)
    {
      RunStep(inline, lines, i, passes);
    }
  }

  lemma {:induction false} EnoughPasses(inline: Inline, md: string) returns (html: string, n: nat)
    requires !Stuck(md)
    ensures SettlesBy(inline, md, html, n)
    decreases |md| + 1, |md| + 2
  {
    hide Stuck, ObstacleFrom, RunFrom, Lines;
    StuckIsObstacle(md);
    html, n := EnoughFrom(inline, Lines(md), 0);
    RunIs(inline, md, html, n);
  }

  lemma RunIs(inline: Inline, md: string, html: string, n: nat)
    ensures SettlesBy(inline, md, html, n) <==> RestSettlesBy(inline, Lines(md), 0, html, n)
  {
    hide RunFrom, Lines;
    assert forall passes :: Run(inline, md, passes) == RunFrom(inline, Lines(md), 0, passes);
  }

  lemma SettledOnce(inline: Inline, lines: seq<string>, i: nat, a: string, m: nat, b: string, n: nat)
    requires i <= |lines| && RestSettlesBy(inline, lines, i, a, m) && RestSettlesBy(inline, lines, i, b, n)
    ensures a == b && (i == |lines| ==> a == "")
  {
    assert RunFrom(inline, lines, i, m + n) == Some(a) == Some(b);
  }

  lemma {:induction false} EnoughFrom(inline: Inline, lines: seq<string>, i: nat) returns (html: string, n: nat)
    requires i <= |lines| && Boundary(lines, i) && !ObstacleFrom(lines, i)
    ensures RestSettlesBy(inline, lines, i, html, n)
    decreases Size(lines), |lines| - i
  {
    if i == |lines| {
      html, n := "", 0;
    } else {
      hide Stuck, ObstacleAt, QuoteText, Next, RestSettlesBy, SettlesBy, PassHtml, StuckHeading, QuotePass,
        ObstacleFrom;
      PassKeepsObstacles(lines, i);
      PassAdvances(lines, i);
      var rest, m := EnoughFrom(inline, lines, Next(lines, i));
      if QuotePass(lines, i) {
        var inner, l := EnoughPasses(inline, QuoteText(lines, i));
        QuoteSettles(inline, lines, i, inner, l, rest, m);
        html, n := QuoteHtml(inner) + rest, m + l + 1;
      } else {
        PassSettles(inline, lines, i, rest, m);
        html, n := PassHtml(inline, lines, i) + rest, m + 1;
      }
    }
  }

  // Rendering ends exactly when the text is not stuck.
  lemma HaltsIff(inline: Inline, md: string)
    ensures Halts(inline, md) <==> !Stuck(md)
  {
    hide Stuck, Run;
    if Stuck(md) {
      forall passes: nat ensures Run(inline, md, passes).None? { NeverEnds(inline, md, passes); }
    } else {
      var html, n := EnoughPasses(inline, md);
      assert Run(inline, md, n) == Some(html);
    }
  }

  // ----- texts whose only line terminator is the line feed

  predicate OnlyLineFeeds(s: string) {
    forall c :: c in s ==> c == '\n' || !IsTerminator(c)
  }

  lemma {:induction false} SplitKeeps(s: string)
    requires OnlyLineFeeds(s)
    ensures CleanLines(Split(s))
  {
    if s != "" {
      assert s == [s[0]] + s[1..];
      SplitKeeps(s[1..]);
      var rest := Split(s[1..]);
      assert rest[0] in rest;
      forall l, c | l in Split(s) && c in l ensures !IsTerminator(c) {
        if s[0] != '\n' && l == Split(s)[0] { assert c == s[0] || c in rest[0]; } else { assert l == "" || l in rest; }
      }
    }
  }

  lemma {:induction false} NormalizedKeeps(s: string)
    requires OnlyLineFeeds(s)
    ensures Normalized(s) == s
  {
    if s != "" {
      assert s == [s[0]] + s[1..];
      assert s[0] in s && s[0] != '\r' && forall c :: c in s[1..] ==> c in s;
      NormalizedKeeps(s[1..]);
    }
  }

  ghost predicate CleanLines(lines: seq<string>) {
    forall l, c :: l in lines && c in l ==> !IsTerminator(c)
  }

  lemma {:induction false} JoinKeeps(lines: seq<string>)
    requires CleanLines(lines)
    ensures OnlyLineFeeds(Join(lines, '\n'))
  {
    if |lines| > 1 {
      assert lines == [lines[0]] + lines[1..];
      JoinKeeps(lines[1..]);
    }
  }

  lemma {:induction false} TrimStartOf(s: string)
    ensures forall c :: c in TrimStart(s) ==> c in s
  {
    if s != "" && IsSpace(s[0]) { TrimStartOf(s[1..]); }
  }

  lemma {:induction false} StrippedKeeps(lines: seq<string>)
    requires CleanLines(lines) && forall k :: 0 <= k < |lines| ==> Quote(lines[k])
    ensures CleanLines(Stripped(lines))
  {
    hide Quote, IsTerminator;
    if lines != [] {
      assert lines == [lines[0]] + lines[1..];
      StrippedKeeps(lines[1..]);
      UnquotedOf(lines[0]);
    }
  }

  lemma UnquotedOf(line: string)
    requires Quote(line)
    ensures forall c :: c in Unquoted(line) ==> c in line
  {
    TrimStartOf(line);
    var t := TrimStart(line);
    assert forall c :: c in t[1..] ==> c in t;
    assert t[1..] != "" ==> forall c :: c in t[1..][1..] ==> c in t[1..];
  }

  lemma NotStuckLine(line: string)
    requires forall c :: c in line ==> !IsTerminator(c)
    ensures !StuckHeading(line)
  {
    hide IsTerminator;
    var n := Hashes(line);
    TrimStartOf(line[n..]);
    assert forall c :: c in line[n..] ==> c in line;
  }

  lemma CleanLine(lines: seq<string>, k: nat)
    requires k < |lines| && CleanLines(lines)
    ensures forall c :: c in lines[k] ==> !IsTerminator(c)
  {
  }

  lemma QuoteTextKeeps(lines: seq<string>, k: nat)
    requires k < |lines| && Quote(lines[k]) && CleanLines(lines)
    ensures OnlyLineFeeds(Normalized(QuoteText(lines, k)))
  {
    hide OnlyLineFeeds, Quote, IsTerminator;
    var block := lines[k..Until(lines, k, Quote)];
    assert CleanLines(block);
    StrippedKeeps(block);
    JoinKeeps(Stripped(block));
    NormalizedKeeps(QuoteText(lines, k));
  }

  // Once \r\n is \n, a text with no other line terminator is rendered to the end.
  lemma {:induction false} CleanTextsHalt(md: string)
    requires OnlyLineFeeds(Normalized(md))
    ensures !Stuck(md)
    decreases |md|
  {
    hide OnlyLineFeeds, CleanLines, StuckHeading, IsTerminator, Quote;
    var lines := Lines(md);
    SplitKeeps(Normalized(md));
    forall k | 0 <= k < |lines| ensures !StuckHeading(lines[k]) { CleanLine(lines, k); NotStuckLine(lines[k]); }
    forall k | 0 <= k < |lines| && BlockStart(lines, k) ensures !Stuck(QuoteText(lines, k)) {
      QuoteTextKeeps(lines, k);
      CleanTextsHalt(QuoteText(lines, k));
    }
  }

  // A heading with a lone carriage return, or another line terminator, in its text is never left.
  lemma StuckHeadings(title: string, c: char)
    requires title != "" && !IsSpace(title[0]) && '\n' !in title && c in title && IsTerminator(c)
    ensures Stuck("# " + title)
  {
    hide IsSpace, IsTerminator, Quote;
    assert IsSpace(' ') by { SpaceIsSpace(); }
    var line := "# " + title;
    NoLineFeed(line);
    OneLine(line);
    assert Lines(line)[0] == line;
    assert line[1..][0] == ' ' && line[1..][1..] == title;
    var t := line[1..];
    assert TrimStart(title) == title && TrimStart(t) == TrimStart(t[1..]);
    assert Hashes(t) == 0 && Hashes(line) == 1 && HeadingText(line) == title;
    assert StuckHeading(line);
  }

  lemma SpaceIsSpace()
    ensures IsSpace(' ')
  {
  }

  lemma {:induction false} NoLineFeed(s: string)
    requires '\n' !in s
    ensures Normalized(s) == s
  {
    if s != "" {
      assert s == [s[0]] + s[1..];
      NoLineFeed(s[1..]);
    }
  }

  lemma {:induction false} OneLine(s: string)
    requires '\n' !in s
    ensures Split(s) == [s]
  {
    if s != "" {
      assert s == [s[0]] + s[1..];
      OneLine(s[1..]);
    }
  }

  // ----- as it is written

  lemma {:induction false} StrippedGrows(lines: seq<string>, line: string)
    requires Quote(line) && forall k :: 0 <= k < |lines| ==> Quote(lines[k])
    ensures Stripped(lines + [line]) == Stripped(lines) + [Unquoted(line)]
  {
    hide Quote, Unquoted;
    if lines != [] {
      assert (lines + [line])[1..] == lines[1..] + [line];
      StrippedGrows(lines[1..], line);
    }
  }

  // The inner loop of a block quote.
  method TakeQuote(lines: seq<string>, start: nat) returns (text: string, i: nat)
    requires start < |lines| && Quote(lines[start])
    ensures i == Until(lines, start, Quote) && text == QuoteText(lines, start)
  {
    hide Quote, Unquoted;
    var block: seq<string> := [];
    i := start;
    ghost var end := Until(lines, start, Quote);
    while i < |lines| && Quote(lines[i])
      invariant start <= i <= end && Until(lines, i, Quote) == end
      invariant block == Stripped(lines[start..i])
    {
      assert lines[start..i + 1] == lines[start..i] + [lines[i]];
      StrippedGrows(lines[start..i], lines[i]);
      block := block + [Unquoted(lines[i])];
      i := i + 1;
    }
    text := Join(block, '\n');
  }

  method TakeItems(inline: Inline, lines: seq<string>, start: nat) returns (html: string, i: nat)
    requires start < |lines| && Item(lines[start])
    ensures i == Until(lines, start, Item) && html == "<ul>" + ItemsHtml(inline, lines[start..i]) + "</ul>"
  {
    hide Item;
    html := "<ul>";
    i := start;
    ghost var end := Until(lines, start, Item);
    while i < |lines| && Item(lines[i])
      invariant start <= i <= end && Until(lines, i, Item) == end
      invariant forall k :: start <= k < i ==> Item(lines[k])
      invariant html == "<ul>" + ItemsHtml(inline, lines[start..i])
    {
      assert lines[start..i + 1] == lines[start..i] + [lines[i]];
      assert lines[start..i + 1][..i - start] == lines[start..i];
      html := html + "<li>" + inline(ItemText(lines[i])) + "</li>";
      i := i + 1;
    }
    html := html + "</ul>";
  }

  method TakeParagraph(inline: Inline, lines: seq<string>, start: nat) returns (html: string, i: nat)
    requires start < |lines|
    ensures i == Until(lines, start, Plain)
    ensures html == "<p>" + inline(Join(AllTrimmed(lines[start..i]), ' ')) + "</p>"
  {
    hide Blank, HeadingStart, Quote, Item;
    var para: seq<string> := [];
    i := start;
    ghost var end := Until(lines, start, Plain);
    while i < |lines| && !Blank(lines[i]) && !HeadingStart(lines[i]) && !Quote(lines[i]) && !Item(lines[i])
      invariant start <= i <= end && Until(lines, i, Plain) == end
      invariant para == AllTrimmed(lines[start..i])
    {
      para := para + [Trim(lines[i])];
      i := i + 1;
    }
    html := "<p>" + inline(Join(para, ' ')) + "</p>";
  }

  // The body of the loop, but for the text so far; rest is what the later passes give.
  method Pass(inline: Inline, lines: seq<string>, i: nat, ghost rest: string, ghost m: nat)
    returns (piece: string, j: nat, ghost n: nat)
    requires i < |lines| && Boundary(lines, i) && !ObstacleFrom(lines, i)
    requires RestSettlesBy(inline, lines, Next(lines, i), rest, m)
    ensures j == Next(lines, i) && RestSettlesBy(inline, lines, i, piece + rest, n)
    decreases Size(lines), 0
  {
    hide Stuck, ObstacleAt, QuoteText, RestSettlesBy, SettlesBy, StuckHeading, ObstacleFrom, HeadingHtml, ItemsHtml,
      AllTrimmed, Boundary, Blank, Heading, Quote, Item, Until;
    PassKeepsObstacles(lines, i);
    if QuotePass(lines, i) {
      LineShapes(lines[i]);
      var text;
      text, j := TakeQuote(lines, i);
      var inner := Render(inline, text);
      ghost var l: nat :| SettlesBy(inline, text, inner, l);
      piece := "<blockquote>" + inner + "</blockquote>";
      QuoteSettles(inline, lines, i, inner, l, rest, m);
      n := m + l + 1;
    } else {
      var line := lines[i];
      PassSettles(inline, lines, i, rest, m);
      n := m + 1;
      if Blank(line) {
        piece, j := "", i + 1;
      } else if Heading(line) {
        piece, j := HeadingHtml(inline, line), i + 1;
      } else if Item(line) {
        piece, j := TakeItems(inline, lines, i);
      } else {
        piece, j := TakeParagraph(inline, lines, i);
      }
    }
  }

  // Terminates on every text that is not stuck, with the text that enough passes give.
  method Render(inline: Inline, md: string) returns (html: string)
    requires !Stuck(md)
    ensures exists n: nat :: SettlesBy(inline, md, html, n)
    decreases |md| + 1, |md| + 2
  {
    hide Stuck, ObstacleAt, Next, RestSettlesBy, SettlesBy, StuckHeading, ObstacleFrom, Boundary, Lines;
    var lines := Lines(md);
    StuckIsObstacle(md);
    assert Boundary(lines, 0) by { AtStart(lines); }
    html := "";
    var i := 0;
    ghost var whole, rest, m;
    ghost var n: nat;
    whole, n := EnoughFrom(inline, lines, 0);
    rest, m := whole, n;
    while i < |lines|
      invariant i <= |lines| && Boundary(lines, i) && !ObstacleFrom(lines, i)
      invariant RestSettlesBy(inline, lines, i, rest, m) && whole == html + rest
      decreases |lines| - i
    {
      PassKeepsObstacles(lines, i);
      PassAdvances(lines, i);
      ghost var rest', m' := EnoughFrom(inline, lines, Next(lines, i));
      var piece, j, l := Pass(inline, lines, i, rest', m');
      SettledOnce(inline, lines, i, rest, m, piece + rest', l);
      html := html + piece;
      i, rest, m := j, rest', m';
    }
    SettledOnce(inline, lines, i, rest, m, rest, m);
    assert html + "" == html;
    RunIs(inline, md, html, n);
  }

  lemma AtStart(lines: seq<string>)
    ensures Boundary(lines, 0)
  {
  }
}
