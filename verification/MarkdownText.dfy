/** What render of assets/js/markdown.js:72-104 makes of a text, told by the text that goes in: each
    kind of block alone, a quotation of any text, and any two texts with an empty line between. */
module MarkdownText {
  import opened Prelude
  import opened Markdown

  // ----- more passes change nothing

  lemma {:induction false} MorePasses(inline: Inline, md: string, p: nat, q: nat)
    requires p <= q && Run(inline, md, p).Some?
    ensures Run(inline, md, q) == Run(inline, md, p)
    decreases p, 1
  {
    hide RunFrom, Lines;
    MorePassesFrom(inline, Lines(md), 0, p, q);
  }

  lemma {:induction false} MorePassesFrom(inline: Inline, lines: seq<string>, i: nat, p: nat, q: nat)
    requires i <= |lines| && p <= q && RunFrom(inline, lines, i, p).Some?
    ensures RunFrom(inline, lines, i, q) == RunFrom(inline, lines, i, p)
    decreases p, 0
  {
    hide PassHtml, QuotePass, Next, QuoteText, Run;
    if i < |lines| {
      MorePassesFrom(inline, lines, Next(lines, i), p - 1, q - 1);
      if QuotePass(lines, i) {
        QuoteIfPass(lines, i);
        MorePasses(inline, QuoteText(lines, i), p - 1, q - 1);
      }
    }
  }

  lemma QuoteIfPass(lines: seq<string>, i: nat)
    requires i < |lines| && QuotePass(lines, i)
    ensures Quote(lines[i])
  {
    hide Quote;
  }

  lemma Settles(inline: Inline, md: string, p: nat)
    requires Run(inline, md, p).Some?
    ensures SettlesBy(inline, md, Run(inline, md, p).value, p)
  {
    forall q: nat | q >= p ensures Run(inline, md, q) == Run(inline, md, p) { MorePasses(inline, md, p, q); }
  }

  // ----- two texts with an empty line between

  // x, an empty line, and y.
  function Apart(x: seq<string>, y: seq<string>): seq<string> {
    x + [""] + y
  }

  lemma EmptyLine()
    ensures Blank("") && !Heading("") && !Quote("") && !Item("") && !Plain("")
  {
  }

  // A run of lines that ends before or at an empty line does not look past it.
  lemma {:induction false} UntilApart(x: seq<string>, y: seq<string>, i: nat, p: string -> bool)
    requires i <= |x| && !p("")
    ensures Until(Apart(x, y), i, p) == Until(x, i, p)
    decreases |x| - i
  {
    var z := Apart(x, y);
    assert z[|x|] == "" && forall k :: 0 <= k < |x| ==> z[k] == x[k];
    hide Apart;
    if i < |x| && p(x[i]) { UntilApart(x, y, i + 1, p); }
  }

  lemma PassApart(inline: Inline, x: seq<string>, y: seq<string>, i: nat)
    requires i < |x|
    ensures var z := Apart(x, y);
      && Next(z, i) == Next(x, i) && (QuotePass(z, i) <==> QuotePass(x, i))
      && (QuotePass(x, i) ==> QuoteText(z, i) == QuoteText(x, i))
      && (!QuotePass(x, i) ==> PassHtml(inline, z, i) == PassHtml(inline, x, i))
  {
    var z := Apart(x, y);
    assert z[i] == x[i];
    EmptyLine();
    UntilApart(x, y, i, Quote); UntilApart(x, y, i, Item); UntilApart(x, y, i, Plain);
    assert forall j :: i <= j <= |x| ==> z[i..j] == x[i..j];
    hide Blank, Heading, Quote, Item, Plain, Apart, HeadingHtml, ItemsHtml, AllTrimmed, Until;
  }

  // Rendering the first text within both.
  lemma {:induction false} FirstApart(
    inline: Inline, x: seq<string>, y: seq<string>, i: nat, m: nat, b: string, n: nat)
    requires i <= |x| && RunFrom(inline, x, i, m).Some?
    requires RestSettlesBy(inline, Apart(x, y), |x|, b, n)
    ensures RestSettlesBy(inline, Apart(x, y), i, RunFrom(inline, x, i, m).value + b, m + n)
    decreases m
  {
    hide PassHtml, QuotePass, Next, QuoteText, Run, Apart, RestSettlesBy, SettlesBy;
    assert |x| <= |Apart(x, y)| by { ApartSize(x, y); }
    if i == |x| {
      assert "" + b == b;
      LaterSettles(inline, Apart(x, y), i, b, n, m + n);
    } else {
      var z := Apart(x, y);
      PassApart(inline, x, y, i);
      var rest := RunFrom(inline, x, Next(x, i), m - 1).value;
      FirstApart(inline, x, y, Next(x, i), m - 1, b, n);
      if QuotePass(x, i) {
        QuoteIfPass(x, i);
        var inner := Run(inline, QuoteText(x, i), m - 1).value;
        Settles(inline, QuoteText(x, i), m - 1);
        QuoteWithin(inline, z, i, inner, m - 1, rest + b, m - 1 + n);
        assert QuoteHtml(inner) + (rest + b) == QuoteHtml(inner) + rest + b;
      } else {
        PassSettles(inline, z, i, rest + b, m - 1 + n);
        assert PassHtml(inline, x, i) + (rest + b) == PassHtml(inline, x, i) + rest + b;
      }
    }
  }

  lemma ApartSize(x: seq<string>, y: seq<string>)
    ensures |Apart(x, y)| == |x| + 1 + |y|
  {
  }

  lemma LaterSettles(inline: Inline, lines: seq<string>, i: nat, html: string, m: nat, n: nat)
    requires i <= |lines| && m <= n && RestSettlesBy(inline, lines, i, html, m)
    ensures RestSettlesBy(inline, lines, i, html, n)
  {
  }

  // A quotation whose text and rest are rendered by the same number of passes.
  lemma QuoteWithin(inline: Inline, lines: seq<string>, i: nat, inner: string, l: nat, rest: string, n: nat)
    requires i < |lines| && QuotePass(lines, i) && l <= n
    requires SettlesBy(inline, QuoteText(lines, i), inner, l) && RestSettlesBy(inline, lines, Next(lines, i), rest, n)
    ensures RestSettlesBy(inline, lines, i, QuoteHtml(inner) + rest, n + 1)
  {
    hide QuotePass, PassHtml, Next, Run, QuoteText, RunFrom, QuoteHtml;
    forall passes: nat | passes >= n + 1
      ensures RunFrom(inline, lines, i, passes) == Some(QuoteHtml(inner) + rest)
    {
      RunStep(inline, lines, i, passes);
    }
  }

  // The second text behind the empty line.
  lemma {:induction false} SecondApart(inline: Inline, x: seq<string>, y: seq<string>, j: nat, n: nat)
    requires j <= |y| && RunFrom(inline, y, j, n).Some?
    ensures |x| + 1 + j <= |Apart(x, y)|
    ensures RunFrom(inline, Apart(x, y), |x| + 1 + j, n) == RunFrom(inline, y, j, n)
    decreases n
  {
    hide PassHtml, QuotePass, Next, QuoteText, Run, Apart;
    ApartSize(x, y);
    if j < |y| {
      PassShifted(inline, x, y, j);
      SecondApart(inline, x, y, Next(y, j), n - 1);
    }
  }

  lemma ShiftedSlice(x: seq<string>, y: seq<string>, j: nat, k: nat)
    requires j <= k <= |y|
    ensures |x| + 1 + k <= |Apart(x, y)| && Apart(x, y)[|x| + 1 + j..|x| + 1 + k] == y[j..k]
    ensures j < |y| ==> Apart(x, y)[|x| + 1 + j] == y[j]
  {
  }

  lemma NextShifted(x: seq<string>, y: seq<string>, j: nat)
    requires j < |y|
    ensures var (z, i) := (Apart(x, y), |x| + 1 + j);
      i < |z| && z[i] == y[j] && Next(z, i) == |x| + 1 + Next(y, j) && z[i..Next(z, i)] == y[j..Next(y, j)]
  {
    hide Blank, Heading, Quote, Item, Plain, Until, Apart;
    ShiftedSlice(x, y, j, |y|);
    UntilShifted(x, y, j, Quote); UntilShifted(x, y, j, Item); UntilShifted(x, y, j, Plain);
    ShiftedSlice(x, y, j, Next(y, j));
  }

  lemma QuoteShifted(x: seq<string>, y: seq<string>, j: nat)
    requires j < |y| && Quote(y[j])
    ensures var (z, i) := (Apart(x, y), |x| + 1 + j);
      i < |z| && z[i] == y[j] && QuoteText(z, i) == QuoteText(y, j)
  {
    hide Quote, Until, Apart;
    ShiftedSlice(x, y, j, |y|);
    UntilShifted(x, y, j, Quote);
    ShiftedSlice(x, y, j, Until(y, j, Quote));
  }

  lemma PassShifted(inline: Inline, x: seq<string>, y: seq<string>, j: nat)
    requires j < |y|
    ensures var (z, i) := (Apart(x, y), |x| + 1 + j);
      && i < |z| && Next(z, i) == |x| + 1 + Next(y, j) && (QuotePass(z, i) <==> QuotePass(y, j))
      && (QuotePass(y, j) ==> QuoteText(z, i) == QuoteText(y, j))
      && (!QuotePass(y, j) ==> PassHtml(inline, z, i) == PassHtml(inline, y, j))
  {
    hide Blank, Heading, Quote, Item, Apart, HeadingHtml, ItemsHtml, AllTrimmed, Next, QuoteText;
    NextShifted(x, y, j);
    if QuotePass(y, j) { QuoteShifted(x, y, j); }
  }

  lemma {:induction false} UntilShifted(x: seq<string>, y: seq<string>, j: nat, p: string -> bool)
    requires j <= |y|
    ensures Until(Apart(x, y), |x| + 1 + j, p) == |x| + 1 + Until(y, j, p)
    decreases |y| - j
  {
    assert forall k :: 0 <= k < |y| ==> Apart(x, y)[|x| + 1 + k] == y[k];
    if j < |y| && p(y[j]) { UntilShifted(x, y, j + 1, p); }
  }

  /** Line lists with an empty line between render as the two texts, one behind the other. */
  lemma LinesApart(inline: Inline, x: seq<string>, y: seq<string>, m: nat, n: nat)
    requires RunFrom(inline, x, 0, m).Some? && RunFrom(inline, y, 0, n).Some?
    ensures RestSettlesBy(inline, Apart(x, y), 0,
                          RunFrom(inline, x, 0, m).value + RunFrom(inline, y, 0, n).value, m + n + 1)
  {
    hide RunFrom, Apart;
    var (z, b) := (Apart(x, y), RunFrom(inline, y, 0, n).value);
    ApartSize(x, y);
    SecondApart(inline, x, y, 0, n);
    SettlesFrom(inline, z, |x| + 1, n);
    BlankSettles(inline, x, y, b, n);
    FirstApart(inline, x, y, 0, m, b, n + 1);
  }

  lemma SettlesFrom(inline: Inline, lines: seq<string>, i: nat, p: nat)
    requires i <= |lines| && RunFrom(inline, lines, i, p).Some?
    ensures RestSettlesBy(inline, lines, i, RunFrom(inline, lines, i, p).value, p)
  {
    hide RunFrom;
    forall q: nat | q >= p ensures RunFrom(inline, lines, i, q) == RunFrom(inline, lines, i, p) {
      MorePassesFrom(inline, lines, i, p, q);
    }
  }

  lemma BlankSettles(inline: Inline, x: seq<string>, y: seq<string>, b: string, n: nat)
    requires |x| + 1 <= |Apart(x, y)| && RestSettlesBy(inline, Apart(x, y), |x| + 1, b, n)
    ensures RestSettlesBy(inline, Apart(x, y), |x|, b, n + 1)
  {
    hide RestSettlesBy;
    EmptyLine();
    var z := Apart(x, y);
    assert z[|x|] == "" && Next(z, |x|) == |x| + 1 && !QuotePass(z, |x|) && PassHtml(inline, z, |x|) == "";
    PassSettles(inline, z, |x|, b, n);
    assert "" + b == b;
  }

  // ----- the same about texts

  lemma {:induction false} NormalizedAppend(a: string, b: string)
    requires a == "" || a[|a| - 1] != '\r' || b == "" || b[0] != '\n'
    ensures Normalized(a + b) == Normalized(a) + Normalized(b)
    decreases |a|
  {
    if a == "" {
      assert a + b == b;
    } else if |a| >= 2 && a[0] == '\r' && a[1] == '\n' {
      assert (a + b)[2..] == a[2..] + b;
      NormalizedAppend(a[2..], b);
    } else {
      assert (a + b)[1..] == a[1..] + b && (a + b)[0] == a[0];
      NormalizedAppend(a[1..], b);
    }
  }

  lemma {:induction false} SplitAppend(a: string, b: string)
    ensures Split(a + "\n" + b) == Split(a) + Split(b)
    decreases |a|
  {
    var s := a + "\n" + b;
    if a == "" {
      assert s[0] == '\n' && s[1..] == b;
      assert Split(s) == [""] + Split(b);
    } else {
      assert s[1..] == a[1..] + "\n" + b && s[0] == a[0];
      SplitAppend(a[1..], b);
      var (x, y) := (Split(a[1..]), Split(b));
      assert (x + y)[0] == x[0] && (x + y)[1..] == x[1..] + y;
    }
  }

  lemma LinesAppend(a: string, b: string)
    requires a == "" || a[|a| - 1] != '\r'
    ensures Lines(a + "\n\n" + b) == Apart(Lines(a), Lines(b))
  {
    hide Split, Normalized;
    NormalizedAppend(a + "\n\n", b);
    NormalizedAppend(a, "\n\n");
    TwoFeeds();
    var (x, y) := (Normalized(a), Normalized(b));
    assert x + "\n\n" + y == x + "\n" + ("" + "\n" + y);
    SplitAppend(x, "" + "\n" + y);
    SplitAppend("", y);
  }

  lemma TwoFeeds()
    ensures Normalized("\n\n") == "\n\n" && Split("") == [""]
  {
    assert "\n\n"[1..] == "\n" && "\n"[1..] == "";
  }

  /** Two texts with an empty line between render as the one, then the other. */
  lemma TextsApart(inline: Inline, a: string, b: string, m: nat, n: nat)
    requires Run(inline, a, m).Some? && Run(inline, b, n).Some? && (a == "" || a[|a| - 1] != '\r')
    ensures SettlesBy(inline, a + "\n\n" + b, Run(inline, a, m).value + Run(inline, b, n).value, m + n + 1)
  {
    hide Lines, RunFrom, Apart;
    LinesAppend(a, b);
    LinesApart(inline, Lines(a), Lines(b), m, n);
    RunIs(inline, a + "\n\n" + b, Run(inline, a, m).value + Run(inline, b, n).value, m + n + 1);
  }

  // ----- a quotation

  function Quoted(lines: seq<string>): (q: seq<string>)
    ensures |q| == |lines|
  {
    seq(|lines|, k requires 0 <= k < |lines| => "> " + lines[k])
  }

  lemma QuotedLine(line: string)
    ensures Quote("> " + line) && Unquoted("> " + line) == line
    ensures !Blank("> " + line) && !Heading("> " + line)
  {
    var q := "> " + line;
    assert TrimStart(q) == q && q[1..][0] == ' ' && q[1..][1..] == line;
  }

  lemma {:induction false} AllQuoted(q: seq<string>, i: nat)
    requires i <= |q| && forall k :: 0 <= k < |q| ==> Quote(q[k])
    ensures Until(q, i, Quote) == |q|
    decreases |q| - i
  {
    hide Quote;
    if i < |q| { AllQuoted(q, i + 1); }
  }

  lemma {:induction false} StrippedQuoted(lines: seq<string>)
    requires forall k :: 0 <= k < |lines| ==> Quote(Quoted(lines)[k])
    ensures Stripped(Quoted(lines)) == lines
  {
    hide Quote, Unquoted;
    if lines != [] {
      QuotedLine(lines[0]);
      assert Quoted(lines)[1..] == Quoted(lines[1..]);
      StrippedQuoted(lines[1..]);
      assert lines == [lines[0]] + lines[1..];
    }
  }

  /** Lines that each begin with "> " render as the quotation of what the rest of them renders as,
      at any depth. */
  lemma QuotationRenders(inline: Inline, lines: seq<string>, html: string, n: nat)
    requires lines != [] && SettlesBy(inline, Join(lines, '\n'), html, n)
    ensures RestSettlesBy(inline, Quoted(lines), 0, "<blockquote>" + html + "</blockquote>", n + 1)
  {
    hide SettlesBy, RestSettlesBy, Quote, Unquoted, Blank, Heading;
    var q := Quoted(lines);
    forall k | 0 <= k < |q| ensures Quote(q[k]) && !Blank(q[k]) && !Heading(q[k]) { QuotedLine(lines[k]); }
    AllQuoted(q, 0);
    StrippedQuoted(lines);
    assert q[0..|q|] == q && QuoteText(q, 0) == Join(lines, '\n') && Next(q, 0) == |q|;
    EndSettles(inline, q, n);
    QuoteWithin(inline, q, 0, html, n, "", n);
    assert QuoteHtml(html) + "" == "<blockquote>" + html + "</blockquote>";
  }

  lemma EndSettles(inline: Inline, lines: seq<string>, n: nat)
    ensures RestSettlesBy(inline, lines, |lines|, "", n)
  {
  }

  // One pass takes everything.
  lemma OnePass(inline: Inline, lines: seq<string>)
    requires lines != [] && !QuotePass(lines, 0) && Next(lines, 0) == |lines|
    ensures RestSettlesBy(inline, lines, 0, PassHtml(inline, lines, 0), 1)
  {
    hide QuotePass, Next, PassHtml, RestSettlesBy;
    EndSettles(inline, lines, 0);
    PassSettles(inline, lines, 0, "", 0);
    assert PassHtml(inline, lines, 0) + "" == PassHtml(inline, lines, 0);
  }

  // ----- a heading

  function Marks(level: nat): (s: string)
    ensures |s| == level && forall k :: 0 <= k < level ==> s[k] == '#'
  {
    seq(level, _ => '#')
  }

  lemma {:induction false} MarksCount(level: nat, title: string)
    ensures Hashes(Marks(level) + " " + title) == level
  {
    var s := Marks(level) + " " + title;
    if level > 0 {
      assert s[1..] == Marks(level - 1) + " " + title;
      MarksCount(level - 1, title);
    } else {
      assert s[0] == ' ';
    }
  }

  // No terminator in it, and no space at either end.
  predicate Title(title: string) {
    && title != "" && !IsSpace(title[0]) && !IsSpace(title[|title| - 1])
    && forall c :: c in title ==> !IsTerminator(c)
  }

  lemma HeadingIs(level: nat, title: string)
    requires 1 <= level <= 6 && Title(title)
    ensures var line := Marks(level) + " " + title;
      Heading(line) && !Blank(line) && !Quote(line) && Hashes(line) == level && HeadingText(line) == title
  {
    hide IsTerminator;
    var line := Marks(level) + " " + title;
    MarksCount(level, title);
    SpaceIsSpace();
    assert line[level] == ' ' && line[level..] == " " + title && (" " + title)[1..] == title;
    TrimmedTitle(title);
    TrimmedHash(line);
    hide IsSpace;
    assert TrimStart(" " + title) == TrimStart(title);
  }

  lemma TrimmedTitle(title: string)
    requires Title(title)
    ensures TrimStart(title) == title && Trim(title) == title
  {
  }

  /** One to six marks, a space and a title render as the heading of that level. */
  lemma HeadingRenders(inline: Inline, level: nat, title: string)
    requires 1 <= level <= 6 && Title(title)
    ensures var l := ["123456"[level - 1]];
      RestSettlesBy(inline, [Marks(level) + " " + title], 0, "<h" + l + ">" + inline(title) + "</h" + l + ">", 1)
  {
    HeadingIs(level, title);
    TrimmedTitle(title);
    hide Title, Heading, Blank, Quote, Hashes, HeadingText, Trim;
    var lines := [Marks(level) + " " + title];
    assert level == 1 || level == 2 || level == 3 || level == 4 || level == 5 || level == 6;
    assert Digit(level) == "123456"[level - 1];
    OnePass(inline, lines);
  }

  // ----- a list

  function Bulleted(mark: char, items: seq<string>): (s: seq<string>)
    ensures |s| == |items|
  {
    seq(|items|, k requires 0 <= k < |items| => [mark, ' '] + items[k])
  }

  function ListItems(inline: Inline, items: seq<string>): string {
    if items == [] then "" else "<li>" + inline(items[0]) + "</li>" + ListItems(inline, items[1..])
  }

  lemma {:induction false} ListItemsAppend(inline: Inline, items: seq<string>, item: string)
    ensures ListItems(inline, items + [item]) == ListItems(inline, items) + ("<li>" + inline(item) + "</li>")
  {
    if items == [] {
      assert [] + [item] == [item] && [item][1..] == [];
    } else {
      assert (items + [item])[1..] == items[1..] + [item] && (items + [item])[0] == items[0];
      ListItemsAppend(inline, items[1..], item);
    }
  }

  lemma BulletIs(mark: char, item: string)
    requires (mark == '-' || mark == '*') && (item == "" || !IsSpace(item[0]))
    ensures var line := [mark, ' '] + item;
      Item(line) && ItemText(line) == item && !Blank(line) && !Heading(line) && !Quote(line)
  {
    var line := [mark, ' '] + item;
    assert TrimStart(line) == line && line[1..][0] == ' ' && line[1..][1..] == item;
    assert TrimStart(line[1..]) == TrimStart(item) == item;
  }

  lemma {:induction false} AllItems(s: seq<string>, i: nat)
    requires i <= |s| && forall k :: 0 <= k < |s| ==> Item(s[k])
    ensures Until(s, i, Item) == |s|
    decreases |s| - i
  {
    hide Item;
    if i < |s| { AllItems(s, i + 1); }
  }

  lemma {:induction false} ItemsHtmlIs(inline: Inline, s: seq<string>, items: seq<string>)
    requires |s| == |items| && forall k :: 0 <= k < |s| ==> Item(s[k]) && ItemText(s[k]) == items[k]
    ensures ItemsHtml(inline, s) == ListItems(inline, items)
  {
    hide Item, ItemText, ListItems;
    var n := |s| - 1;
    if s != [] {
      ItemsHtmlIs(inline, s[..n], items[..n]);
      ListItemsAppend(inline, items[..n], items[n]);
      assert items == items[..n] + [items[n]];
      var (a, b) := (ListItems(inline, items[..n]), inline(items[n]));
      assert a + "<li>" + b + "</li>" == a + ("<li>" + b + "</li>");
    } else {
      NoItems(inline);
    }
  }

  lemma NoItems(inline: Inline)
    ensures ListItems(inline, []) == ""
  {
  }

  /** Lines of one bullet render as the list of their items, in order. */
  lemma ListRenders(inline: Inline, mark: char, items: seq<string>)
    requires (mark == '-' || mark == '*') && items != []
    requires forall k :: 0 <= k < |items| ==> items[k] == "" || !IsSpace(items[k][0])
    ensures RestSettlesBy(inline, Bulleted(mark, items), 0, "<ul>" + ListItems(inline, items) + "</ul>", 1)
  {
    hide Item, ItemText, Heading, Blank, Quote, IsSpace, ListItems;
    var s := Bulleted(mark, items);
    forall k | 0 <= k < |s|
      ensures Item(s[k]) && ItemText(s[k]) == items[k] && !Blank(s[k]) && !Heading(s[k]) && !Quote(s[k])
    {
      BulletIs(mark, items[k]);
    }
    AllItems(s, 0);
    ItemsHtmlIs(inline, s, items);
    assert s[0..|s|] == s;
    OnePass(inline, s);
  }

  // ----- a paragraph

  lemma {:induction false} AllPlain(s: seq<string>, i: nat)
    requires i <= |s| && forall k :: 0 <= k < |s| ==> Plain(s[k])
    ensures Until(s, i, Plain) == |s|
    decreases |s| - i
  {
    hide Plain;
    if i < |s| { AllPlain(s, i + 1); }
  }

  // The words of the lines, with a space between.
  function Spaced(lines: seq<string>): string {
    if lines == [] then "" else if |lines| == 1 then Trim(lines[0]) else Trim(lines[0]) + " " + Spaced(lines[1..])
  }

  lemma {:induction false} JoinIsSpaced(lines: seq<string>)
    ensures Join(AllTrimmed(lines), ' ') == Spaced(lines)
  {
    hide Trim;
    if |lines| > 1 {
      assert AllTrimmed(lines)[1..] == AllTrimmed(lines[1..]);
      JoinIsSpaced(lines[1..]);
    }
  }

  // A line that begins with none of the marks.
  lemma PlainIf(line: string)
    requires line != "" && !IsSpace(line[0]) && line[0] !in {'#', '>', '-', '*'}
    ensures Plain(line)
  {
  }

  /** Lines of plain text render as one paragraph of them, trimmed and joined by spaces. */
  lemma ParagraphRenders(inline: Inline, lines: seq<string>)
    requires lines != [] && forall k :: 0 <= k < |lines| ==> Plain(lines[k])
    ensures RestSettlesBy(inline, lines, 0, "<p>" + inline(Spaced(lines)) + "</p>", 1)
  {
    assert !Blank(lines[0]) && !HeadingStart(lines[0]) && !Heading(lines[0]) && !Quote(lines[0]) && !Item(lines[0]);
    hide Plain, Blank, HeadingStart, Heading, Quote, Item, Spaced;
    AllPlain(lines, 0);
    JoinIsSpaced(lines);
    assert lines[0..|lines|] == lines;
    OnePass(inline, lines);
  }
}
