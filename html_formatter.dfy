/** `to_html`: the lines of the report page built from a collection result,
    each datum passed through `html.escape`, and their "\n"-join. */
module Html {
  import opened PyStr
  import opened Results

  // ---------------------------------------------------------------------
  // html.escape

  /** What `html.escape` turns one character into. */
  function EscapeChar(c: char): (e: string)
    ensures 1 <= |e| <= 6
  {
    if c == '&' then "&amp;"
    else if c == '<' then "&lt;"
    else if c == '>' then "&gt;"
    else if c == '"' then "&quot;"
    else if c == '\'' then "&#x27;"
    else [c]
  }

  /** The characters that markup and attribute values give a meaning to. */
  predicate IsMarkup(c: char) {
    c == '<' || c == '>' || c == '"' || c == '\''
  }

  /** `html.escape(s)`: each character replaced by its escape. */
  function Escape(s: string): (r: string)
    ensures |s| <= |r| <= 6 * |s|
  {
    if s == [] then [] else EscapeChar(s[0]) + Escape(s[1..])
  }

  /** `html.escape(s)` as the standard library writes it: "&" first, then
      "<", ">", '"' and "'", each replaced over the whole string. */
  function EscapeByReplacing(s: string): (r: string)
    ensures |s| <= |r|
  {
    Replace(Replace(Replace(Replace(Replace(s, "&", "&amp;"), "<", "&lt;"), ">", "&gt;"), "\"", "&quot;"), "'", "&#x27;")
  }

  /** Replacing distributes over concatenation. */
  lemma ReplacingAppend(a: string, b: string)
    ensures EscapeByReplacing(a + b) == EscapeByReplacing(a) + EscapeByReplacing(b)
  {
    ReplaceCharAppend(a, b, '&', "&amp;");
    var a1, b1 := Replace(a, "&", "&amp;"), Replace(b, "&", "&amp;");
    ReplaceCharAppend(a1, b1, '<', "&lt;");
    var a2, b2 := Replace(a1, "<", "&lt;"), Replace(b1, "<", "&lt;");
    ReplaceCharAppend(a2, b2, '>', "&gt;");
    var a3, b3 := Replace(a2, ">", "&gt;"), Replace(b2, ">", "&gt;");
    ReplaceCharAppend(a3, b3, '"', "&quot;");
    var a4, b4 := Replace(a3, "\"", "&quot;"), Replace(b3, "\"", "&quot;");
    ReplaceCharAppend(a4, b4, '\'', "&#x27;");
  }

  /** A one-character string is replaced exactly when it is the pattern. */
  lemma ReplaceSingle(c: char, d: char, rep: string)
    ensures Replace([c], [d], rep) == if c == d then rep else [c]
  {
    assert [c][..1] == [c];
    assert [c][1..] == [];
  }

  /** The five replacements, applied to one character, give its escape: the
      character is replaced at its own step, earlier steps pass it through
      and later ones pass its escape through. */
  lemma ReplacingOneChar(c: char)
    ensures EscapeByReplacing([c]) == EscapeChar(c)
  {
    ReplaceSingle(c, '&', "&amp;");
    var s1 := Replace([c], "&", "&amp;");
    if c == '&' {
      ReplacingAfterAmp();
    } else {
      ReplaceSingle(c, '<', "&lt;");
      var s2 := Replace(s1, "<", "&lt;");
      if c == '<' {
        ReplacingAfterLt();
      } else {
        ReplaceSingle(c, '>', "&gt;");
        var s3 := Replace(s2, ">", "&gt;");
        if c == '>' {
          ReplacingAfterGt();
        } else {
          ReplaceSingle(c, '"', "&quot;");
          var s4 := Replace(s3, "\"", "&quot;");
          if c == '"' {
            ReplaceAbsent("&quot;", "'", "&#x27;");
          } else {
            ReplaceSingle(c, '\'', "&#x27;");
          }
        }
      }
    }
  }

  /** "&amp;" holds none of "<", ">", '"' and "'". */
  lemma ReplacingAfterAmp()
    ensures Replace(Replace(Replace(Replace("&amp;", "<", "&lt;"), ">", "&gt;"), "\"", "&quot;"), "'", "&#x27;") == "&amp;"
  {
    ReplaceAbsent("&amp;", "<", "&lt;");
    ReplaceAbsent("&amp;", ">", "&gt;");
    ReplaceAbsent("&amp;", "\"", "&quot;");
    ReplaceAbsent("&amp;", "'", "&#x27;");
  }

  /** "&lt;" holds none of ">", '"' and "'". */
  lemma ReplacingAfterLt()
    ensures Replace(Replace(Replace("&lt;", ">", "&gt;"), "\"", "&quot;"), "'", "&#x27;") == "&lt;"
  {
    ReplaceAbsent("&lt;", ">", "&gt;");
    ReplaceAbsent("&lt;", "\"", "&quot;");
    ReplaceAbsent("&lt;", "'", "&#x27;");
  }

  /** "&gt;" holds neither '"' nor "'". */
  lemma ReplacingAfterGt()
    ensures Replace(Replace("&gt;", "\"", "&quot;"), "'", "&#x27;") == "&gt;"
  {
    ReplaceAbsent("&gt;", "\"", "&quot;");
    ReplaceAbsent("&gt;", "'", "&#x27;");
  }

  /** So the sequential replacements escape each character on its own: no
      replacement text is itself replaced later, "&" being replaced first. */
  lemma {:induction false} ReplacingEscapes(s: string)
    ensures EscapeByReplacing(s) == Escape(s)
    decreases |s|
  {
    if s != [] {
      assert s == [s[0]] + s[1..];
      ReplacingAppend([s[0]], s[1..]);
      ReplacingOneChar(s[0]);
      ReplacingEscapes(s[1..]);
    }
  }

  /** An escaped string holds no markup character, ... */
  lemma {:induction false} EscapedHasNoMarkup(s: string)
    ensures forall i :: 0 <= i < |Escape(s)| ==> !IsMarkup(Escape(s)[i])
    decreases |s|
  {
    if s != [] {
      EscapedHasNoMarkup(s[1..]);
      var head := EscapeChar(s[0]);
      assert forall i :: 0 <= i < |head| ==> !IsMarkup(head[i]);
    }
  }

  /** A character a string does not hold is counted zero times. */
  lemma AbsentUncounted(b: char, e: string)
    requires b !in e
    ensures multiset(e)[b] == 0
  {
  }

  /** An escape holds a line break only when it is that character itself. */
  lemma EscapeCharBreaks(c: char, b: char)
    requires IsLineBreak(b)
    ensures multiset(EscapeChar(c))[b] == if c == b then 1 else 0
  {
    if c == '&' {
      assert b != '&' && b != 'a' && b != 'm' && b != 'p' && b != ';';
      AbsentUncounted(b, "&amp;");
    } else if c == '<' {
      assert b != '&' && b != 'l' && b != 't' && b != ';';
      AbsentUncounted(b, "&lt;");
    } else if c == '>' {
      assert b != '&' && b != 'g' && b != 't' && b != ';';
      AbsentUncounted(b, "&gt;");
    } else if c == '"' {
      assert b != '&' && b != 'q' && b != 'u' && b != 'o' && b != 't' && b != ';';
      AbsentUncounted(b, "&quot;");
    } else if c == '\'' {
      assert b != '&' && b != '#' && b != 'x' && b != '2' && b != '7' && b != ';';
      AbsentUncounted(b, "&#x27;");
    } else {
      assert EscapeChar(c) == [c];
      assert multiset([c]) == multiset{c};
    }
  }

  /** ... keeps every line break it had, as many times, and adds none, ... */
  lemma {:induction false} EscapeKeepsBreaks(s: string)
    ensures '\n' in Escape(s) <==> '\n' in s
    ensures forall b :: IsLineBreak(b) ==> multiset(Escape(s))[b] == multiset(s)[b]
    decreases |s|
  {
    if s != [] {
      EscapeKeepsBreaks(s[1..]);
      assert s == [s[0]] + s[1..];
      forall b | IsLineBreak(b)
        ensures multiset(Escape(s))[b] == multiset(s)[b]
      {
        EscapeCharBreaks(s[0], b);
      }
      assert IsLineBreak('\n');
      assert '\n' in Escape(s) <==> multiset(Escape(s))['\n'] > 0;
    }
  }

  /** ... and text without "&" or a markup character is left as it is. */
  lemma {:induction false} EscapePlain(s: string)
    requires forall i :: 0 <= i < |s| ==> s[i] != '&' && !IsMarkup(s[i])
    ensures Escape(s) == s
    decreases |s|
  {
    if s != [] {
      EscapePlain(s[1..]);
      assert s == [s[0]] + s[1..];
    }
  }

  // ---------------------------------------------------------------------
  // The lines of the page

  const StyleLines: seq<string> :=
    [ "<style>",
      "body {",
      "  background: linear-gradient(to bottom, #1e1e1e, #000000);",
      "  color: #eeeeee;",
      "  font-family: 'Segoe UI', sans-serif;",
      "  padding: 40px;",
      "  line-height: 1.6;",
      "  text-align: center;",
      "}",
      "h1 {",
      "  color: #00FF00;",
      "  margin-bottom: 20px;",
      "  text-align: center;",
      "}",
      ".content-box {",
      "  display: inline-block;",
      "  text-align: left;",
      "  background-color: #111;",
      "  padding: 20px 30px;",
      "  border-radius: 10px;",
      "  box-shadow: 0 0 10px #000;",
      "  max-width: max-content;",
      "  margin: auto;",
      "}",
      "ul { list-style-type: none; padding-left: 0; }",
      "li { margin-bottom: 10px; }",
      "li > ul {",
      "  margin-top: 5px;",
      "  padding-left: 20px;",
      "  border-left: 2px solid #333;",
      "}",
      "strong { color: #00FF00; }",
      "code {",
      "  background-color: #222;",
      "  padding: 2px 4px;",
      "  border-radius: 4px;",
      "  font-family: monospace;",
      "}",
      "</style>" ]

  function TitleLine(host: string): string {
    "<title>System Info: " + Escape(host) + "</title>"
  }

  function HeadingLine(host: string): string {
    "<h1>System Info: " + Escape(host) + "</h1>"
  }

  /** The lines before the first entry. */
  function HeaderLines(host: string): seq<string> {
    ["<html>", "<head>", TitleLine(host)] + StyleLines
    + ["</head>", "<body>", HeadingLine(host), "<div class='content-box'>", "<ul>"]
  }

  /** The lines after the last entry. */
  const FooterLines: seq<string> := ["</ul>", "</div>", "</body>", "</html>"]

  function KeyLine(key: string): string {
    "<li><strong>" + Escape(key) + "</strong>:"
  }

  function SubEntryLine(key: string, value: string): string {
    "<li><strong>" + Escape(key) + "</strong>: <code>" + Escape(value) + "</code></li>"
  }

  function ScalarLine(text: string): string {
    " <code>" + Escape(text) + "</code>"
  }

  const PreOpenLine: string :=
    "<pre style='background-color: #222;" + " padding: 10px; border-radius: 5px;" + " text-align: left;'>"

  /** One line per sub-entry of a dict value, in dict order. */
  function SubEntryLines(entries: seq<(string, string)>): (lines: seq<string>)
    ensures |lines| == |entries|
    ensures forall j :: 0 <= j < |entries| ==> lines[j] == SubEntryLine(entries[j].0, entries[j].1)
  {
    if entries == [] then []
    else SubEntryLines(entries[..|entries| - 1]) + [SubEntryLine(entries[|entries| - 1].0, entries[|entries| - 1].1)]
  }

  /** One escaped line per item of a list value, in list order. */
  function ItemLines(items: seq<string>): (lines: seq<string>)
    ensures |lines| == |items|
    ensures forall j :: 0 <= j < |items| ==> lines[j] == Escape(items[j])
  {
    if items == [] then [] else ItemLines(items[..|items| - 1]) + [Escape(items[|items| - 1])]
  }

  /** The lines between an entry's key line and its closing "</li>". */
  function ValueLines(v: Value): (lines: seq<string>)
    ensures lines != [] && (lines[0] == "<ul>" <==> v.StatusMap?)
  {
    match v
    case StatusMap(entries) => ["<ul>"] + SubEntryLines(entries) + ["</ul>"]
    case Lines(items) => [PreOpenLine] + ItemLines(items) + ["</pre>"]
    case Scalar(text) => [ScalarLine(text)]
  }

  /** The lines of one entry of the result. */
  function EntryLines(key: string, v: Value): (lines: seq<string>)
    ensures |lines| >= 3 && lines[0] == KeyLine(key) && lines[|lines| - 1] == "</li>"
  {
    [KeyLine(key)] + ValueLines(v) + ["</li>"]
  }

  /** The lines of each element, laid end to end in order. */
  function ConcatMap<T>(xs: seq<T>, f: T -> seq<string>): seq<string> {
    if xs == [] then [] else ConcatMap(xs[..|xs| - 1], f) + f(xs[|xs| - 1])
  }

  /** The lines of one item of the result. */
  function EntryOf(entry: (string, Value)): seq<string> {
    EntryLines(entry.0, entry.1)
  }

  /** The lines of the entries, in the result's order. */
  function EntriesLines(results: Info): seq<string> {
    ConcatMap(results, EntryOf)
  }

  /** `html_lines` once complete: it opens with "<html>" and "<head>", names
      the escaped host in its title and its heading, and closes with the
      footer. */
  function HtmlLines(results: Info, host: string): (lines: seq<string>)
    ensures |lines| == 51 + |EntriesLines(results)|
    ensures lines[0] == "<html>" && lines[1] == "<head>"
    ensures lines[2] == TitleLine(host) && lines[44] == HeadingLine(host)
    ensures lines[|lines| - 4..] == FooterLines
  {
    var header := HeaderLines(host);
    assert |StyleLines| == 39;
    assert |header| == 47 && header[44] == HeadingLine(host);
    header + EntriesLines(results) + FooterLines
  }

  // ---------------------------------------------------------------------
  // The builder

  /** `to_html(results, host)`, up to `html_content`: the header, each
      entry's lines appended in turn, the footer, joined with "\n". */
  method ToHtml(results: Info, host: string) returns (content: string)
    ensures content == Join("\n", HtmlLines(results, host))
  {
    var htmlLines := HeaderLines(host);
    htmlLines := AppendEntries(htmlLines, results);
    htmlLines := htmlLines + FooterLines;
    content := Join("\n", htmlLines);
  }

  /** The loop over `results.items()`. */
  method AppendEntries(start: seq<string>, results: Info) returns (htmlLines: seq<string>)
    ensures htmlLines == start + EntriesLines(results)
  {
    htmlLines := start;
    for i := 0 to |results|
      invariant htmlLines == start + EntriesLines(results[..i])
    {
      var (key, value) := results[i];
      htmlLines := AppendEntry(htmlLines, key, value);
      EntriesLinesStep(results, i);
      ConcatAssoc(start, EntriesLines(results[..i]), EntryLines(key, value));
    }
    assert results[..|results|] == results;
  }

  /** One more entry adds its lines after those of the entries before it. */
  lemma EntriesLinesStep(results: Info, i: nat)
    requires i < |results|
    ensures EntriesLines(results[..i + 1]) == EntriesLines(results[..i]) + EntryLines(results[i].0, results[i].1)
  {
    assert results[..i + 1][..i] == results[..i];
  }

  /** The body of the loop over `results.items()`: the key line, the value's
      lines and the closing "</li>". */
  method AppendEntry(start: seq<string>, key: string, value: Value) returns (htmlLines: seq<string>)
    ensures htmlLines == start + EntryLines(key, value)
  {
    htmlLines := AppendValue(start + [KeyLine(key)], value);
    htmlLines := htmlLines + ["</li>"];
  }

  /** The lines of an entry's value, as its type asks: a nested list for a
      dict, a `<pre>` block for a list, one `<code>` line otherwise. */
  method AppendValue(start: seq<string>, value: Value) returns (htmlLines: seq<string>)
    ensures htmlLines == start + ValueLines(value)
  {
    match value {
      case StatusMap(entries) =>
        htmlLines := AppendSubEntries(start + ["<ul>"], entries);
        htmlLines := htmlLines + ["</ul>"];
      case Lines(items) =>
        htmlLines := AppendItems(start + [PreOpenLine], items);
        htmlLines := htmlLines + ["</pre>"];
      case Scalar(text) =>
        htmlLines := start + [ScalarLine(text)];
    }
  }

  /** The loop over the items of a dict value. */
  method AppendSubEntries(start: seq<string>, entries: seq<(string, string)>) returns (htmlLines: seq<string>)
    ensures htmlLines == start + SubEntryLines(entries)
  {
    htmlLines := start;
    for j := 0 to |entries|
      invariant htmlLines == start + SubEntryLines(entries[..j])
    {
      htmlLines := htmlLines + [SubEntryLine(entries[j].0, entries[j].1)];
      assert entries[..j + 1][..j] == entries[..j];
    }
    assert entries[..|entries|] == entries;
  }

  /** The loop over the items of a list value. */
  method AppendItems(start: seq<string>, items: seq<string>) returns (htmlLines: seq<string>)
    ensures htmlLines == start + ItemLines(items)
  {
    htmlLines := start;
    for j := 0 to |items|
      invariant htmlLines == start + ItemLines(items[..j])
    {
      htmlLines := htmlLines + [Escape(items[j])];
      assert items[..j + 1][..j] == items[..j];
    }
    assert items[..|items|] == items;
  }

  // ---------------------------------------------------------------------
  // What the page holds

  /** Mapping a concatenation is concatenating the mapped parts. */
  lemma {:induction false} ConcatMapAppend<T>(a: seq<T>, b: seq<T>, f: T -> seq<string>)
    ensures ConcatMap(a + b, f) == ConcatMap(a, f) + ConcatMap(b, f)
    decreases |b|
  {
    if b == [] {
      assert a + b == a;
    } else {
      var c, front, last := a + b, b[..|b| - 1], b[|b| - 1];
      assert c[..|c| - 1] == a + front && c[|c| - 1] == last;
      ConcatMapAppend(a, front, f);
      ConcatAssoc(ConcatMap(a, f), ConcatMap(front, f), f(last));
    }
  }

  /** The entries' lines are each entry's lines in the result's order. */
  lemma EntriesLinesAppend(a: Info, b: Info)
    ensures EntriesLines(a + b) == EntriesLines(a) + EntriesLines(b)
  {
    ConcatMapAppend(a, b, EntryOf);
  }

  /** The lines of an entry sit between those of the entries before it and
      those after it. */
  lemma EntryBetween(a: Info, key: string, v: Value, b: Info)
    ensures EntriesLines(a + [(key, v)] + b) == EntriesLines(a) + EntryLines(key, v) + EntriesLines(b)
  {
    var front := a + [(key, v)];
    assert front[..|a|] == a;
    EntriesLinesAppend(front, b);
  }

  /** So the lines of entry i of a result sit after those of entries 0 to
      i - 1 and before those of the entries after it. */
  lemma EntryInPlace(results: Info, i: nat)
    requires i < |results|
    ensures EntriesLines(results)
         == EntriesLines(results[..i]) + EntryLines(results[i].0, results[i].1) + EntriesLines(results[i + 1..])
  {
    SliceAround(results, i);
    EntryBetween(results[..i], results[i].0, results[i].1, results[i + 1..]);
  }

  /** A dict value is "<ul>", one line per sub-entry with its key and value
      escaped, then "</ul>". */
  lemma DictValueShape(entries: seq<(string, string)>)
    ensures var lines := ValueLines(StatusMap(entries));
      && |lines| == |entries| + 2 && lines[0] == "<ul>" && lines[|lines| - 1] == "</ul>"
      && forall j :: 0 <= j < |entries| ==> lines[j + 1] == SubEntryLine(entries[j].0, entries[j].1)
  {
    var body := SubEntryLines(entries);
    var lines := ["<ul>"] + body + ["</ul>"];
    assert ValueLines(StatusMap(entries)) == lines;
    forall j | 0 <= j < |entries|
      ensures lines[j + 1] == SubEntryLine(entries[j].0, entries[j].1)
    {
      assert lines[j + 1] == body[j];
    }
  }

  /** A list value is the "<pre>" line, one escaped line per item, then
      "</pre>". */
  lemma ListValueShape(items: seq<string>)
    ensures var lines := ValueLines(Lines(items));
      && |lines| == |items| + 2 && lines[0] == PreOpenLine && lines[|lines| - 1] == "</pre>"
      && forall j :: 0 <= j < |items| ==> lines[j + 1] == Escape(items[j])
  {
    var body := ItemLines(items);
    var lines := [PreOpenLine] + body + ["</pre>"];
    assert ValueLines(Lines(items)) == lines;
    forall j | 0 <= j < |items|
      ensures lines[j + 1] == Escape(items[j])
    {
      assert lines[j + 1] == body[j];
    }
  }

  /** Any other value is the one line " <code>" + escaped text + "</code>". */
  lemma ScalarValueShape(text: string)
    ensures ValueLines(Scalar(text)) == [" <code>" + Escape(text) + "</code>"]
  {
  }

  /** No line that carries a list item holds a markup character, so an item
      cannot open or close a tag. */
  lemma ItemLinesInert(items: seq<string>, j: nat)
    requires j < |items|
    ensures forall k :: 0 <= k < |ItemLines(items)[j]| ==> !IsMarkup(ItemLines(items)[j][k])
  {
    EscapedHasNoMarkup(items[j]);
  }

  /** When no key, value, item or host holds a line break, splitting the
      page at "\n" gives back its lines. */
  lemma ContentSplits(results: Info, host: string, content: string)
    requires content == Join("\n", HtmlLines(results, host))
    requires forall i :: 0 <= i < |HtmlLines(results, host)| ==> '\n' !in HtmlLines(results, host)[i]
    ensures SplitOn(content, '\n') == HtmlLines(results, host)
  {
    SplitOnJoin(HtmlLines(results, host), '\n');
  }
}
