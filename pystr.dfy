/** Python's built-in `str` operations that the collectors and the HTML
    formatter rely on: `isspace`, `strip`, `strip(chars)`, `splitlines`,
    `split(sep)`, `split()[0]`, `replace` and `sep.join`. A Python `str` is a
    sequence of Unicode code points, which is what `string` is here. */
module PyStr {
  import opened Wrappers

  /** `c.isspace()`: the characters that `str.strip()` removes and at which
      `str.split()` without an argument cuts. */
  predicate IsSpace(c: char) {
    || ('\t' <= c <= '\r')
    || ('\U{1C}' <= c <= ' ')
    || c == '\U{85}' || c == '\U{A0}' || c == '\U{1680}'
    || ('\U{2000}' <= c <= '\U{200A}')
    || c == '\U{2028}' || c == '\U{2029}' || c == '\U{202F}' || c == '\U{205F}' || c == '\U{3000}'
  }

  predicate NotSpace(c: char) {
    !IsSpace(c)
  }

  /** The characters at which `str.splitlines()` ends a line
      (`\r\n` is one break, see BreakLength). */
  predicate IsLineBreak(c: char) {
    || ('\n' <= c <= '\r')
    || ('\U{1C}' <= c <= '\U{1E}')
    || c == '\U{85}' || c == '\U{2028}' || c == '\U{2029}'
  }

  predicate NotLineBreak(c: char) {
    !IsLineBreak(c)
  }

  predicate IsDoubleQuote(c: char) {
    c == '"'
  }

  /** The length of the longest prefix of `s` whose characters all satisfy `p`. */
  function PrefixCount(s: string, p: char -> bool): (n: nat)
    ensures n <= |s|
    ensures forall i :: 0 <= i < n ==> p(s[i])
    ensures n < |s| ==> !p(s[n])
  {
    if s != [] && p(s[0]) then 1 + PrefixCount(s[1..], p) else 0
  }

  /** A prefix of length n is the longest one when all its characters satisfy
      `p` and the next one, if any, does not. */
  lemma {:induction false} PrefixCountIs(s: string, p: char -> bool, n: nat)
    requires n <= |s|
    requires forall i :: 0 <= i < n ==> p(s[i])
    requires n < |s| ==> !p(s[n])
    ensures PrefixCount(s, p) == n
  {
    if n > 0 {
      PrefixCountIs(s[1..], p, n - 1);
    }
  }

  /** The length of the longest suffix of `s` whose characters all satisfy `p`. */
  function SuffixCount(s: string, p: char -> bool): (n: nat)
    ensures n <= |s|
    ensures forall i :: |s| - n <= i < |s| ==> p(s[i])
    ensures n < |s| ==> !p(s[|s| - 1 - n])
  {
    if s != [] && p(s[|s| - 1]) then 1 + SuffixCount(s[..|s| - 1], p) else 0
  }

  lemma {:induction false} SuffixCountIs(s: string, p: char -> bool, n: nat)
    requires n <= |s|
    requires forall i :: |s| - n <= i < |s| ==> p(s[i])
    requires n < |s| ==> !p(s[|s| - 1 - n])
    ensures SuffixCount(s, p) == n
  {
    if n > 0 {
      var t := s[..|s| - 1];
      assert forall i :: 0 <= i < |t| ==> t[i] == s[i];
      SuffixCountIs(t, p, n - 1);
    }
  }

  /** `s.strip(chars)` where `drop` says which characters are in `chars`: what
      is left after removing every leading and every trailing dropped character. */
  function Trim(s: string, drop: char -> bool): (t: string)
    ensures |t| <= |s|
    ensures t != [] ==> !drop(t[0]) && !drop(t[|t| - 1])
  {
    var i := PrefixCount(s, drop);
    if i == |s| then []
    else
      var j := SuffixCount(s, drop);
      assert !drop(s[i]) && i < |s| - j;
      s[i..|s| - j]
  }

  /** The trim is a slice of `s` whose ends are kept, and everything after it
      is dropped. */
  lemma TrimEnds(s: string, drop: char -> bool)
    ensures var r := Trim(s, drop);
      r == [] || (!drop(r[0]) && !drop(r[|r| - 1]))
    ensures var r, i := Trim(s, drop), PrefixCount(s, drop);
      && i + |r| <= |s| && r == s[i..i + |r|]
      && (forall k :: i + |r| <= k < |s| ==> drop(s[k]))
  {
    TrimIsSlice(s, drop);
  }

  lemma TrimIsSlice(s: string, drop: char -> bool)
    ensures var r, i := Trim(s, drop), PrefixCount(s, drop);
      && i + |r| <= |s| && r == s[i..i + |r|]
      && (forall k :: i + |r| <= k < |s| ==> drop(s[k]))
  {
    var i := PrefixCount(s, drop);
    if i < |s| {
      var j := SuffixCount(s, drop);
      assert !drop(s[i]);
      assert i < |s| - j;
    }
  }

  /** Trimming removes exactly the dropped run on each side of a core whose
      ends are kept. */
  lemma TrimOf(lead: string, core: string, trail: string, drop: char -> bool)
    requires forall i :: 0 <= i < |lead| ==> drop(lead[i])
    requires forall i :: 0 <= i < |trail| ==> drop(trail[i])
    requires core != [] && !drop(core[0]) && !drop(core[|core| - 1])
    ensures Trim(lead + core + trail, drop) == core
  {
    var s := lead + core + trail;
    assert s[|lead|] == core[0];
    PrefixCountIs(s, drop, |lead|);
    assert s[|s| - 1 - |trail|] == core[|core| - 1];
    SuffixCountIs(s, drop, |trail|);
    assert s[|lead|..|s| - |trail|] == core;
  }

  /** `s.strip()`. */
  function Strip(s: string): (r: string)
    ensures |r| <= |s|
    ensures r != [] ==> !IsSpace(r[0]) && !IsSpace(r[|r| - 1])
  {
    Trim(s, IsSpace)
  }

  /** A string whose ends are kept is its own trim; so trimming twice is
      trimming once. */
  lemma TrimIdempotent(s: string, drop: char -> bool)
    ensures Trim(Trim(s, drop), drop) == Trim(s, drop)
    ensures s == [] || (!drop(s[0]) && !drop(s[|s| - 1])) ==> Trim(s, drop) == s
  {
    TrimEnds(s, drop);
    var r := Trim(s, drop);
    if r != [] {
      assert PrefixCount(r, drop) == 0;
      assert SuffixCount(r, drop) == 0;
    }
    if s != [] && !drop(s[0]) && !drop(s[|s| - 1]) {
      assert PrefixCount(s, drop) == 0;
      assert SuffixCount(s, drop) == 0;
    }
  }

  /** The index of the first `c` in `s`, or |s| when there is none. */
  function IndexOf(s: string, c: char): (k: nat)
    ensures k <= |s|
    ensures c !in s[..k]
    ensures k < |s| ==> s[k] == c
  {
    if s == [] || s[0] == c then 0 else 1 + IndexOf(s[1..], c)
  }

  /** `sep.join(parts)`. */
  function Join(sep: string, parts: seq<string>): string {
    if parts == [] then []
    else if |parts| == 1 then parts[0]
    else parts[0] + sep + Join(sep, parts[1..])
  }

  /** `s.split(sep)` for a one-character separator: the pieces between the
      separators; never empty, and [""] for the empty string. */
  function SplitOn(s: string, sep: char): (parts: seq<string>)
    ensures |parts| >= 1
    ensures forall i :: 0 <= i < |parts| ==> sep !in parts[i]
    decreases |s|
  {
    var k := IndexOf(s, sep);
    if k == |s| then [s] else [s[..k]] + SplitOn(s[k + 1..], sep)
  }

  /** Joining the pieces of a split with the separator gives back the string. */
  lemma {:induction false} JoinSplitOn(s: string, sep: char)
    ensures Join([sep], SplitOn(s, sep)) == s
    decreases |s|
  {
    var k := IndexOf(s, sep);
    if k < |s| {
      var tail := SplitOn(s[k + 1..], sep);
      assert SplitOn(s, sep) == [s[..k]] + tail;
      assert Join([sep], [s[..k]] + tail) == s[..k] + [sep] + Join([sep], tail) by {
        assert ([s[..k]] + tail)[1..] == tail;
      }
      JoinSplitOn(s[k + 1..], sep);
      assert s == s[..k] + [sep] + s[k + 1..];
    }
  }

  /** Splitting a join whose pieces hold no separator gives back the pieces. */
  lemma {:induction false} SplitOnJoin(parts: seq<string>, sep: char)
    requires |parts| >= 1
    requires forall i :: 0 <= i < |parts| ==> sep !in parts[i]
    ensures SplitOn(Join([sep], parts), sep) == parts
  {
    var s := Join([sep], parts);
    if |parts| == 1 {
      assert s == parts[0];
    } else {
      var rest := Join([sep], parts[1..]);
      assert s == parts[0] + [sep] + rest;
      IndexOfAfterFree(parts[0], sep, rest);
      assert s[|parts[0]| + 1..] == rest;
      SplitOnJoin(parts[1..], sep);
      assert s[..|parts[0]|] == parts[0];
    }
  }

  lemma IndexOfAfterFree(a: string, sep: char, b: string)
    requires sep !in a
    ensures IndexOf(a + [sep] + b, sep) == |a|
  {
    var s := a + [sep] + b;
    assert s[..|a|] == a;
    assert s[|a|] == sep;
  }

  /** The index of the first line break in `s`, or |s| when there is none. */
  function LineBreakIndex(s: string): (k: nat)
    ensures k <= |s|
    ensures forall i :: 0 <= i < k ==> !IsLineBreak(s[i])
    ensures k < |s| ==> IsLineBreak(s[k])
  {
    PrefixCount(s, NotLineBreak)
  }

  /** The length of the line break that starts at `s[k]`: `\r\n` is one break. */
  function BreakLength(s: string, k: nat): (n: nat)
    requires k < |s|
    ensures 1 <= n <= 2 && k + n <= |s|
  {
    if s[k] == '\r' && k + 1 < |s| && s[k + 1] == '\n' then 2 else 1
  }

  /** `s.splitlines()`: the lines of `s` without their breaks; a final break
      does not start an empty line, and "" has no lines at all. */
  function SplitLines(s: string): (lines: seq<string>)
    ensures s == [] <==> lines == []
    ensures forall i, j :: 0 <= i < |lines| && 0 <= j < |lines[i]| ==> !IsLineBreak(lines[i][j])
    decreases |s|
  {
    if s == [] then []
    else
      var k := LineBreakIndex(s);
      if k == |s| then [s] else [s[..k]] + SplitLines(s[k + BreakLength(s, k)..])
  }

  /** A non-empty sequence is its head followed by its tail, whose last
      element is the sequence's. */
  lemma HeadTail<T>(s: seq<T>)
    requires s != []
    ensures [s[0]] + s[1..] == s
    ensures |s| > 1 ==> s[1..][|s| - 2] == s[|s| - 1]
  {
  }

  /** The two line ends that `splitlines()` reads as a single break and
      that text on POSIX and on Windows hosts uses. */
  predicate IsLineEnd(sep: string) {
    sep == "\n" || sep == "\r\n"
  }

  /** A break-free line followed by a line end is split off as the first
      line. */
  lemma SplitLinesCons(a: string, sep: string, rest: string)
    requires forall j :: 0 <= j < |a| ==> !IsLineBreak(a[j])
    requires IsLineEnd(sep)
    ensures SplitLines(a + sep + rest) == [a] + SplitLines(rest)
  {
    var s := a + sep + rest;
    assert forall j :: 0 <= j < |a| ==> s[j] == a[j];
    assert s[|a|] == sep[0];
    PrefixCountIs(s, NotLineBreak, |a|);
    assert BreakLength(s, |a|) == |sep| by {
      if sep == "\r\n" {
        assert s[|a| + 1] == '\n';
      }
    }
    assert s[..|a|] == a;
    assert s[|a| + |sep|..] == rest;
  }

  /** Lines without breaks, the last one non-empty, survive a join with
      "\n" or "\r\n" followed by `splitlines()`. */
  lemma {:induction false} SplitLinesJoin(sep: string, lines: seq<string>)
    requires IsLineEnd(sep)
    requires forall i, j :: 0 <= i < |lines| && 0 <= j < |lines[i]| ==> !IsLineBreak(lines[i][j])
    requires lines != [] ==> lines[|lines| - 1] != []
    ensures SplitLines(Join(sep, lines)) == lines
  {
    if lines == [] {
    } else if |lines| == 1 {
      var s := lines[0];
      assert forall i :: 0 <= i < |s| ==> !IsLineBreak(s[i]);
      PrefixCountIs(s, NotLineBreak, |s|);
    } else {
      var first, others := lines[0], lines[1..];
      HeadTail(lines);
      assert forall i :: 0 <= i < |others| ==> others[i] == lines[i + 1];
      assert forall j :: 0 <= j < |first| ==> !IsLineBreak(first[j]);
      SplitLinesJoin(sep, others);
      assert Join(sep, lines) == first + sep + Join(sep, others);
      SplitLinesCons(first, sep, Join(sep, others));
    }
  }

  lemma {:induction false} JoinEndsWithLast(sep: string, parts: seq<string>)
    requires parts != []
    ensures |Join(sep, parts)| >= |parts[|parts| - 1]|
  {
    if |parts| > 1 {
      JoinEndsWithLast(sep, parts[1..]);
    }
  }

  /** A stripped string with a "\n" inside has at least two lines. */
  lemma SplitLinesOfInnerBreak(s: string)
    requires s == Strip(s)
    requires '\n' in s
    ensures |SplitLines(s)| >= 2
  {
    TrimEnds(s, IsSpace);
    var k := LineBreakIndex(s);
    var p :| 0 <= p < |s| && s[p] == '\n';
    assert k <= p;
    assert IsSpace(s[k]);
    assert !IsSpace(s[|s| - 1]);
    var n := BreakLength(s, k);
    if n == 2 {
      assert IsSpace(s[k + 1]);
    }
    assert k + n < |s|;
    assert SplitLines(s[k + n..]) != [];
  }

  /** `line.split()[0]`: the first run of non-whitespace characters; None for a
      blank line, where Python raises IndexError. */
  function FirstToken(line: string): (t: Option<string>)
    ensures t.None? <==> forall i :: 0 <= i < |line| ==> IsSpace(line[i])
    ensures t.Some? ==>
      var i := PrefixCount(line, IsSpace);
      && t.value != []
      && i + |t.value| <= |line| && line[i..i + |t.value|] == t.value
      && (forall j :: 0 <= j < |t.value| ==> !IsSpace(t.value[j]))
      && (i + |t.value| == |line| || IsSpace(line[i + |t.value|]))
  {
    var i := PrefixCount(line, IsSpace);
    if i == |line| then None else Some(TokenFrom(line, i))
  }

  /** The run of non-space characters that starts at a non-space `line[i]`. */
  function TokenFrom(line: string, i: nat): (t: string)
    requires i < |line| && !IsSpace(line[i])
    ensures t != [] && i + |t| <= |line| && line[i..i + |t|] == t
    ensures forall j :: 0 <= j < |t| ==> !IsSpace(t[j])
    ensures i + |t| == |line| || IsSpace(line[i + |t|])
  {
    var rest := line[i..];
    var n := PrefixCount(rest, NotSpace);
    assert rest[0] == line[i];
    assert forall j :: 0 <= j < n ==> rest[..n][j] == rest[j];
    assert i + n < |line| ==> line[i + n] == rest[n];
    rest[..n]
  }

  /** The first field of a line is the run of non-space characters after
      its leading whitespace. */
  lemma FirstTokenOf(lead: string, token: string, rest: string)
    requires forall i :: 0 <= i < |lead| ==> IsSpace(lead[i])
    requires token != [] && forall i :: 0 <= i < |token| ==> !IsSpace(token[i])
    requires rest == [] || IsSpace(rest[0])
    ensures FirstToken(lead + token + rest) == Some(token)
  {
    var line := lead + token + rest;
    var after := token + rest;
    assert line == lead + after;
    assert line[|lead|] == after[0];
    PrefixCountIs(line, IsSpace, |lead|);
    assert line[|lead|..] == after;
    PrefixCountIs(after, NotSpace, |token|);
    assert after[..|token|] == token;
  }

  /** `s.replace(pat, rep)` for a non-empty `pat`: occurrences are found from
      the left, without overlapping, and each is replaced by `rep`. */
  function Replace(s: string, pat: string, rep: string): (r: string)
    requires pat != []
    ensures rep == pat ==> r == s
    ensures |pat| <= |rep| ==> |s| <= |r|
    decreases |s|
  {
    if |s| < |pat| then s
    else if s[..|pat|] == pat then
      assert s == s[..|pat|] + s[|pat|..];
      rep + Replace(s[|pat|..], pat, rep)
    else [s[0]] + Replace(s[1..], pat, rep)
  }

  /** A string that does not contain the first character of `pat` has no
      occurrence to replace. */
  lemma {:induction false} ReplaceAbsent(s: string, pat: string, rep: string)
    requires pat != [] && pat[0] !in s
    ensures Replace(s, pat, rep) == s
    decreases |s|
  {
    if |s| >= |pat| {
      assert s[..|pat|][0] == s[0];
      ReplaceAbsent(s[1..], pat, rep);
    }
  }

  /** A name that does not contain the first character of `pat`, followed by
      `pat`, keeps the name and has `pat` replaced: "sshd.service" with
      ".service" removed is "sshd". */
  lemma {:induction false} ReplaceSuffix(n: string, pat: string, rep: string)
    requires pat != [] && pat[0] !in n
    ensures Replace(n + pat, pat, rep) == n + rep
    decreases |n|
  {
    var s := n + pat;
    if n == [] {
      assert s == pat;
      assert s[|pat|..] == [];
    } else {
      var t := n[1..];
      assert Replace(s, pat, rep) == [n[0]] + Replace(t + pat, pat, rep) by {
        assert s[0] == n[0] != pat[0];
        assert s[..|pat|] != pat by {
          assert s[..|pat|][0] == s[0];
        }
        assert s[1..] == t + pat;
      }
      assert pat[0] !in t;
      ReplaceSuffix(t, pat, rep);
      assert [n[0]] + (t + rep) == n + rep by {
        assert [n[0]] + t == n;
      }
    }
  }

  /** Replacing a single character distributes over concatenation. */
  lemma {:induction false} ReplaceCharAppend(a: string, b: string, c: char, rep: string)
    ensures Replace(a + b, [c], rep) == Replace(a, [c], rep) + Replace(b, [c], rep)
    decreases |a|
  {
    if a == [] {
      assert a + b == b;
    } else {
      assert (a + b)[1..] == a[1..] + b;
      assert (a + b)[..1] == [a[0]];
      assert a[..1] == [a[0]];
      ReplaceCharAppend(a[1..], b, c, rep);
    }
  }
}
