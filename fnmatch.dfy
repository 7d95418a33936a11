/** Python's `fnmatch` module as the collectors use it: `fnmatch.filter(names,
    pattern)` on a POSIX client, where neither names nor patterns are case-folded.
    A pattern is first translated into a small regular expression, exactly as
    CPython's `fnmatch.translate` does, and that expression must match the whole
    name (`re.match` on `(?s:...)\Z`, so `*` and `?` also match a newline). */
module Fnmatch {
  import opened PyStr

  /** One element of the regular expression that `fnmatch.translate` produces. */
  datatype Atom =
    | AnyRun                                   // `*`: any run of characters
    | AnyChar                                  // `?`, or a class that allows every character
    | Lit(c: char)                             // an ordinary character, matched exactly
    | Class(negated: bool, chunks: seq<string>) // `[...]`: see InClass
    | Never                                    // a class that allows no character at all

  /** The index of the `]` that closes a class whose body starts at `pat[i]`, or
      |pat| when it is unclosed: a leading `!` and a `]` right after the `[` (or
      after the `!`) belong to the body. */
  function ClassEnd(pat: string, i: nat): (j: nat)
    requires i <= |pat|
    ensures i <= j <= |pat|
    ensures j < |pat| ==> pat[j] == ']' && i < j
  {
    var j0 := if i < |pat| && pat[i] == '!' then i + 1 else i;
    var j1 := if j0 < |pat| && pat[j0] == ']' then j0 + 1 else j0;
    j1 + IndexOf(pat[j1..], ']')
  }

  /** The pieces into which `translate` cuts a class body `b` at the hyphens
      that form ranges: the search for a hyphen starts at `k` and, after a
      range, two characters past its hyphen; a hyphen at the very end of the
      body is a literal and is appended to the last piece. */
  function RangeChunks(b: string, i: nat, k: nat): (cs: seq<string>)
    requires i < |b| && i < k
    ensures ChunkShape(cs)
    ensures k >= i + 2 ==> |cs| == 1 || |cs[0]| >= 2
    decreases |b| - i
  {
    var h := if k < |b| then k + IndexOf(b[k..], '-') else |b|;
    if h == |b| then [b[i..]]
    else if h + 1 == |b| then [b[i..h] + "-"]
    else [b[i..h]] + RangeChunks(b, h + 1, h + 3)
  }

  /** What RangeChunks guarantees: no piece is empty, and every piece between
      two range hyphens has at least two characters. */
  ghost predicate ChunkShape(cs: seq<string>) {
    && |cs| >= 1
    && (forall k :: 0 <= k < |cs| ==> cs[k] != [])
    && (forall k :: 1 <= k < |cs| - 1 ==> |cs[k]| >= 2)
  }

  /** `translate` drops every empty range (`z-a`), endpoints included, by
      gluing the two pieces around its hyphen together; the boundaries are
      visited from the right. */
  function MergeEmptyRanges(cs: seq<string>): (r: seq<string>)
    requires ChunkShape(cs)
    ensures |r| >= 1
    ensures |cs| == 1 || |cs[0]| >= 2 ==> r[0] != []
    decreases |cs|
  {
    if |cs| == 1 then cs
    else
      var rest := MergeEmptyRanges(cs[1..]);
      var a := cs[0];
      if a[|a| - 1] > rest[0][0] then [a[..|a| - 1] + rest[0][1..]] + rest[1..]
      else [a] + rest
  }

  /** The pieces of a class body: the whole body when it has no hyphen. */
  function ClassChunks(body: string): (cs: seq<string>)
    requires body != []
    ensures |cs| >= 1
  {
    if '-' !in body then [body]
    else MergeEmptyRanges(RangeChunks(body, 0, if body[0] == '!' then 2 else 1))
  }

  /** The atom for a closed class with body `body`. `translate` joins the
      pieces with "-" and looks at the result: empty allows nothing, a lone
      `!` allows everything, and a leading `!` negates the class. */
  function ClassAtom(body: string): Atom
    requires body != []
  {
    var cs := ClassChunks(body);
    var flat := Join("-", cs);
    if flat == [] then Never
    else if flat == "!" then AnyChar
    else if flat[0] == '!' then
      JoinHead(cs);
      Class(true, [cs[0][1..]] + cs[1..])
    else Class(false, cs)
  }

  lemma JoinHead(cs: seq<string>)
    requires |cs| >= 1 && Join("-", cs) != []
    ensures cs[0] == [] ==> Join("-", cs)[0] == '-'
    ensures cs[0] != [] ==> Join("-", cs)[0] == cs[0][0]
  {
  }

  /** Whether the class with these pieces contains `c` (before negation):
      every character of a piece is in it, and so is every character between
      the last character of a piece and the first character of the next one. */
  predicate InChunks(cs: seq<string>, c: char) {
    || (exists k :: 0 <= k < |cs| && c in cs[k])
    || (exists k :: 1 <= k < |cs| && cs[k - 1] != [] && cs[k] != []
          && cs[k - 1][|cs[k - 1]| - 1] <= c <= cs[k][0])
  }

  /** `fnmatch.translate(pat)`, one atom per pattern element. Consecutive `*`
      are kept as separate atoms; `translate` merges them, which matches the
      same names. */
  function Translate(pat: string): (p: seq<Atom>)
    ensures |p| <= |pat|
    ensures '[' !in pat ==> |p| == |pat|
    ensures '*' !in pat ==> AnyRun !in p
    decreases |pat|
  {
    if pat == [] then []
    else
      assert forall k :: 1 <= k <= |pat| ==> forall c :: c in pat[k..] ==> c in pat;
      if pat[0] == '*' then [AnyRun] + Translate(pat[1..])
      else if pat[0] == '?' then [AnyChar] + Translate(pat[1..])
      else if pat[0] == '[' then
        var j := ClassEnd(pat, 1);
        if j == |pat| then [Lit('[')] + Translate(pat[1..])
        else [ClassAtom(pat[1..j])] + Translate(pat[j + 1..])
      else [Lit(pat[0])] + Translate(pat[1..])
  }

  /** Whether a single-character atom accepts `c`. */
  predicate AtomAccepts(a: Atom, c: char) {
    match a
    case AnyRun => true
    case AnyChar => true
    case Lit(x) => c == x
    case Class(negated, cs) => InChunks(cs, c) != negated
    case Never => false
  }

  /** Whether the atoms match the whole of `s`. */
  predicate MatchAtoms(p: seq<Atom>, s: string)
    ensures MatchAtoms(p, s) && AnyRun !in p ==> |s| == |p|
    decreases |p|, |s|
  {
    if p == [] then s == []
    else if p[0] == AnyRun then MatchAtoms(p[1..], s) || (s != [] && MatchAtoms(p, s[1..]))
    else s != [] && AtomAccepts(p[0], s[0]) && MatchAtoms(p[1..], s[1..])
  }

  /** `fnmatch.fnmatchcase(name, pat)`. */
  predicate FnMatch(name: string, pat: string)
    ensures FnMatch(name, pat) && '*' !in pat ==> |name| <= |pat|
  {
    MatchAtoms(Translate(pat), name)
  }

  /** `fnmatch.filter(names, pat)`: the names that match, in their order. */
  function Filter(names: seq<string>, pat: string): (r: seq<string>)
    ensures forall n :: n in r <==> n in names && FnMatch(n, pat)
    ensures |r| <= |names|
  {
    if names == [] then []
    else (if FnMatch(names[0], pat) then [names[0]] else []) + Filter(names[1..], pat)
  }

  // ---------------------------------------------------------------------
  // What the translation means for the patterns the collectors use.

  /** A pattern character that `translate` treats specially. */
  predicate IsWildcard(c: char) {
    c == '*' || c == '?' || c == '['
  }

  predicate IsPlain(x: string) {
    forall i :: 0 <= i < |x| ==> !IsWildcard(x[i])
  }

  /** Whether `x` occurs somewhere in `s`. */
  predicate IsInfix(x: string, s: string) {
    exists k :: 0 <= k <= |s| && x <= s[k..]
  }

  function Lits(x: string): (r: seq<Atom>)
    ensures |r| == |x| && forall i :: 0 <= i < |x| ==> r[i] == Lit(x[i])
  {
    if x == [] then [] else [Lit(x[0])] + Lits(x[1..])
  }

  /** A plain prefix translates to one literal per character. */
  lemma {:induction false} TranslatePlainPrefix(x: string, rest: string)
    requires IsPlain(x)
    ensures Translate(x + rest) == Lits(x) + Translate(rest)
    decreases |x|
  {
    if x != [] {
      assert !IsWildcard(x[0]);
      assert (x + rest)[1..] == x[1..] + rest;
      TranslatePlainPrefix(x[1..], rest);
    } else {
      assert x + rest == rest;
    }
  }

  /** Literal atoms match exactly their own characters at the front. */
  lemma {:induction false} MatchLits(x: string, q: seq<Atom>, s: string)
    ensures MatchAtoms(Lits(x) + q, s) <==> x <= s && MatchAtoms(q, s[|x|..])
    decreases |x|
  {
    if x == [] {
      assert Lits(x) + q == q;
      assert s[0..] == s;
    } else {
      var p := Lits(x) + q;
      assert p[0] == Lit(x[0]) && p[1..] == Lits(x[1..]) + q;
      if s != [] {
        MatchLits(x[1..], q, s[1..]);
        assert x <= s <==> x[0] == s[0] && x[1..] <= s[1..];
        if |x| <= |s| {
          assert s[1..][|x| - 1..] == s[|x|..];
        }
      }
    }
  }

  /** Whether the atoms match some suffix of `s`. */
  ghost predicate SomeSuffixMatches(q: seq<Atom>, s: string) {
    exists k :: 0 <= k <= |s| && MatchAtoms(q, s[k..])
  }

  /** A leading `*` lets the rest match any suffix. */
  lemma {:induction false} MatchAnyRun(q: seq<Atom>, s: string)
    ensures MatchAtoms([AnyRun] + q, s) <==> SomeSuffixMatches(q, s)
    decreases |s|
  {
    var p := [AnyRun] + q;
    assert p[0] == AnyRun && p[1..] == q;
    assert s[0..] == s;
    if s != [] {
      MatchAnyRun(q, s[1..]);
      if SomeSuffixMatches(q, s[1..]) {
        var k :| 0 <= k <= |s[1..]| && MatchAtoms(q, s[1..][k..]);
        assert s[1..][k..] == s[k + 1..];
      }
      if SomeSuffixMatches(q, s) && !MatchAtoms(q, s) {
        var k :| 0 <= k <= |s| && MatchAtoms(q, s[k..]);
        assert s[1..][k - 1..] == s[k..];
      }
    }
  }

  /** A lone `*` matches every string. */
  lemma {:induction false} AnyRunMatchesAll(s: string)
    ensures MatchAtoms([AnyRun], s)
    decreases |s|
  {
    assert [AnyRun][1..] == [];
    if s != [] {
      AnyRunMatchesAll(s[1..]);
    }
  }

  /** The pattern `*` matches every name. */
  lemma StarMatchesEveryName()
    ensures forall name :: FnMatch(name, "*")
  {
    assert Translate("*") == [AnyRun] by {
      assert "*"[1..] == [];
    }
    forall name
      ensures FnMatch(name, "*")
    {
      AnyRunMatchesAll(name);
    }
  }

  /** A pattern without wildcards matches exactly the name equal to it. */
  lemma PlainPatternMatchesItself(name: string, pat: string)
    requires IsPlain(pat)
    ensures FnMatch(name, pat) <==> name == pat
  {
    TranslatePlainPrefix(pat, []);
    assert pat + [] == pat;
    assert Lits(pat) + [] == Lits(pat);
    MatchLits(pat, [], name);
  }

  /** `*x*` with a plain `x`, the shape of every default pattern, matches
      exactly the names that contain `x`. */
  lemma InfixPatternMatches(name: string, x: string)
    requires IsPlain(x)
    ensures FnMatch(name, "*" + x + "*") <==> IsInfix(x, name)
  {
    var pat := "*" + x + "*";
    assert pat[0] == '*' && pat[1..] == x + "*";
    TranslatePlainPrefix(x, "*");
    assert Translate("*") == [AnyRun] by {
      assert "*"[1..] == [];
    }
    var q := Lits(x) + [AnyRun];
    assert Translate(pat) == [AnyRun] + q;
    MatchAnyRun(q, name);
    if FnMatch(name, pat) {
      var k :| 0 <= k <= |name| && MatchAtoms(q, name[k..]);
      MatchLits(x, [AnyRun], name[k..]);
    }
    if IsInfix(x, name) {
      var k :| 0 <= k <= |name| && x <= name[k..];
      MatchLits(x, [AnyRun], name[k..]);
      AnyRunMatchesAll(name[k..][|x|..]);
    }
  }

  /** A pattern that translates to one single-character atom matches the
      one-character names that atom accepts. */
  lemma MatchSingle(a: Atom, s: string)
    requires a != AnyRun
    ensures MatchAtoms([a], s) <==> |s| == 1 && AtomAccepts(a, s[0])
  {
    var p := [a];
    assert p[0] == a && p[1..] == [];
    if s != [] {
      assert MatchAtoms(p, s) == (AtomAccepts(a, s[0]) && MatchAtoms([], s[1..]));
    }
  }

  /** `?` matches exactly the one-character names. */
  lemma QuestionMarkMatchesOneChar(name: string)
    ensures FnMatch(name, "?") <==> |name| == 1
  {
    assert "?"[0] == '?' && "?"[1..] == [];
    assert Translate("?") == [AnyChar];
    MatchSingle(AnyChar, name);
  }

  /** `[a-b]` translates to the class atom of its body `a-b`, whose pieces are
      `a` and `b` before empty ranges are dropped. */
  lemma TranslateRange(a: char, b: char)
    requires a != '!' && a != ']' && a != '-' && b != ']' && b != '-'
    ensures Translate(['[', a, '-', b, ']']) == [ClassAtom([a, '-', b])]
    ensures ClassChunks([a, '-', b]) == MergeEmptyRanges([[a], [b]])
  {
    var pat := ['[', a, '-', b, ']'];
    assert ClassEnd(pat, 1) == 4 by {
      assert pat[1..] == [a, '-', b] + [']'] + [];
      IndexOfAfterFree([a, '-', b], ']', []);
    }
    var body := [a, '-', b];
    assert pat[1..4] == body;
    assert pat[5..] == [];
    assert RangeChunks(body, 0, 1) == [[a], [b]] by {
      assert body[1..] == [] + ['-'] + [b];
      IndexOfAfterFree([], '-', [b]);
      assert body[..1] == [a];
      assert body[2..] == [b];
    }
  }

  /** `[a-b]` with `a <= b` matches exactly the one-character names between
      them. */
  lemma RangeClassMatches(a: char, b: char, c: char)
    requires a != '!' && a != ']' && a != '-' && b != ']' && b != '-'
    requires a <= b
    ensures FnMatch([c], ['[', a, '-', b, ']']) <==> a <= c <= b
  {
    TranslateRange(a, b);
    var cs := [[a], [b]];
    assert MergeEmptyRanges([[b]]) == [[b]];
    assert cs[1..] == [[b]];
    assert ClassChunks([a, '-', b]) == cs;
    assert Join("-", cs) == [a, '-', b];
    assert ClassAtom([a, '-', b]) == Class(false, cs);
    MatchSingle(Class(false, cs), [c]);
    assert InChunks(cs, c) <==> a <= c <= b by {
      if a <= c <= b {
        assert cs[0][|cs[0]| - 1] <= c <= cs[1][0];
      }
      if InChunks(cs, c) {
        if exists k :: 0 <= k < |cs| && c in cs[k] {
          var k :| 0 <= k < |cs| && c in cs[k];
          assert k == 0 || k == 1;
        }
      }
    }
  }

  /** `[a-b]` with `a > b` is an empty range, which `translate` drops, so the
      class matches no name at all. */
  lemma EmptyRangeMatchesNothing(a: char, b: char, name: string)
    requires a != '!' && a != ']' && a != '-' && b != ']' && b != '-'
    requires a > b
    ensures !FnMatch(name, ['[', a, '-', b, ']'])
  {
    TranslateRange(a, b);
    var cs := [[a], [b]];
    assert MergeEmptyRanges([[b]]) == [[b]];
    assert cs[1..] == [[b]];
    assert ClassChunks([a, '-', b]) == [[]];
    assert Join("-", [[]]) == [];
    assert ClassAtom([a, '-', b]) == Never;
    MatchSingle(Never, name);
  }

  /** `[!xyz]` (no hyphen, no `]`) matches exactly the one-character names
      whose character is not among `xyz`. */
  lemma NegatedClassMatches(body: string, c: char)
    requires body != [] && '-' !in body && ']' !in body
    ensures FnMatch([c], "[!" + body + "]") <==> c !in body
  {
    var pat := "[!" + body + "]";
    var b := "!" + body;
    assert pat[0] == '[' && pat[1] == '!';
    assert pat[2..] == body + "]" + [];
    IndexOfAfterFree(body, ']', []);
    assert pat[2] == body[0] != ']';
    assert ClassEnd(pat, 1) == |pat| - 1;
    assert pat[1..|pat| - 1] == b;
    assert pat[|pat|..] == [];
    assert '-' !in b;
    assert ClassChunks(b) == [b];
    assert Join("-", [b]) == b;
    assert b[1..] == body;
    assert b != "!";
    assert ClassAtom(b) == Class(true, [body]) by {
      var tail: seq<string> := [b][1..];
      assert tail == [];
      assert [b[1..]] + tail == [body];
    }
    assert Translate(pat) == [Class(true, [body])];
    MatchSingle(Class(true, [body]), [c]);
    assert InChunks([body], c) <==> c in body by {
      if c in body {
        assert c in [body][0];
      }
    }
  }
}
