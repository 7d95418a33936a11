/** The service pass that every collector runs after its metrics when it has
    patterns: list the host's services, keep the names that some pattern
    matches, and ask the host for the status of each kept name. */
module ServicePass {
  import opened Wrappers
  import opened PyStr
  import opened Fnmatch
  import opened Results
  import opened Remote

  /** `DEFAULT_SERVICE_PATTERNS + (services or [])`: the caller's patterns are
      added after the defaults, never instead of them. */
  function EffectivePatterns(defaults: seq<string>, user: Option<seq<string>>): (ps: seq<string>)
    ensures |defaults| <= |ps| && ps[..|defaults|] == defaults
    ensures forall p :: p in ps <==> p in defaults || (user.Some? && p in user.value)
  {
    defaults + (if user.Some? then user.value else [])
  }

  // ---------------------------------------------------------------------
  // systemd unit names (Linux and RHEL)

  /** What a listing line of `systemctl list-units` holds in the wrong shape:
      a blank line has no first field, and `line.split()[0]` raises IndexError. */
  datatype CollectError = IndexError(line: string)

  const UnitSuffix: string := ".service"

  /** A line with nothing but whitespace, on which `split()` finds no field. */
  predicate Blank(line: string) {
    forall i :: 0 <= i < |line| ==> IsSpace(line[i])
  }

  /** `line.split()[0].replace('.service', '')`: there is no name exactly for
      a blank line. */
  function UnitName(line: string): (r: Option<string>)
    ensures r.None? <==> Blank(line)
  {
    match FirstToken(line)
    case None => None
    case Some(token) => Some(Replace(token, UnitSuffix, ""))
  }

  /** `[line.split()[0].replace('.service', '') for line in lines]`: the
      names in listing order, or the error for the first blank line. */
  function UnitNames(lines: seq<string>): (r: Result<seq<string>, CollectError>)
    ensures r.Failure? <==> exists i :: 0 <= i < |lines| && UnitName(lines[i]).None?
    ensures r.Failure? ==> r.error.line in lines && UnitName(r.error.line).None?
    ensures r.Success? ==> |r.value| == |lines|
    ensures r.Success? ==> forall i :: 0 <= i < |lines| ==> UnitName(lines[i]) == Some(r.value[i])
  {
    if lines == [] then Success([])
    else match UnitName(lines[0])
      case None => Failure(IndexError(lines[0]))
      case Some(name) =>
        var tail := lines[1..];
        assert forall i :: 0 <= i < |tail| ==> tail[i] == lines[i + 1];
        match UnitNames(tail)
        case Failure(e) => Failure(e)
        case Success(rest) => Success([name] + rest)
  }

  /** A listing line "NAME.service  loaded active running ..." yields NAME,
      for a NAME without whitespace and without a '.'. */
  lemma UnitNameOfListingLine(lead: string, name: string, rest: string)
    requires forall i :: 0 <= i < |lead| ==> IsSpace(lead[i])
    requires forall i :: 0 <= i < |name| ==> !IsSpace(name[i]) && name[i] != '.'
    requires rest == [] || IsSpace(rest[0])
    ensures UnitName(lead + name + UnitSuffix + rest) == Some(name)
  {
    var token := name + UnitSuffix;
    assert forall j :: 0 <= j < |token| ==> !IsSpace(token[j]);
    assert lead + name + UnitSuffix + rest == lead + token + rest;
    FirstTokenOf(lead, token, rest);
    ReplaceSuffix(name, UnitSuffix, "");
    assert name + "" == name;
  }

  // ---------------------------------------------------------------------
  // Pattern matching

  /** The names that at least one pattern matches: the union over the
      patterns of `fnmatch.filter(available, pattern)`. */
  function MatchedSet(available: seq<string>, patterns: seq<string>): (m: set<string>)
    ensures forall n :: n in m ==> n in available
  {
    set n | n in available && exists p :: p in patterns && FnMatch(n, p)
  }

  /** The loop that fills `matched`, one pattern at a time. */
  method MatchServices(available: seq<string>, patterns: seq<string>) returns (matched: set<string>)
    ensures matched == MatchedSet(available, patterns)
  {
    matched := {};
    for i := 0 to |patterns|
      invariant matched == MatchedSet(available, patterns[..i])
    {
      var found := Filter(available, patterns[i]);
      matched := matched + set n | n in found;
      assert patterns[..i + 1] == patterns[..i] + [patterns[i]];
    }
    assert patterns[..|patterns|] == patterns;
  }

  /** Only the set of patterns matters: repeating a pattern or changing their
      order keeps the matched names. */
  lemma MatchedSetOfSamePatterns(available: seq<string>, ps: seq<string>, qs: seq<string>)
    requires forall p :: p in ps <==> p in qs
    ensures MatchedSet(available, ps) == MatchedSet(available, qs)
  {
  }

  /** Adding patterns never loses a matched name. */
  lemma MatchedSetGrows(available: seq<string>, ps: seq<string>, extra: seq<string>)
    ensures MatchedSet(available, ps) <= MatchedSet(available, ps + extra)
  {
    forall n | n in MatchedSet(available, ps)
      ensures n in MatchedSet(available, ps + extra)
    {
      var p :| p in ps && FnMatch(n, p);
      assert p in ps + extra;
    }
  }

  /** With the pattern "*" among the patterns, every listed name is kept. */
  lemma StarPatternKeepsAll(available: seq<string>, patterns: seq<string>)
    requires "*" in patterns
    ensures MatchedSet(available, patterns) == set n | n in available
  {
    StarMatchesEveryName();
  }

  /** A listed service whose name contains x is matched by the pattern
      "*x*" (when x holds no wildcard character). */
  lemma InfixPatternKeepsService(available: seq<string>, patterns: seq<string>, x: string, n: string)
    requires IsPlain(x) && "*" + x + "*" in patterns
    requires n in available && IsInfix(x, n)
    ensures n in MatchedSet(available, patterns)
  {
    InfixPatternMatches(n, x);
  }

  // ---------------------------------------------------------------------
  // Status queries

  /** `order` lists every element of `s` exactly once: the order in which a
      loop over a Python set visits it. */
  ghost predicate Enumerates(order: seq<string>, s: set<string>) {
    && (forall i, j :: 0 <= i < j < |order| ==> order[i] != order[j])
    && (forall x :: x in order <==> x in s)
  }

  /** The commands issued for the names in `order`, in that order. */
  function StatusCommands(order: seq<string>, statusCommand: string -> string): (cs: seq<string>)
    ensures |cs| == |order|
    ensures forall i :: 0 <= i < |order| ==> cs[i] == statusCommand(order[i])
  {
    if order == [] then [] else StatusCommands(order[..|order| - 1], statusCommand) + [statusCommand(order[|order| - 1])]
  }

  /** `status_results` after the loop has visited the names in `order`: each
      name stored with the trimmed answer to its status command. */
  function StatusEntries(order: seq<string>, respond: string -> string, statusCommand: string -> string): Dict<string>
  {
    if order == [] then []
    else
      var last := order[|order| - 1];
      Put(StatusEntries(order[..|order| - 1], respond, statusCommand), last, Strip(respond(statusCommand(last))))
  }

  /** Without repetitions in `order`, the entries hold the names of `order`
      in that order, each with the trimmed answer to its own command. */
  lemma {:induction false} StatusEntriesItems(order: seq<string>, respond: string -> string, statusCommand: string -> string)
    requires forall i, j :: 0 <= i < j < |order| ==> order[i] != order[j]
    ensures |StatusEntries(order, respond, statusCommand)| == |order|
    ensures forall i :: 0 <= i < |order| ==>
              StatusEntries(order, respond, statusCommand)[i] == (order[i], Strip(respond(statusCommand(order[i]))))
  {
    if order != [] {
      var init := order[..|order| - 1];
      var last := order[|order| - 1];
      var prev := StatusEntries(init, respond, statusCommand);
      StatusEntriesItems(init, respond, statusCommand);
      assert forall i :: 0 <= i < |prev| ==> prev[i].0 != last by {
        forall i | 0 <= i < |prev|
          ensures prev[i].0 != last
        {
          assert prev[i].0 == init[i] == order[i];
        }
      }
      PutAppends(prev, last, Strip(respond(statusCommand(last))));
      forall i | 0 <= i < |init|
        ensures StatusEntries(order, respond, statusCommand)[i] == (order[i], Strip(respond(statusCommand(order[i]))))
      {
        assert StatusEntries(order, respond, statusCommand)[i] == prev[i];
        assert order[i] == init[i];
      }
    }
  }

  /** So the entries have exactly the names of `order` as keys, in that order ... */
  lemma StatusEntriesKeys(order: seq<string>, respond: string -> string, statusCommand: string -> string)
    requires forall i, j :: 0 <= i < j < |order| ==> order[i] != order[j]
    ensures Keys(StatusEntries(order, respond, statusCommand)) == order
    ensures DistinctKeys(StatusEntries(order, respond, statusCommand))
  {
    StatusEntriesItems(order, respond, statusCommand);
  }

  /** ... and `get` finds the status of each visited name, and nothing for
      any other name. */
  lemma StatusEntriesLookup(order: seq<string>, respond: string -> string, statusCommand: string -> string, n: string)
    requires forall i, j :: 0 <= i < j < |order| ==> order[i] != order[j]
    ensures Get(StatusEntries(order, respond, statusCommand), n)
            == if n in order then Some(Strip(respond(statusCommand(n)))) else None
  {
    StatusEntriesItems(order, respond, statusCommand);
    GetAligned(StatusEntries(order, respond, statusCommand), order, k => Strip(respond(statusCommand(k))), n);
  }

  /** The statuses depend only on the set that was visited, not on the order
      of the visit. */
  lemma StatusesIndependentOfOrder(o1: seq<string>, o2: seq<string>, s: set<string>, respond: string -> string, statusCommand: string -> string, n: string)
    requires Enumerates(o1, s) && Enumerates(o2, s)
    ensures Get(StatusEntries(o1, respond, statusCommand), n) == Get(StatusEntries(o2, respond, statusCommand), n)
    ensures n in s <==> n in Keys(StatusEntries(o1, respond, statusCommand))
  {
    StatusEntriesLookup(o1, respond, statusCommand, n);
    StatusEntriesLookup(o2, respond, statusCommand, n);
    StatusEntriesKeys(o1, respond, statusCommand);
  }

  /** An enumeration of a set is as long as the set is large. */
  lemma {:induction false} EnumerationLength(order: seq<string>, s: set<string>)
    requires Enumerates(order, s)
    ensures |order| == |s|
  {
    if order != [] {
      var last := order[|order| - 1];
      var init := order[..|order| - 1];
      assert forall i :: 0 <= i < |init| ==> init[i] == order[i];
      assert forall x :: x in order <==> x in init || x == last;
      assert last !in init;
      EnumerationLength(init, s - {last});
    }
  }

  /** One more visited name adds its command and its entry. */
  lemma VisitOneMore(order: seq<string>, n: string, respond: string -> string, statusCommand: string -> string)
    ensures StatusCommands(order + [n], statusCommand) == StatusCommands(order, statusCommand) + [statusCommand(n)]
    ensures StatusEntries(order + [n], respond, statusCommand)
            == Put(StatusEntries(order, respond, statusCommand), n, Strip(respond(statusCommand(n))))
  {
    assert (order + [n])[..|order|] == order;
  }

  /** The loop over `matched` has visited the names in `order` and has the
      names in `remaining` still to visit. */
  ghost predicate Visited(order: seq<string>, matched: set<string>, remaining: set<string>) {
    && remaining <= matched
    && (forall i, j :: 0 <= i < j < |order| ==> order[i] != order[j])
    && (forall x :: x in order <==> x in matched - remaining)
  }

  lemma VisitedStep(order: seq<string>, matched: set<string>, remaining: set<string>, n: string)
    requires Visited(order, matched, remaining) && n in remaining
    ensures Visited(order + [n], matched, remaining - {n})
  {
    assert n !in order;
    assert forall i :: 0 <= i < |order| ==> (order + [n])[i] == order[i];
  }

  lemma VisitedAll(order: seq<string>, matched: set<string>)
    requires Visited(order, matched, {})
    ensures Enumerates(order, matched)
  {
  }

  /** The loop over `matched` that asks for each status: it visits the set in
      some order, issues one status command per name and stores the answers. */
  method QueryStatuses(connector: Connector, matched: set<string>, statusCommand: string -> string)
    returns (statuses: Dict<string>, ghost order: seq<string>)
    modifies connector
    ensures Enumerates(order, matched)
    ensures statuses == StatusEntries(order, connector.respond, statusCommand)
    ensures connector.log == old(connector.log) + StatusCommands(order, statusCommand)
  {
    statuses := [];
    order := [];
    var remaining := matched;
    while remaining != {}
      invariant Visited(order, matched, remaining)
      invariant statuses == StatusEntries(order, connector.respond, statusCommand)
      invariant connector.log == old(connector.log) + StatusCommands(order, statusCommand)
      decreases remaining
    {
      var service :| service in remaining;
      var status := connector.RunCommand(statusCommand(service));
      ConcatAssoc(old(connector.log), StatusCommands(order, statusCommand), [statusCommand(service)]);
      statuses := Put(statuses, service, Strip(status));
      VisitOneMore(order, service, connector.respond, statusCommand);
      VisitedStep(order, matched, remaining, service);
      order := order + [service];
      remaining := remaining - {service};
    }
    VisitedAll(order, matched);
  }

  // ---------------------------------------------------------------------
  // The systemd pass shared by the Linux and RHEL collectors

  const ListUnitsCommand: string := "systemctl list-units --type=service --no-pager --no-legend"

  function IsActiveCommand(service: string): string {
    "systemctl is-active " + service
  }

  /** The unit names the listing yields, or the error for a blank line. */
  function AvailableUnits(respond: string -> string): (r: Result<seq<string>, CollectError>)
    ensures var lines := SplitLines(respond(ListUnitsCommand));
      && (r.Failure? <==> exists i :: 0 <= i < |lines| && Blank(lines[i]))
      && (r.Success? ==> |r.value| == |lines|)
  {
    UnitNames(SplitLines(respond(ListUnitsCommand)))
  }

  /** `status_results` when the matched units are visited in the order
      `order`, or the error that stops the pass. */
  function UnitStatuses(respond: string -> string, order: seq<string>): (r: Result<Dict<string>, CollectError>)
    ensures r.Failure? <==> AvailableUnits(respond).Failure?
  {
    match AvailableUnits(respond)
    case Failure(e) => Failure(e)
    case Success(_) => Success(StatusEntries(order, respond, IsActiveCommand))
  }

  /** The commands the pass issues: the listing, then (unless the listing
      has a blank line) one `systemctl is-active` per visited unit. */
  function UnitCommands(respond: string -> string, order: seq<string>): seq<string> {
    [ListUnitsCommand] + if AvailableUnits(respond).Failure? then [] else StatusCommands(order, IsActiveCommand)
  }

  /** The service pass of the Linux and RHEL collectors. */
  method CollectUnitStatuses(connector: Connector, patterns: seq<string>)
    returns (r: Result<Dict<string>, CollectError>, ghost order: seq<string>)
    modifies connector
    ensures r == UnitStatuses(connector.respond, order)
    ensures connector.log == old(connector.log) + UnitCommands(connector.respond, order)
    ensures AvailableUnits(connector.respond).Success? ==>
              Enumerates(order, MatchedSet(AvailableUnits(connector.respond).value, patterns))
  {
    order := [];
    var listing := connector.RunCommand(ListUnitsCommand);
    var available := UnitNames(SplitLines(listing));
    if available.Failure? {
      return Failure(available.error), order;
    }
    var matched := MatchServices(available.value, patterns);
    var statuses;
    statuses, order := QueryStatuses(connector, matched, IsActiveCommand);
    ConcatAssoc(old(connector.log), [ListUnitsCommand], StatusCommands(order, IsActiveCommand));
    r := Success(statuses);
  }

  /** The pass maps exactly the matched unit names, each to the trimmed
      answer of its `systemctl is-active` command, whatever the order of the
      visit; and it issues one command more than there are matched names. */
  lemma UnitStatusesContent(patterns: seq<string>, respond: string -> string, order: seq<string>, n: string)
    requires AvailableUnits(respond).Success?
    requires Enumerates(order, MatchedSet(AvailableUnits(respond).value, patterns))
    ensures UnitStatuses(respond, order).Success?
    ensures Get(UnitStatuses(respond, order).value, n)
            == if n in MatchedSet(AvailableUnits(respond).value, patterns)
               then Some(Strip(respond(IsActiveCommand(n)))) else None
    ensures |UnitCommands(respond, order)| == 1 + |MatchedSet(AvailableUnits(respond).value, patterns)|
  {
    StatusEntriesLookup(order, respond, IsActiveCommand, n);
    EnumerationLength(order, MatchedSet(AvailableUnits(respond).value, patterns));
  }
}
