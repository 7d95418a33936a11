/** `RHELCollector`: the Red Hat flavour of the Linux collector, with its
    metrics written out as one dict literal instead of a manifest loop. */
module Rhel {
  import opened Wrappers
  import opened PyStr
  import opened Fnmatch
  import opened Results
  import opened Remote
  import opened ServicePass
  import Linux

  const DefaultServicePatterns: seq<string> :=
    ["*ssh*", "*http*", "*nginx*", "*sql*", "*mariadb*", "*mysql*", "*postgres*", "*firewalld*", "*sshd*"]

  /** The commands of the dict literal, in dict order (written as appends,
      the shape in which the collector's log grows). */
  const ScalarCommands: seq<string> :=
    ["hostname"] + ["uptime -p"] + [Linux.OsReleaseCommand] + ["uname -r"] + [Linux.CpuCommand]
    + [Linux.MemoryCommand] + [Linux.SwapCommand] + [Linux.DnfLogCommand] + [Linux.TimeZoneCommand] + ["getenforce"]

  /** The commands issued before the service pass. */
  const MetricCommands: seq<string> := ScalarCommands + [Linux.DiskCommand] + [Linux.JournalCommand]

  /** The metric names of the dict literal, in dict order. */
  const ScalarNames: seq<string> :=
    ["Hostname", "Uptime", "OS Version", "Kernel", "CPU Usage", "Memory Usage", "Swap Usage",
     "Last DNF Update", "TimeZone", "SELinux Status"]

  /** Every metric name of a collection, in dict order ("Services" aside). */
  const MetricNames: seq<string> := ScalarNames + ["Disk Usage", "Last 10 Journalctl Errors"]

  /** No metric name repeats, and none is the services key. */
  lemma MetricNamesDistinct()
    ensures forall i, j :: 0 <= i < j < |MetricNames| ==> MetricNames[i] != MetricNames[j]
    ensures "Services" !in MetricNames
  {
    forall i, j | 0 <= i < j < |MetricNames|
      ensures MetricNames[i] != MetricNames[j]
    {
      assert MetricNames[i][0] != MetricNames[j][0] || |MetricNames[i]| != |MetricNames[j]|;
    }
  }

  /** The keys stored after the dict literal are not among its names. */
  lemma LaterKeysFresh()
    ensures "Disk Usage" !in ScalarNames && "Last 10 Journalctl Errors" !in ScalarNames
    ensures "Disk Usage" != "Last 10 Journalctl Errors"
  {
    forall i | 0 <= i < |ScalarNames|
      ensures ScalarNames[i] != "Disk Usage" && ScalarNames[i] != "Last 10 Journalctl Errors"
    {
      assert ScalarNames[i][0] != 'D' || |ScalarNames[i]| != 10;
      assert ScalarNames[i][0] != 'L' || |ScalarNames[i]| != 25;
    }
  }

  /** The text stored for the OS version: the trimmed output without the
      double quotes around it. */
  function Unquoted(output: string): (text: string)
    ensures |text| <= |output|
    ensures text != [] ==> text[0] != '"' && text[|text| - 1] != '"'
  {
    Trim(Strip(output), IsDoubleQuote)
  }

  /** `PRETTY_NAME="Rocky Linux 9.3"` cut at '=' leaves the quoted name and a
      newline; the stored OS version is the bare name. */
  lemma OsVersionUnquoted(name: string)
    requires name != [] && !IsSpace(name[0]) && !IsSpace(name[|name| - 1])
    requires !IsDoubleQuote(name[0]) && !IsDoubleQuote(name[|name| - 1])
    ensures Unquoted("\"" + name + "\"\n") == name
  {
    var quoted := "\"" + name + "\"";
    assert !IsSpace(quoted[0]) && !IsSpace(quoted[|quoted| - 1]);
    assert "" + quoted + "\n" == "\"" + name + "\"\n";
    TrimOf("", quoted, "\n", IsSpace);
    TrimOf("\"", name, "\"", IsDoubleQuote);
  }

  /** `[line for line in text.strip().split('\n')]`. */
  function TextLines(output: string): (lines: seq<string>)
    ensures |lines| >= 1
    ensures Join("\n", lines) == Strip(output)
    ensures forall i :: 0 <= i < |lines| ==> '\n' !in lines[i]
  {
    JoinSplitOn(Strip(output), '\n');
    SplitOn(Strip(output), '\n')
  }

  /** An output of one line gives a list of that one line, so an empty
      output gives [""] rather than no lines. */
  lemma TextLinesOfOneLine(output: string)
    requires '\n' !in Strip(output)
    ensures TextLines(output) == [Strip(output)]
  {
    var s := Strip(output);
    assert IndexOf(s, '\n') == |s|;
  }

  /** The values of the dict literal: each command's output, trimmed, and
      the OS version also without its double quotes. */
  function ScalarValues(respond: string -> string): (values: seq<Value>)
    ensures |values| == |ScalarNames|
  {
    [ Scalar(Strip(respond("hostname"))),
      Scalar(Strip(respond("uptime -p"))),
      Scalar(Unquoted(respond(Linux.OsReleaseCommand))),
      Scalar(Strip(respond("uname -r"))),
      Scalar(Strip(respond(Linux.CpuCommand))),
      Scalar(Strip(respond(Linux.MemoryCommand))),
      Scalar(Strip(respond(Linux.SwapCommand))),
      Scalar(Strip(respond(Linux.DnfLogCommand))),
      Scalar(Strip(respond(Linux.TimeZoneCommand))),
      Scalar(Strip(respond("getenforce"))) ]
  }

  /** The items of a collection before the service pass. */
  function MetricsInfo(respond: string -> string): (info: Info)
    ensures |info| == 12 && info[10].1.Lines? && info[11].1.Lines?
  {
    Items(ScalarNames, ScalarValues(respond))
    + [ ("Disk Usage", Lines(TextLines(respond(Linux.DiskCommand)))),
        ("Last 10 Journalctl Errors", Lines(TextLines(respond(Linux.JournalCommand)))) ]
  }

  /** The keys of the metrics are the metric names, in dict order. */
  lemma MetricsInfoKeys(respond: string -> string)
    ensures Keys(MetricsInfo(respond)) == MetricNames
  {
    var tail: Info := [ ("Disk Usage", Lines(TextLines(respond(Linux.DiskCommand)))),
                        ("Last 10 Journalctl Errors", Lines(TextLines(respond(Linux.JournalCommand)))) ];
    ItemsThenKeys(ScalarValues(respond), tail);
  }

  /** The services key is stored after every metric. */
  lemma ServicesKeyFresh(respond: string -> string)
    ensures "Services" !in Keys(MetricsInfo(respond))
  {
    MetricsInfoKeys(respond);
    MetricNamesDistinct();
  }

  lemma ItemsThenKeys(values: seq<Value>, tail: Info)
    requires |values| == |ScalarNames|
    requires |tail| == 2 && tail[0].0 == "Disk Usage" && tail[1].0 == "Last 10 Journalctl Errors"
    ensures Keys(Items(ScalarNames, values) + tail) == MetricNames
  {
    KeysAppend(Items(ScalarNames, values), tail);
    assert Keys(tail) == ["Disk Usage", "Last 10 Journalctl Errors"];
  }

  /** Storing the disk usage and then the journal errors after the dict
      literal appends them. */
  lemma MetricsStored(values: seq<Value>, disk: Value, errors: Value)
    requires |values| == |ScalarNames|
    ensures Put(Put(Items(ScalarNames, values), "Disk Usage", disk), "Last 10 Journalctl Errors", errors)
         == Items(ScalarNames, values) + [("Disk Usage", disk), ("Last 10 Journalctl Errors", errors)]
  {
    LaterKeysFresh();
    PutTwoNew(Items(ScalarNames, values), "Disk Usage", disk, "Last 10 Journalctl Errors", errors);
  }

  /** What `collect` returns, when the loop over the matched set visits it in
      the order `order`. */
  function RhelInfo(services: seq<string>, respond: string -> string, order: seq<string>): (r: Result<Info, CollectError>)
    ensures r.Failure? <==> services != [] && AvailableUnits(respond).Failure?
    ensures r.Success? ==> |r.value| == if services == [] then 12 else 13
  {
    var info := MetricsInfo(respond);
    if services == [] then Success(info)
    else match UnitStatuses(respond, order)
      case Failure(e) => Failure(e)
      case Success(statuses) => Success(info + [("Services", StatusMap(statuses))])
  }

  /** The commands `collect` issues, in order. */
  function RhelCommands(services: seq<string>, respond: string -> string, order: seq<string>): seq<string> {
    MetricCommands + if services == [] then [] else UnitCommands(respond, order)
  }

  class RhelCollector {
    /** The effective service patterns. */
    const services: seq<string>

    /** `RHELCollector(services)`: the defaults followed by the caller's
        patterns. */
    constructor (services: Option<seq<string>>)
      ensures this.services == EffectivePatterns(DefaultServicePatterns, services)
    {
      this.services := EffectivePatterns(DefaultServicePatterns, services);
    }

    /** `collect(connector)`. */
    method Collect(connector: Connector) returns (r: Result<Info, CollectError>, ghost order: seq<string>)
      modifies connector
      ensures r == RhelInfo(services, connector.respond, order)
      ensures connector.log == old(connector.log) + RhelCommands(services, connector.respond, order)
      ensures services != [] && AvailableUnits(connector.respond).Success? ==>
                Enumerates(order, MatchedSet(AvailableUnits(connector.respond).value, services))
    {
      var info := CollectMetrics(connector);
      order := [];
      if services != [] {
        var statuses;
        statuses, order := CollectUnitStatuses(connector, services);
        ConcatAssoc(old(connector.log), MetricCommands, UnitCommands(connector.respond, order));
        if statuses.Failure? {
          return Failure(statuses.error), order;
        }
        ServicesKeyFresh(connector.respond);
        PutNew(info, "Services", StatusMap(statuses.value));
        info := Put(info, "Services", StatusMap(statuses.value));
      }
      r := Success(info);
    }

    /** The metrics of `collect` before its service pass: the dict literal,
        then the disk usage and the journal errors, each split into lines. */
    method CollectMetrics(connector: Connector) returns (info: Info)
      modifies connector
      ensures info == MetricsInfo(connector.respond)
      ensures connector.log == old(connector.log) + MetricCommands
    {
      info := CollectScalars(connector);
      var diskUsage := connector.RunCommand(Linux.DiskCommand);
      ConcatAssoc(old(connector.log), ScalarCommands, [Linux.DiskCommand]);
      var systemErrors := connector.RunCommand(Linux.JournalCommand);
      ConcatAssoc(old(connector.log), ScalarCommands + [Linux.DiskCommand], [Linux.JournalCommand]);
      assert connector.log == old(connector.log) + MetricCommands;
      MetricsStored(ScalarValues(connector.respond), Lines(TextLines(diskUsage)), Lines(TextLines(systemErrors)));
      info := Put(info, "Disk Usage", Lines(SplitOn(Strip(diskUsage), '\n')));
      info := Put(info, "Last 10 Journalctl Errors", Lines(SplitOn(Strip(systemErrors), '\n')));
    }

    /** The dict literal of `collect`: ten commands, each output trimmed. */
    method CollectScalars(connector: Connector) returns (info: Info)
      modifies connector
      ensures info == Items(ScalarNames, ScalarValues(connector.respond))
      ensures connector.log == old(connector.log) + ScalarCommands
    {
      var hostname := connector.RunCommand("hostname");
      ghost var issued: seq<string> := ["hostname"];
      var uptime := connector.RunCommand("uptime -p");
      ConcatAssoc(old(connector.log), issued, ["uptime -p"]);
      issued := issued + ["uptime -p"];
      var osVersion := connector.RunCommand(Linux.OsReleaseCommand);
      ConcatAssoc(old(connector.log), issued, [Linux.OsReleaseCommand]);
      issued := issued + [Linux.OsReleaseCommand];
      var kernel := connector.RunCommand("uname -r");
      ConcatAssoc(old(connector.log), issued, ["uname -r"]);
      issued := issued + ["uname -r"];
      var cpu := connector.RunCommand(Linux.CpuCommand);
      ConcatAssoc(old(connector.log), issued, [Linux.CpuCommand]);
      issued := issued + [Linux.CpuCommand];
      var memory := connector.RunCommand(Linux.MemoryCommand);
      ConcatAssoc(old(connector.log), issued, [Linux.MemoryCommand]);
      issued := issued + [Linux.MemoryCommand];
      var swap := connector.RunCommand(Linux.SwapCommand);
      ConcatAssoc(old(connector.log), issued, [Linux.SwapCommand]);
      issued := issued + [Linux.SwapCommand];
      var lastUpdate := connector.RunCommand(Linux.DnfLogCommand);
      ConcatAssoc(old(connector.log), issued, [Linux.DnfLogCommand]);
      issued := issued + [Linux.DnfLogCommand];
      var timeZone := connector.RunCommand(Linux.TimeZoneCommand);
      ConcatAssoc(old(connector.log), issued, [Linux.TimeZoneCommand]);
      issued := issued + [Linux.TimeZoneCommand];
      var selinux := connector.RunCommand("getenforce");
      ConcatAssoc(old(connector.log), issued, ["getenforce"]);
      issued := issued + ["getenforce"];
      info := Items(ScalarNames,
                    [ Scalar(Strip(hostname)), Scalar(Strip(uptime)), Scalar(Unquoted(osVersion)),
                      Scalar(Strip(kernel)), Scalar(Strip(cpu)), Scalar(Strip(memory)), Scalar(Strip(swap)),
                      Scalar(Strip(lastUpdate)), Scalar(Strip(timeZone)), Scalar(Strip(selinux)) ]);
    }
  }

  // ---------------------------------------------------------------------
  // What a collection yields

  /** The metrics never repeat a key. */
  lemma MetricsInfoDistinct(respond: string -> string)
    ensures DistinctKeys(MetricsInfo(respond))
  {
    MetricsInfoKeys(respond);
    MetricNamesDistinct();
    DistinctByKeys(MetricsInfo(respond), MetricNames);
  }

  /** A collection fails exactly when there are patterns and the service
      listing has a blank line. Otherwise the keys are the metric names in
      dict order, followed by "Services" when there are patterns, and
      "Services" holds the result of the service pass. */
  lemma RhelInfoKeys(services: seq<string>, respond: string -> string, order: seq<string>)
    ensures var r := RhelInfo(services, respond, order);
      && (r.Failure? <==> services != [] && AvailableUnits(respond).Failure?)
      && (r.Success? && services == [] ==> Keys(r.value) == MetricNames)
      && (r.Success? && services != [] ==> Keys(r.value) == MetricNames + ["Services"])
      && (r.Success? && services != [] ==>
            Get(r.value, "Services") == Some(StatusMap(UnitStatuses(respond, order).value)))
  {
    MetricsInfoKeys(respond);
    if services != [] && UnitStatuses(respond, order).Success? {
      ServicesAppended(respond, StatusMap(UnitStatuses(respond, order).value));
    }
  }

  /** The services entry comes after every metric, and `get` finds it. */
  lemma ServicesAppended(respond: string -> string, v: Value)
    ensures Keys(MetricsInfo(respond) + [("Services", v)]) == MetricNames + ["Services"]
    ensures Get(MetricsInfo(respond) + [("Services", v)], "Services") == Some(v)
  {
    MetricsInfoKeys(respond);
    MetricNamesDistinct();
    AppendNewKey(MetricsInfo(respond), MetricNames, "Services", v);
  }

  /** Every metric of a successful result is the one stored before the
      service pass. */
  lemma RhelMetric(services: seq<string>, respond: string -> string, order: seq<string>, k: string)
    requires RhelInfo(services, respond, order).Success?
    requires k in MetricNames
    ensures Get(RhelInfo(services, respond, order).value, k) == Get(MetricsInfo(respond), k)
  {
    if services != [] {
      var info := MetricsInfo(respond);
      var v := StatusMap(UnitStatuses(respond, order).value);
      MetricNamesDistinct();
      ServicesKeyFresh(respond);
      GetAppend(info, "Services", v, k);
    }
  }

  /** Each name of the dict literal holds its own command's output, trimmed. */
  lemma ScalarMetric(respond: string -> string, i: nat)
    requires i < |ScalarNames|
    ensures Get(MetricsInfo(respond), ScalarNames[i]) == Some(ScalarValues(respond)[i])
  {
    var info := MetricsInfo(respond);
    MetricsInfoDistinct(respond);
    assert info[i] == (ScalarNames[i], ScalarValues(respond)[i]);
    GetAt(info, i);
  }

  /** The disk usage is the lines of the trimmed output: joined with "\n"
      they give it back, and no line holds a "\n". */
  lemma DiskUsageMetric(respond: string -> string)
    ensures Get(MetricsInfo(respond), "Disk Usage") == Some(Lines(TextLines(respond(Linux.DiskCommand))))
  {
    MetricsInfoKeys(respond);
    MetricNamesDistinct();
    GetByKeys(MetricsInfo(respond), MetricNames, 10);
  }

  /** So are the journal errors. */
  lemma JournalErrorsMetric(respond: string -> string)
    ensures Get(MetricsInfo(respond), "Last 10 Journalctl Errors")
            == Some(Lines(TextLines(respond(Linux.JournalCommand))))
  {
    MetricsInfoKeys(respond);
    MetricNamesDistinct();
    GetByKeys(MetricsInfo(respond), MetricNames, 11);
  }

  /** The commands of a collection: the dict literal's, the disk and journal
      commands, then the service pass's; with a well-formed listing, one per
      matched name after the listing. */
  lemma RhelCommandCount(services: seq<string>, respond: string -> string, order: seq<string>)
    requires services != [] && AvailableUnits(respond).Success?
    requires Enumerates(order, MatchedSet(AvailableUnits(respond).value, services))
    ensures var cs := RhelCommands(services, respond, order);
      && |cs| == 12 + 1 + |MatchedSet(AvailableUnits(respond).value, services)|
      && cs[..12] == MetricCommands
      && cs[12] == ListUnitsCommand
  {
    UnitStatusesContent(services, respond, order, "");
    var cs := RhelCommands(services, respond, order);
    assert |MetricCommands| == 12;
    assert cs[..12] == MetricCommands;
  }

  /** A collector always has the default patterns, so it always runs the
      service pass. */
  lemma CollectorHasPatterns(user: Option<seq<string>>)
    ensures |EffectivePatterns(DefaultServicePatterns, user)| >= |DefaultServicePatterns| == 9
  {
  }
}
