/** `WindowsCollector`: system information gathered with PowerShell commands,
    as one dict literal followed by the disk usage, the system errors and the
    service pass over `Get-Service`. */
module Windows {
  import opened Wrappers
  import opened PyStr
  import opened Fnmatch
  import opened Results
  import opened Remote
  import opened ServicePass

  const DefaultServicePatterns: seq<string> :=
    ["*SQL*", "*IIS*", "*HTTP*", "*DNS*", "*DHCP*", "*WinDefend*", "*Firewall*"]

  const UptimeCommand: string := "(Get-CimInstance Win32_OperatingSystem).LastBootUpTime"
  const CaptionCommand: string := "(Get-CimInstance Win32_OperatingSystem).Caption"
  const BuildCommand: string := "(Get-CimInstance Win32_OperatingSystem).Version"
  const CpuCommand: string :=
    "$cpu = Get-Counter '\\Processor(_Total)\\% Processor Time'"
    + " -SampleInterval 1 -MaxSamples 2; "
    + "[math]::Round(($cpu.CounterSamples"
    + " | Select -ExpandProperty CookedValue | "
    + "Measure-Object -Average).Average, 2)"
  const MemoryCommand: string :=
    "(Get-CimInstance Win32_OperatingSystem"
    + " | Select-Object @{Name='UsedMemory';"
    + "Expression={$_.TotalVisibleMemorySize"
    + " - $_.FreePhysicalMemory}},"
    + "@{Name='TotalMemory';"
    + "Expression={$_.TotalVisibleMemorySize}})"
    + " | ForEach-Object {\"{0:N2}% used\" -f"
    + " (($_.UsedMemory / $_.TotalMemory) * 100)}"
  const SwapCommand: string :=
    "(Get-CimInstance Win32_PageFileUsage"
    + " | Select-Object @{Name='UsedMB';"
    + "Expression={$_.CurrentUsage}},"
    + "@{Name='AllocatedMB';"
    + "Expression={$_.AllocatedBaseSize}})"
    + " | ForEach-Object {\"{0:N2}% used\" -f"
    + " (($_.UsedMB / $_.AllocatedMB) * 100)}"
  const HotFixCommand: string :=
    "Get-HotFix | Sort-Object InstalledOn -Descending"
    + " | Select-Object -First 1 -ExpandProperty InstalledOn"
  const TimeZoneCommand: string := "(Get-TimeZone).Id"
  const DefenderCommand: string :=
    "Get-MpComputerStatus | Select-Object -ExpandProperty AMServiceEnabled"
  const DiskCommand: string :=
    "Get-PSDrive -PSProvider 'FileSystem'"
    + " | Select-Object Name,Used,Free"
    + " | ForEach-Object {\"{0}: Used: {1} Free: {2}\" -f"
    + " $_.Name,($_.Used / 1GB -as [int]),"
    + "($_.Free / 1GB -as [int])}"
  const EventLogCommand: string :=
    "Get-EventLog -LogName System -EntryType Error -Newest 10"
    + " | Format-Table TimeGenerated,Source,EventID,Message -AutoSize"
    + " | Out-String"
  const ServiceListCommand: string := "Get-Service | Select-Object -ExpandProperty Name"

  /** The status query for one service name, quoted as PowerShell expects. */
  function ServiceStatusCommand(service: string): string {
    "(Get-Service -Name '" + service + "').Status"
  }

  /** Different services are asked about with different commands, so every
      status query names the one service it is about. */
  lemma ServiceStatusCommandInjective(a: string, b: string)
    ensures ServiceStatusCommand(a) == ServiceStatusCommand(b) ==> a == b
  {
    var front := "(Get-Service -Name '";
    var ca, cb := ServiceStatusCommand(a), ServiceStatusCommand(b);
    if ca == cb {
      assert |a| == |b|;
      assert ca[|front|..|front| + |a|] == a;
      assert cb[|front|..|front| + |b|] == b;
    }
  }

  /** What "Services" holds when no service matched. */
  const NoServicesMessage: string := "No matching services found"

  /** The commands of the dict literal, in dict order (written as appends,
      the shape in which the collector's log grows). */
  const ScalarCommands: seq<string> :=
    ["hostname"] + [UptimeCommand] + [CaptionCommand] + [BuildCommand] + [CpuCommand]
    + [MemoryCommand] + [SwapCommand] + [HotFixCommand] + [TimeZoneCommand] + [DefenderCommand]

  /** The commands issued before the service pass. */
  const MetricCommands: seq<string> := ScalarCommands + [DiskCommand] + [EventLogCommand]

  /** The metric names of the dict literal, in dict order. */
  const ScalarNames: seq<string> :=
    ["Hostname", "Uptime", "OS Version", "Build", "CPU Usage", "Memory Usage", "Swap Usage",
     "Last Windows Update", "TimeZone", "Windows Defender Enabled"]

  /** Every metric name of a collection, in dict order ("Services" aside). */
  const MetricNames: seq<string> := ScalarNames + ["Disk Usage", "Last 10 System Errors"]

  /** No metric name repeats, and none is the services key. */
  lemma MetricNamesDistinct()
    ensures forall i, j :: 0 <= i < j < |MetricNames| ==> MetricNames[i] != MetricNames[j]
    ensures "Services" !in MetricNames
  {
    forall i, j | 0 <= i < j < |MetricNames|
      ensures MetricNames[i] != MetricNames[j]
    {
      assert MetricNames[i][0] != MetricNames[j][0] || |MetricNames[i]| != |MetricNames[j]|;
    }
  }

  /** The keys stored after the dict literal are not among its names. */
  lemma LaterKeysFresh()
    ensures "Disk Usage" !in ScalarNames && "Last 10 System Errors" !in ScalarNames
    ensures "Disk Usage" != "Last 10 System Errors"
  {
    forall i | 0 <= i < |ScalarNames|
      ensures ScalarNames[i] != "Disk Usage" && ScalarNames[i] != "Last 10 System Errors"
    {
      assert ScalarNames[i][0] != 'D' || |ScalarNames[i]| != 10;
      assert ScalarNames[i][0] != 'L' || |ScalarNames[i]| != 21;
    }
  }

  /** The CPU usage as stored: the trimmed reading followed by " %". */
  function CpuText(output: string): (text: string)
    ensures |text| == |Strip(output)| + 2
    ensures text[..|Strip(output)|] == Strip(output)
    ensures text[|text| - 2..] == " %"
  {
    Strip(output) + " %"
  }

  /** The values of the dict literal: each command's output, trimmed, and the
      CPU reading also followed by " %". */
  function ScalarValues(respond: string -> string): (values: seq<Value>)
    ensures |values| == |ScalarNames|
  {
    [ Scalar(Strip(respond("hostname"))),
      Scalar(Strip(respond(UptimeCommand))),
      Scalar(Strip(respond(CaptionCommand))),
      Scalar(Strip(respond(BuildCommand))),
      Scalar(CpuText(respond(CpuCommand))),
      Scalar(Strip(respond(MemoryCommand))),
      Scalar(Strip(respond(SwapCommand))),
      Scalar(Strip(respond(HotFixCommand))),
      Scalar(Strip(respond(TimeZoneCommand))),
      Scalar(Strip(respond(DefenderCommand))) ]
  }

  /** `text.strip().splitlines()`. */
  function OutputLines(output: string): (lines: seq<string>)
    ensures lines == [] <==> Strip(output) == []
  {
    SplitLines(Strip(output))
  }

  /** The items of a collection before the service pass. */
  function MetricsInfo(respond: string -> string): (info: Info)
    ensures |info| == 12 && info[10].1.Lines? && info[11].1.Lines?
  {
    Items(ScalarNames, ScalarValues(respond))
    + [ ("Disk Usage", Lines(OutputLines(respond(DiskCommand)))),
        ("Last 10 System Errors", Lines(OutputLines(respond(EventLogCommand)))) ]
  }

  /** The keys of the metrics are the metric names, in dict order. */
  lemma MetricsInfoKeys(respond: string -> string)
    ensures Keys(MetricsInfo(respond)) == MetricNames
  {
    var tail: Info := [ ("Disk Usage", Lines(OutputLines(respond(DiskCommand)))),
                        ("Last 10 System Errors", Lines(OutputLines(respond(EventLogCommand)))) ];
    ItemsThenKeys(ScalarValues(respond), tail);
  }

  lemma ItemsThenKeys(values: seq<Value>, tail: Info)
    requires |values| == |ScalarNames|
    requires |tail| == 2 && tail[0].0 == "Disk Usage" && tail[1].0 == "Last 10 System Errors"
    ensures Keys(Items(ScalarNames, values) + tail) == MetricNames
  {
    KeysAppend(Items(ScalarNames, values), tail);
    assert Keys(tail) == ["Disk Usage", "Last 10 System Errors"];
  }

  /** The services key is stored after every metric. */
  lemma ServicesKeyFresh(respond: string -> string)
    ensures "Services" !in Keys(MetricsInfo(respond))
  {
    MetricsInfoKeys(respond);
    MetricNamesDistinct();
  }

  /** Storing the disk usage and then the system errors after the dict
      literal appends them. */
  lemma MetricsStored(values: seq<Value>, disk: Value, errors: Value)
    requires |values| == |ScalarNames|
    ensures Put(Put(Items(ScalarNames, values), "Disk Usage", disk), "Last 10 System Errors", errors)
         == Items(ScalarNames, values) + [("Disk Usage", disk), ("Last 10 System Errors", errors)]
  {
    LaterKeysFresh();
    PutTwoNew(Items(ScalarNames, values), "Disk Usage", disk, "Last 10 System Errors", errors);
  }

  // ---------------------------------------------------------------------
  // The service pass over `Get-Service`

  /** The service names: the raw lines of the listing, neither split nor
      trimmed. */
  function AvailableServices(respond: string -> string): (names: seq<string>)
    ensures names == [] <==> respond(ServiceListCommand) == []
    ensures forall i, j :: 0 <= i < |names| && 0 <= j < |names[i]| ==> !IsLineBreak(names[i][j])
  {
    SplitLines(respond(ServiceListCommand))
  }

  /** A listing of names separated by "\r\n", as PowerShell writes its
      lines (the last name not empty), yields exactly those names. */
  lemma ServiceListing(respond: string -> string, listed: seq<string>)
    requires respond(ServiceListCommand) == Join("\r\n", listed)
    requires forall i, j :: 0 <= i < |listed| && 0 <= j < |listed[i]| ==> !IsLineBreak(listed[i][j])
    requires listed != [] ==> listed[|listed| - 1] != []
    ensures AvailableServices(respond) == listed
  {
    SplitLinesJoin("\r\n", listed);
  }

  /** `status_results if status_results else "No matching services found"`. */
  function ServicesValue(statuses: Dict<string>): (v: Value)
    ensures v.Scalar? <==> statuses == []
    ensures v.Scalar? ==> v.text == NoServicesMessage
    ensures v.StatusMap? ==> v.entries == statuses
  {
    if |statuses| > 0 then StatusMap(statuses) else Scalar(NoServicesMessage)
  }

  /** The commands of the service pass: the listing, then one status query
      per visited name. */
  function ServiceCommands(order: seq<string>): seq<string> {
    [ServiceListCommand] + StatusCommands(order, ServiceStatusCommand)
  }

  /** What `collect` returns, when the loop over the matched set visits it in
      the order `order`. */
  function WindowsInfo(services: seq<string>, respond: string -> string, order: seq<string>): (info: Info)
    ensures |info| == if services == [] then 12 else 13
    ensures services != [] ==> info[12].0 == "Services"
  {
    var info := MetricsInfo(respond);
    if services == [] then info
    else info + [("Services", ServicesValue(StatusEntries(order, respond, ServiceStatusCommand)))]
  }

  /** The commands `collect` issues, in order. */
  function WindowsCommands(services: seq<string>, order: seq<string>): seq<string> {
    if services == [] then MetricCommands else MetricCommands + ServiceCommands(order)
  }

  class WindowsCollector {
    /** The effective service patterns. */
    const services: seq<string>

    /** `WindowsCollector(services)`: the defaults followed by the caller's
        patterns. */
    constructor (services: Option<seq<string>>)
      ensures this.services == EffectivePatterns(DefaultServicePatterns, services)
    {
      this.services := EffectivePatterns(DefaultServicePatterns, services);
    }

    /** `collect(connector)`. */
    method Collect(connector: Connector) returns (info: Info, ghost order: seq<string>)
      modifies connector
      ensures info == WindowsInfo(services, connector.respond, order)
      ensures connector.log == old(connector.log) + WindowsCommands(services, order)
      ensures services != [] ==> Enumerates(order, MatchedSet(AvailableServices(connector.respond), services))
    {
      info := CollectMetrics(connector);
      order := [];
      if services != [] {
        var listing := connector.RunCommand(ServiceListCommand);
        var allServices := SplitLines(listing);
        var matched := MatchServices(allServices, services);
        var statuses;
        statuses, order := QueryStatuses(connector, matched, ServiceStatusCommand);
        ConcatAssoc(old(connector.log) + MetricCommands, [ServiceListCommand], StatusCommands(order, ServiceStatusCommand));
        ConcatAssoc(old(connector.log), MetricCommands, ServiceCommands(order));
        var servicesValue := if |statuses| > 0 then StatusMap(statuses) else Scalar(NoServicesMessage);
        ServicesKeyFresh(connector.respond);
        PutNew(info, "Services", servicesValue);
        info := Put(info, "Services", servicesValue);
      }
    }

    /** The metrics of `collect` before its service pass: the dict literal,
        then the disk usage and the system errors, each split into lines. */
    method CollectMetrics(connector: Connector) returns (info: Info)
      modifies connector
      ensures info == MetricsInfo(connector.respond)
      ensures connector.log == old(connector.log) + MetricCommands
    {
      info := CollectScalars(connector);
      var diskUsage := connector.RunCommand(DiskCommand);
      ConcatAssoc(old(connector.log), ScalarCommands, [DiskCommand]);
      var systemErrors := connector.RunCommand(EventLogCommand);
      ConcatAssoc(old(connector.log), ScalarCommands + [DiskCommand], [EventLogCommand]);
      assert connector.log == old(connector.log) + MetricCommands;
      MetricsStored(ScalarValues(connector.respond), Lines(OutputLines(diskUsage)), Lines(OutputLines(systemErrors)));
      info := Put(info, "Disk Usage", Lines(SplitLines(Strip(diskUsage))));
      info := Put(info, "Last 10 System Errors", Lines(SplitLines(Strip(systemErrors))));
    }

    /** The dict literal of `collect`: ten commands, each output trimmed. */
    method CollectScalars(connector: Connector) returns (info: Info)
      modifies connector
      ensures info == Items(ScalarNames, ScalarValues(connector.respond))
      ensures connector.log == old(connector.log) + ScalarCommands
    {
      var hostname := connector.RunCommand("hostname");
      ghost var issued: seq<string> := ["hostname"];
      var uptime := connector.RunCommand(UptimeCommand);
      ConcatAssoc(old(connector.log), issued, [UptimeCommand]);
      issued := issued + [UptimeCommand];
      var osVersion := connector.RunCommand(CaptionCommand);
      ConcatAssoc(old(connector.log), issued, [CaptionCommand]);
      issued := issued + [CaptionCommand];
      var build := connector.RunCommand(BuildCommand);
      ConcatAssoc(old(connector.log), issued, [BuildCommand]);
      issued := issued + [BuildCommand];
      var cpu := connector.RunCommand(CpuCommand);
      ConcatAssoc(old(connector.log), issued, [CpuCommand]);
      issued := issued + [CpuCommand];
      var memory := connector.RunCommand(MemoryCommand);
      ConcatAssoc(old(connector.log), issued, [MemoryCommand]);
      issued := issued + [MemoryCommand];
      var swap := connector.RunCommand(SwapCommand);
      ConcatAssoc(old(connector.log), issued, [SwapCommand]);
      issued := issued + [SwapCommand];
      var lastUpdate := connector.RunCommand(HotFixCommand);
      ConcatAssoc(old(connector.log), issued, [HotFixCommand]);
      issued := issued + [HotFixCommand];
      var timeZone := connector.RunCommand(TimeZoneCommand);
      ConcatAssoc(old(connector.log), issued, [TimeZoneCommand]);
      issued := issued + [TimeZoneCommand];
      var defender := connector.RunCommand(DefenderCommand);
      ConcatAssoc(old(connector.log), issued, [DefenderCommand]);
      issued := issued + [DefenderCommand];
      info := Items(ScalarNames,
                    [ Scalar(Strip(hostname)), Scalar(Strip(uptime)), Scalar(Strip(osVersion)),
                      Scalar(Strip(build)), Scalar(Strip(cpu) + " %"), Scalar(Strip(memory)), Scalar(Strip(swap)),
                      Scalar(Strip(lastUpdate)), Scalar(Strip(timeZone)), Scalar(Strip(defender)) ]);
    }
  }

  // ---------------------------------------------------------------------
  // What a collection yields

  /** The metrics never repeat a key. */
  lemma MetricsInfoDistinct(respond: string -> string)
    ensures DistinctKeys(MetricsInfo(respond))
  {
    MetricsInfoKeys(respond);
    MetricNamesDistinct();
    DistinctByKeys(MetricsInfo(respond), MetricNames);
  }

  /** The keys of a collection are the metric names in dict order, followed
      by "Services" when there are patterns. */
  lemma WindowsInfoKeys(services: seq<string>, respond: string -> string, order: seq<string>)
    ensures services == [] ==> Keys(WindowsInfo(services, respond, order)) == MetricNames
    ensures services != [] ==> Keys(WindowsInfo(services, respond, order)) == MetricNames + ["Services"]
  {
    MetricsInfoKeys(respond);
    if services != [] {
      MetricNamesDistinct();
      AppendNewKey(MetricsInfo(respond), MetricNames, "Services", ServicesValue(StatusEntries(order, respond, ServiceStatusCommand)));
    }
  }

  /** With patterns, "Services" holds the sentinel text exactly when no
      service matched, and otherwise maps exactly the matched names, each to
      the trimmed answer of its own status query, whatever the visiting
      order. */
  lemma ServicesEntry(services: seq<string>, respond: string -> string, order: seq<string>, n: string)
    requires services != []
    requires Enumerates(order, MatchedSet(AvailableServices(respond), services))
    ensures var matched := MatchedSet(AvailableServices(respond), services);
      var v := Get(WindowsInfo(services, respond, order), "Services");
      && v.Some?
      && (v.value == Scalar(NoServicesMessage) <==> matched == {})
      && (v.value.StatusMap? ==>
            Get(v.value.entries, n) == if n in matched then Some(Strip(respond(ServiceStatusCommand(n)))) else None)
  {
    var matched := MatchedSet(AvailableServices(respond), services);
    var statuses := StatusEntries(order, respond, ServiceStatusCommand);
    ServicesKeyFresh(respond);
    GetAppend(MetricsInfo(respond), "Services", ServicesValue(statuses), "Services");
    StatusEntriesLookup(order, respond, ServiceStatusCommand, n);
    EnumerationLength(order, matched);
    StatusEntriesItems(order, respond, ServiceStatusCommand);
    assert |statuses| == |matched|;
  }

  /** Every metric of a collection is the one stored before the service
      pass. */
  lemma WindowsMetric(services: seq<string>, respond: string -> string, order: seq<string>, k: string)
    requires k in MetricNames
    ensures Get(WindowsInfo(services, respond, order), k) == Get(MetricsInfo(respond), k)
  {
    if services != [] {
      var info := MetricsInfo(respond);
      var v := ServicesValue(StatusEntries(order, respond, ServiceStatusCommand));
      MetricNamesDistinct();
      ServicesKeyFresh(respond);
      GetAppend(info, "Services", v, k);
    }
  }

  /** Each name of the dict literal holds its own command's output, trimmed
      (the CPU reading followed by " %"). */
  lemma ScalarMetric(respond: string -> string, i: nat)
    requires i < |ScalarNames|
    ensures Get(MetricsInfo(respond), ScalarNames[i]) == Some(ScalarValues(respond)[i])
  {
    var info := MetricsInfo(respond);
    MetricsInfoDistinct(respond);
    assert info[i] == (ScalarNames[i], ScalarValues(respond)[i]);
    GetAt(info, i);
  }

  /** The disk usage is the lines of the trimmed output; an empty output
      gives no lines at all. */
  lemma DiskUsageMetric(respond: string -> string)
    ensures Get(MetricsInfo(respond), "Disk Usage") == Some(Lines(OutputLines(respond(DiskCommand))))
  {
    MetricsInfoKeys(respond);
    MetricNamesDistinct();
    GetByKeys(MetricsInfo(respond), MetricNames, 10);
  }

  /** So are the system errors. */
  lemma SystemErrorsMetric(respond: string -> string)
    ensures Get(MetricsInfo(respond), "Last 10 System Errors") == Some(Lines(OutputLines(respond(EventLogCommand))))
  {
    MetricsInfoKeys(respond);
    MetricNamesDistinct();
    GetByKeys(MetricsInfo(respond), MetricNames, 11);
  }

  /** The commands of a collection with patterns: the metrics', the listing,
      then one status query per matched name. */
  lemma WindowsCommandCount(services: seq<string>, respond: string -> string, order: seq<string>)
    requires services != []
    requires Enumerates(order, MatchedSet(AvailableServices(respond), services))
    ensures var cs := WindowsCommands(services, order);
      && |cs| == 12 + 1 + |MatchedSet(AvailableServices(respond), services)|
      && cs[..12] == MetricCommands
      && cs[12] == ServiceListCommand
  {
    EnumerationLength(order, MatchedSet(AvailableServices(respond), services));
    var cs := WindowsCommands(services, order);
    assert |MetricCommands| == 12;
    assert cs[..12] == MetricCommands;
  }

  /** A collector always has the default patterns, so "Services" is always
      present. */
  lemma CollectorHasPatterns(user: Option<seq<string>>)
    ensures |EffectivePatterns(DefaultServicePatterns, user)| >= |DefaultServicePatterns| == 7
  {
  }
}
