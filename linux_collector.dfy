/** `LinuxCollector`: a fixed manifest of shell commands chosen by the
    distribution family, run one by one over the connector, followed by the
    systemd service pass. */
module Linux {
  import opened Wrappers
  import opened PyStr
  import opened Fnmatch
  import opened Results
  import opened Remote
  import opened ServicePass

  const DefaultServicePatterns: seq<string> :=
    ["*ssh*", "*http*", "*nginx*", "*sql*", "*mariadb*", "*mysql*", "*postgres*", "*firewalld*", "*sshd*"]

  const DnfLogCommand: string := "stat -c %y /var/log/dnf.rpm.log"
  const AptLogCommand: string := "stat -c %y /var/log/apt/history.log"

  /** The exception `__init__` raises. */
  datatype ConfigError = ValueError(message: string)

  /** The command that reads the time of the last package-manager run: dnf's
      log on the Red Hat family, apt's log on the Debian family, and no
      command at all for any other distribution (or none given). */
  function PackageCommand(distro: Option<string>): (r: Result<string, ConfigError>)
    ensures r.Success? <==> distro in {Some("rhel"), Some("rocky"), Some("debian"), Some("ubuntu")}
    ensures r.Failure? ==> r.error == ValueError("Unsupported Distribution")
    ensures distro in {Some("rhel"), Some("rocky")} ==> r == Success(DnfLogCommand)
    ensures distro in {Some("debian"), Some("ubuntu")} ==> r == Success(AptLogCommand)
  {
    if distro == Some("rhel") || distro == Some("rocky") then Success(DnfLogCommand)
    else if distro == Some("debian") || distro == Some("ubuntu") then Success(AptLogCommand)
    else Failure(ValueError("Unsupported Distribution"))
  }

  const OsReleaseCommand: string := "cat /etc/os-release | grep PRETTY_NAME | cut -d= -f2"
  const CpuCommand: string := "top -bn1 | grep \"Cpu(s)\" | awk '{print $2 + $4 \"% used\"}'"
  const MemoryCommand: string := "free | awk '/Mem:/ { printf(\"%.2f%% used\\n\", $3/$2 * 100) }'"
  const SwapCommand: string := "free | awk '/Swap:/ && $2 > 0 { printf(\"%.2f%% used\\n\", $3/$2 * 100) }'"
  const TimeZoneCommand: string := "timedatectl show -p Timezone --value"
  const DiskCommand: string := "df -h --output=source,size,used,avail,pcent,target"
  const JournalCommand: string := "journalctl -p 3 -n 10 --no-pager"

  /** `collection_commands`: metric name and command, in dict order. */
  function Manifest(packageCommand: string): seq<(string, string)> {
    [ ("Hostname", "hostname"),
      ("Uptime", "uptime -p"),
      ("OS Version", OsReleaseCommand),
      ("Kernel", "uname -r"),
      ("CPU Usage", CpuCommand),
      ("Memory Usage", MemoryCommand),
      ("Swap Usage", SwapCommand),
      ("Last Update", packageCommand),
      ("TimeZone", TimeZoneCommand),
      ("SELinux Status", "getenforce"),
      ("Disk Usage", DiskCommand),
      ("Last 10 Journalctl Errors", JournalCommand) ]
  }

  /** The metric names, in manifest order. */
  const MetricNames: seq<string> :=
    ["Hostname", "Uptime", "OS Version", "Kernel", "CPU Usage", "Memory Usage", "Swap Usage",
     "Last Update", "TimeZone", "SELinux Status", "Disk Usage", "Last 10 Journalctl Errors"]

  lemma MetricNamesDistinct()
    ensures forall i, j :: 0 <= i < j < |MetricNames| ==> MetricNames[i] != MetricNames[j]
    ensures "Services" !in MetricNames
  {
    forall i, j | 0 <= i < j < |MetricNames|
      ensures MetricNames[i] != MetricNames[j]
    {
      assert MetricNames[i][0] != MetricNames[j][0] || |MetricNames[i]| != |MetricNames[j]|;
    }
  }

  lemma ManifestKeys(packageCommand: string)
    ensures |Manifest(packageCommand)| == 12
    ensures Keys(Manifest(packageCommand)) == MetricNames
    ensures DistinctKeys(Manifest(packageCommand))
    ensures "Services" !in Keys(Manifest(packageCommand))
    ensures Manifest(packageCommand)[7] == ("Last Update", packageCommand)
  {
    MetricNamesDistinct();
  }

  /** What is stored for one command's output: the trimmed text when it is a
      single line, and its lines when it has more than one. */
  function Normalize(output: string): (v: Value)
    ensures v.Scalar? <==> '\n' !in Strip(output)
    ensures v.Scalar? ==> v.text == Strip(output)
    ensures v.Lines? ==> v.lines == SplitLines(Strip(output)) && |v.lines| >= 2
    ensures !v.StatusMap?
  {
    var result := Strip(output);
    if '\n' in result then
      TrimIdempotent(output, IsSpace);
      SplitLinesOfInnerBreak(result);
      Lines(SplitLines(result))
    else Scalar(result)
  }

  /** `system_info` after the manifest loop has run the given items. */
  function ManifestInfo(manifest: seq<(string, string)>, respond: string -> string): Info {
    if manifest == [] then []
    else
      var last := manifest[|manifest| - 1];
      Put(ManifestInfo(manifest[..|manifest| - 1], respond), last.0, Normalize(respond(last.1)))
  }

  /** The commands of the given items, in order. */
  function ManifestCommands(manifest: seq<(string, string)>): (cs: seq<string>)
    ensures |cs| == |manifest|
    ensures forall i :: 0 <= i < |manifest| ==> cs[i] == manifest[i].1
  {
    if manifest == [] then [] else ManifestCommands(manifest[..|manifest| - 1]) + [manifest[|manifest| - 1].1]
  }

  /** With distinct metric names, the manifest loop stores one item per
      metric, in manifest order, each holding its own command's output. */
  lemma {:induction false} ManifestInfoItems(manifest: seq<(string, string)>, respond: string -> string)
    requires DistinctKeys(manifest)
    ensures |ManifestInfo(manifest, respond)| == |manifest|
    ensures forall i :: 0 <= i < |manifest| ==>
              ManifestInfo(manifest, respond)[i] == (manifest[i].0, Normalize(respond(manifest[i].1)))
  {
    if manifest != [] {
      var init := manifest[..|manifest| - 1];
      var last := manifest[|manifest| - 1];
      var prev := ManifestInfo(init, respond);
      ManifestInfoItems(init, respond);
      assert forall i :: 0 <= i < |prev| ==> prev[i].0 != last.0 by {
        forall i | 0 <= i < |prev|
          ensures prev[i].0 != last.0
        {
          assert prev[i].0 == init[i].0 == manifest[i].0;
        }
      }
      PutAppends(prev, last.0, Normalize(respond(last.1)));
      forall i | 0 <= i < |init|
        ensures ManifestInfo(manifest, respond)[i] == (manifest[i].0, Normalize(respond(manifest[i].1)))
      {
        assert ManifestInfo(manifest, respond)[i] == prev[i];
        assert manifest[i] == init[i];
      }
    }
  }

  /** So the result has the manifest's metric names as keys, in order ... */
  lemma ManifestInfoKeys(manifest: seq<(string, string)>, respond: string -> string)
    requires DistinctKeys(manifest)
    ensures Keys(ManifestInfo(manifest, respond)) == Keys(manifest)
    ensures DistinctKeys(ManifestInfo(manifest, respond))
  {
    ManifestInfoItems(manifest, respond);
    KeysAligned(ManifestInfo(manifest, respond), manifest);
  }

  /** ... and `get` finds each metric's normalized output. */
  lemma ManifestInfoLookup(manifest: seq<(string, string)>, respond: string -> string, i: nat)
    requires DistinctKeys(manifest) && i < |manifest|
    ensures Get(ManifestInfo(manifest, respond), manifest[i].0) == Some(Normalize(respond(manifest[i].1)))
  {
    ManifestInfoItems(manifest, respond);
    ManifestInfoKeys(manifest, respond);
    GetAt(ManifestInfo(manifest, respond), i);
  }

  /** What `collect` returns, when the loop over the matched set visits it in
      the order `order`. */
  function LinuxInfo(services: seq<string>, manifest: seq<(string, string)>, respond: string -> string,
                     order: seq<string>): (r: Result<Info, CollectError>)
    ensures r.Failure? <==> services != [] && AvailableUnits(respond).Failure?
  {
    var info := ManifestInfo(manifest, respond);
    if services == [] then Success(info)
    else match UnitStatuses(respond, order)
      case Failure(e) => Failure(e)
      case Success(statuses) => Success(Put(info, "Services", StatusMap(statuses)))
  }

  /** The commands `collect` issues, in order. */
  function LinuxCommands(services: seq<string>, manifest: seq<(string, string)>, respond: string -> string,
                         order: seq<string>): seq<string>
  {
    ManifestCommands(manifest) + if services == [] then [] else UnitCommands(respond, order)
  }

  class LinuxCollector {
    /** The effective service patterns. */
    const services: seq<string>
    /** The metric manifest, in order. */
    const collectionCommands: seq<(string, string)>

    constructor (services: seq<string>, packageCommand: string)
      ensures this.services == services
      ensures collectionCommands == Manifest(packageCommand)
    {
      this.services := services;
      collectionCommands := Manifest(packageCommand);
    }

    /** `LinuxCollector(services, distro)`: the defaults followed by the
        caller's patterns, and the manifest for the distribution family; an
        unsupported distribution is refused. */
    static method New(services: Option<seq<string>>, distro: Option<string>) returns (r: Result<LinuxCollector, ConfigError>)
      ensures r.Failure? <==> PackageCommand(distro).Failure?
      ensures r.Failure? ==> r.error == ValueError("Unsupported Distribution")
      ensures r.Success? ==> fresh(r.value)
      ensures r.Success? ==> r.value.services == EffectivePatterns(DefaultServicePatterns, services)
      ensures r.Success? ==> r.value.collectionCommands == Manifest(PackageCommand(distro).value)
    {
      var packageCommand := PackageCommand(distro);
      if packageCommand.Failure? {
        return Failure(packageCommand.error);
      }
      var collector := new LinuxCollector(EffectivePatterns(DefaultServicePatterns, services), packageCommand.value);
      return Success(collector);
    }

    /** `collect(connector)`: every manifest command in order, then, when
        there are patterns, the listing and one status command per matched
        service, visited in the order `order`. */
    method Collect(connector: Connector) returns (r: Result<Info, CollectError>, ghost order: seq<string>)
      modifies connector
      ensures r == LinuxInfo(services, collectionCommands, connector.respond, order)
      ensures connector.log == old(connector.log) + LinuxCommands(services, collectionCommands, connector.respond, order)
      ensures services != [] && AvailableUnits(connector.respond).Success? ==>
                Enumerates(order, MatchedSet(AvailableUnits(connector.respond).value, services))
    {
      var info := RunManifest(connector);
      order := [];
      if services != [] {
        ghost var afterManifest := connector.log;
        var statuses;
        statuses, order := CollectUnitStatuses(connector, services);
        ConcatAssoc(old(connector.log), ManifestCommands(collectionCommands), UnitCommands(connector.respond, order));
        if statuses.Failure? {
          return Failure(statuses.error), order;
        }
        info := Put(info, "Services", StatusMap(statuses.value));
      }
      r := Success(info);
    }

    /** The manifest loop of `collect`: each command in order, its output
        trimmed and stored under its metric name. */
    method RunManifest(connector: Connector) returns (info: Info)
      modifies connector
      ensures info == ManifestInfo(collectionCommands, connector.respond)
      ensures connector.log == old(connector.log) + ManifestCommands(collectionCommands)
    {
      info := [];
      for i := 0 to |collectionCommands|
        invariant info == ManifestInfo(collectionCommands[..i], connector.respond)
        invariant connector.log == old(connector.log) + ManifestCommands(collectionCommands[..i])
      {
        var (key, command) := collectionCommands[i];
        var result := connector.RunCommand(command);
        info := Put(info, key, Normalize(result));
        assert collectionCommands[..i + 1][..i] == collectionCommands[..i];
        ConcatAssoc(old(connector.log), ManifestCommands(collectionCommands[..i]), [command]);
      }
      assert collectionCommands[..|collectionCommands|] == collectionCommands;
    }
  }

  // ---------------------------------------------------------------------
  // What a collection yields

  /** A collection fails exactly when there are patterns and the service
      listing has a blank line. Otherwise the keys are the metric names in
      manifest order, followed by "Services" when there are patterns, and
      "Services" holds the result of the service pass. */
  lemma LinuxInfoKeys(services: seq<string>, manifest: seq<(string, string)>, respond: string -> string, order: seq<string>)
    requires DistinctKeys(manifest) && "Services" !in Keys(manifest)
    ensures var r := LinuxInfo(services, manifest, respond, order);
      && (r.Failure? <==> services != [] && AvailableUnits(respond).Failure?)
      && (r.Success? && services == [] ==> Keys(r.value) == Keys(manifest))
      && (r.Success? && services != [] ==> Keys(r.value) == Keys(manifest) + ["Services"])
      && (r.Success? && services != [] ==>
            Get(r.value, "Services") == Some(StatusMap(UnitStatuses(respond, order).value)))
  {
    var info := ManifestInfo(manifest, respond);
    ManifestInfoKeys(manifest, respond);
    if services != [] && UnitStatuses(respond, order).Success? {
      PutGet(info, "Services", StatusMap(UnitStatuses(respond, order).value), "Services");
    }
  }

  /** Each metric of a successful result holds its own command's output,
      trimmed, and split into lines when it has several. */
  lemma LinuxMetric(services: seq<string>, manifest: seq<(string, string)>, respond: string -> string, order: seq<string>, i: nat)
    requires DistinctKeys(manifest) && "Services" !in Keys(manifest) && i < |manifest|
    requires LinuxInfo(services, manifest, respond, order).Success?
    ensures Get(LinuxInfo(services, manifest, respond, order).value, manifest[i].0)
            == Some(Normalize(respond(manifest[i].1)))
  {
    var info := ManifestInfo(manifest, respond);
    ManifestInfoLookup(manifest, respond, i);
    if services != [] {
      assert manifest[i].0 in Keys(manifest);
      PutGet(info, "Services", StatusMap(UnitStatuses(respond, order).value), manifest[i].0);
    }
  }

  /** The commands of a collection: the manifest's, in order, then the
      service pass's; with a well-formed listing, one per matched name after
      the listing. */
  lemma LinuxCommandCount(services: seq<string>, manifest: seq<(string, string)>, respond: string -> string, order: seq<string>)
    requires services != [] && AvailableUnits(respond).Success?
    requires Enumerates(order, MatchedSet(AvailableUnits(respond).value, services))
    ensures var cs := LinuxCommands(services, manifest, respond, order);
      && |cs| == |manifest| + 1 + |MatchedSet(AvailableUnits(respond).value, services)|
      && (forall i :: 0 <= i < |manifest| ==> cs[i] == manifest[i].1)
      && cs[|manifest|] == ListUnitsCommand
  {
    UnitStatusesContent(services, respond, order, "");
  }

  /** A collector made by `New` has the default patterns, so it always runs
      the service pass. */
  lemma NewCollectorHasPatterns(user: Option<seq<string>>)
    ensures |EffectivePatterns(DefaultServicePatterns, user)| >= |DefaultServicePatterns| == 9
  {
  }
}
