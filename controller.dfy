/** The device controller of index.js (`RaspberryPiController`): platform
    detection, the platform gate and the action whitelist, the command line
    each operation issues and how each operation reads that command's
    outcome. `Perform` and `Issued` give the meaning of every operation as a
    function of the platform flag and of the shell's responses; the class
    `RaspberryPiController` holds the `isRaspberryPi` field and runs the
    operations step by step against a `Shell`, proved against `Perform` and
    `Issued`. */
module Controller {
  import opened Results
  import opened Strings
  import opened Arrays
  import opened Exec

  const PlatformSignature: string := "Raspberry Pi"
  const GpioUnavailable: string := "GPIO control only available on Raspberry Pi"
  const SystemControlUnavailable: string := "System control only available on Raspberry Pi"
  const TemperatureUnavailable: string := "CPU temperature only available on Raspberry Pi"
  const ValidActions: seq<string> := ["start", "stop", "restart", "enable", "disable"]
  const Rebooting: string := "System rebooting..."
  const ShuttingDown: string := "System shutting down..."
  const TemperatureCommand: string := "vcgencmd measure_temp"
  const TemperaturePrefix: string := "temp="
  const EssidMarker: string := "ESSID"

  /** The message of the error `controlService` throws for an unknown action. */
  function InvalidActionMessage(): string {
    "Invalid action. Valid actions: " + Join(ValidActions, ", ")
  }

  /** The host introspection values (`os.platform()`, `os.arch()`, ...) that
      `getSystemInfo` copies into its record; they are inputs here. */
  datatype HostInfo = HostInfo(
    platform: string, arch: string, hostname: string, uptime: real,
    loadavg: seq<real>, totalmem: int, freemem: int, cpus: nat)

  /** The `info` record of `getSystemInfo`; `temperature` is the optional
      property added when the temperature probe succeeds. */
  datatype SystemInfo = SystemInfo(host: HostInfo, temperature: Option<string>)

  /** The record `getServiceStatus` resolves with. */
  datatype ServiceStatus = ServiceStatus(service: string, status: string, active: bool)

  /** The controller's operations with their arguments. */
  datatype Operation =
    | InfoOp(host: HostInfo)
    | SetGpioOp(pin: string, state: string)
    | GetGpioOp(pin: string)
    | RebootOp
    | ShutdownOp
    | WifiStatusOp
    | WifiScanOp
    | ServiceStatusOp(name: string)
    | ServiceControlOp(name: string, action: string)
    | TemperatureOp
    | MemoryOp
    | DiskOp

  /** What an operation resolves with. */
  datatype Value =
    | Text(text: string)
    | Networks(names: seq<string>)
    | Status(status: ServiceStatus)
    | Info(info: SystemInfo)

  // ---------------------------------------------------------------------
  // Platform detection (index.js:14-21)

  /** `detectRaspberryPi`, given the text of /proc/cpuinfo or None when the
      file cannot be read: true exactly when the text contains the
      "Raspberry Pi" signature; a failed read means "not a Raspberry Pi". */
  function DetectRaspberryPi(cpuInfo: Option<string>): (r: bool)
    ensures r <==> cpuInfo.Some? && exists j: nat :: OccursAt(cpuInfo.value, PlatformSignature, j)
  {
    match cpuInfo
    case None => false
    case Some(text) => Contains(text, PlatformSignature)
  }

  // ---------------------------------------------------------------------
  // Output parsers

  /** `line.split('"')[1]`: the text after the first double quote up to the
      next one (or to the end of the line), and None (`undefined`) when the
      line has no double quote. */
  function QuotedName(line: string): (r: Option<string>)
    ensures r.Some? <==> '"' in line
    ensures r.Some? ==> '"' !in r.value
  {
    var fields := Split(line, '"');
    if |fields| > 1 then Some(fields[1]) else None
  }

  predicate MentionsEssid(line: string) {
    Contains(line, EssidMarker)
  }

  /** `.filter(name => name && name.length > 0)`: drops the undefined and the
      empty names and keeps the others in order. */
  function KeepNames(names: seq<Option<string>>): (r: seq<string>)
    ensures |r| <= |names|
    ensures forall i :: 0 <= i < |r| ==> r[i] != "" && Some(r[i]) in names
    ensures forall n :: n != "" && Some(n) in names ==> n in r
  {
    if names == [] then []
    else
      var rest := KeepNames(names[1..]);
      if names[0].Some? && names[0].value != "" then [names[0].value] + rest else rest
  }

  /** The network list of `scanWiFi` (index.js:135-138): split the output
      into lines, keep the lines mentioning ESSID, take the quoted name of
      each and drop the missing and empty names. Every name is non-empty and
      free of double quotes, and there are no more names than lines. */
  function ParseNetworks(stdout: string): (r: seq<string>)
    ensures |r| <= |Split(stdout, '\n')|
    ensures forall i :: 0 <= i < |r| ==> r[i] != "" && '"' !in r[i]
  {
    var lines := Split(stdout, '\n');
    var names := Map(Filter(lines, MentionsEssid), QuotedName);
    var r := KeepNames(names);
    assert forall i :: 0 <= i < |r| ==> '"' !in r[i] by {
      forall i | 0 <= i < |r| ensures '"' !in r[i] {
        var k :| 0 <= k < |names| && names[k] == Some(r[i]);
      }
    }
    r
  }

  /** The value `getCPUTemperature` resolves with (index.js:186): the first
      "temp=" removed, then trimmed. */
  function ParseTemperature(stdout: string): string {
    Trim(ReplaceFirst(stdout, TemperaturePrefix, ""))
  }

  /** The record `getServiceStatus` resolves with (index.js:149-153). */
  function StatusOf(name: string, stdout: string): ServiceStatus {
    var status := Trim(stdout);
    ServiceStatus(name, status, status == "active")
  }

  // ---------------------------------------------------------------------
  // Operations: the gate, the command line, and the reading of the outcome

  /** The error an operation throws before issuing any command: the platform
      gate of the device-only operations, and the action whitelist of
      `controlService`. */
  function Refusal(isPi: bool, op: Operation): Option<string> {
    match op
    case SetGpioOp(_, _) => if isPi then None else Some(GpioUnavailable)
    case GetGpioOp(_) => if isPi then None else Some(GpioUnavailable)
    case RebootOp => if isPi then None else Some(SystemControlUnavailable)
    case ShutdownOp => if isPi then None else Some(SystemControlUnavailable)
    case TemperatureOp => if isPi then None else Some(TemperatureUnavailable)
    case ServiceControlOp(_, action) =>
      if action in ValidActions then None else Some(InvalidActionMessage())
    case _ => None
  }

  /** The command line each operation hands to `exec`. */
  function CommandLine(op: Operation): string {
    match op
    case InfoOp(_) => TemperatureCommand
    case SetGpioOp(pin, state) => "raspi-gpio set " + pin + " " + state
    case GetGpioOp(pin) => "raspi-gpio get " + pin
    case RebootOp => "sudo reboot"
    case ShutdownOp => "sudo shutdown -h now"
    case WifiStatusOp => "iwconfig wlan0"
    case WifiScanOp => "sudo iwlist wlan0 scan | grep ESSID"
    case ServiceStatusOp(name) => "systemctl is-active " + name
    case ServiceControlOp(name, action) => "sudo systemctl " + action + " " + name
    case TemperatureOp => TemperatureCommand
    case MemoryOp => "free -h"
    case DiskOp => "df -h"
  }

  /** Whether the operation reaches its command: it is not refused, and
      `getSystemInfo` probes the temperature only on a Raspberry Pi. */
  predicate Probes(isPi: bool, op: Operation) {
    Refusal(isPi, op).None? && (op.InfoOp? ==> isPi)
  }

  /** The command lines an operation issues, in order. */
  function Issued(isPi: bool, op: Operation): seq<string> {
    if Probes(isPi, op) then [CommandLine(op)] else []
  }

  /** The kind of value each operation resolves with. */
  lemma ResolvedValueKind(isPi: bool, op: Operation, exec: string -> ExecOutcome)
    requires Perform(isPi, op, exec).Success?
    ensures var v := Perform(isPi, op, exec).value;
            && (op.InfoOp? <==> v.Info?)
            && (op.WifiScanOp? <==> v.Networks?)
            && (op.ServiceStatusOp? <==> v.Status?)
            && (op.InfoOp? ==> v.info.host == op.host)
            && (op.ServiceStatusOp? ==> v.status.service == op.name)
  {
  }

  /** A rejected command rejects the operation with the same error; a
      successful one resolves it with `v`. */
  function Relay(o: ExecOutcome, v: Value): Result<Value> {
    if o.Err? then Failure(o.message) else Success(v)
  }

  /** How each operation's callback settles on its command's outcome. */
  function Settle(op: Operation, o: ExecOutcome): Result<Value> {
    match op
    case InfoOp(host) =>
      Success(Info(SystemInfo(host, if o.Ok? then Some(Trim(o.stdout)) else None)))
    case SetGpioOp(pin, state) => Relay(o, Text("GPIO " + pin + " set to " + state))
    case GetGpioOp(_) => Relay(o, Text(Trim(o.stdout)))
    case RebootOp => Relay(o, Text(Rebooting))
    case ShutdownOp => Relay(o, Text(ShuttingDown))
    case WifiStatusOp => Relay(o, Text(o.stdout))
    case WifiScanOp => Relay(o, Networks(ParseNetworks(o.stdout)))
    case ServiceStatusOp(name) => Success(Status(StatusOf(name, o.stdout)))
    case ServiceControlOp(name, action) =>
      Relay(o, Text("Service " + name + " " + action + " completed"))
    case TemperatureOp => Relay(o, Text(ParseTemperature(o.stdout)))
    case MemoryOp => Relay(o, Text(o.stdout))
    case DiskOp => Relay(o, Text(o.stdout))
  }

  /** The settled result of an operation on a host whose platform flag is
      `isPi` and whose shell answers `exec`. */
  function Perform(isPi: bool, op: Operation, exec: string -> ExecOutcome): Result<Value> {
    match Refusal(isPi, op)
    case Some(message) => Failure(message)
    case None =>
      if Probes(isPi, op) then Settle(op, exec(CommandLine(op)))
      else Success(Info(SystemInfo(op.host, None)))
  }

  function AsText(r: Result<string>): Result<Value> {
    match r
    case Success(t) => Success(Text(t))
    case Failure(m) => Failure(m)
  }

  function AsNetworks(r: Result<seq<string>>): Result<Value> {
    match r
    case Success(names) => Success(Networks(names))
    case Failure(m) => Failure(m)
  }

  // ---------------------------------------------------------------------
  // Properties of the operations

  /** The device-only operations refuse with their fixed message and issue
      no command when the host is not a Raspberry Pi. */
  lemma DeviceOnlyRefused(op: Operation, exec: string -> ExecOutcome)
    requires op.SetGpioOp? || op.GetGpioOp? || op.RebootOp? || op.ShutdownOp? || op.TemperatureOp?
    ensures Issued(false, op) == []
    ensures op.SetGpioOp? || op.GetGpioOp? ==> Perform(false, op, exec) == Failure("GPIO control only available on Raspberry Pi")
    ensures op.RebootOp? || op.ShutdownOp? ==> Perform(false, op, exec) == Failure("System control only available on Raspberry Pi")
    ensures op.TemperatureOp? ==> Perform(false, op, exec) == Failure("CPU temperature only available on Raspberry Pi")
  {
  }

  lemma InvalidActionText()
    ensures InvalidActionMessage() == "Invalid action. Valid actions: start, stop, restart, enable, disable"
  {
    var a := ValidActions;
    assert a[1..] == ["stop", "restart", "enable", "disable"];
    assert a[1..][1..] == ["restart", "enable", "disable"];
    assert a[1..][1..][1..] == ["enable", "disable"];
    assert a[1..][1..][1..][1..] == ["disable"];
    var j4 := Join(a[1..][1..][1..][1..], ", ");
    assert j4 == "disable";
    var j3 := Join(a[1..][1..][1..], ", ");
    assert j3 == "enable" + ", " + j4;
    var j2 := Join(a[1..][1..], ", ");
    assert j2 == "restart" + ", " + j3;
    var j1 := Join(a[1..], ", ");
    assert j1 == "stop" + ", " + j2;
    assert Join(a, ", ") == "start" + ", " + j1;
  }

  /** `controlService` issues its command exactly when the action is one of
      the five allowed ones, and otherwise fails with the message listing
      them. */
  lemma ActionWhitelist(isPi: bool, name: string, action: string, exec: string -> ExecOutcome)
    ensures Issued(isPi, ServiceControlOp(name, action)) == [] <==>
              !(action == "start" || action == "stop" || action == "restart" || action == "enable" || action == "disable")
    ensures action !in ValidActions ==>
              Perform(isPi, ServiceControlOp(name, action), exec)
                == Failure("Invalid action. Valid actions: start, stop, restart, enable, disable")
  {
    InvalidActionText();
  }

  /** An operation that issues no command does not depend on the shell, and
      one that issues a command depends on nothing but that command's
      outcome. */
  lemma PerformDependsOnlyOnIssued(isPi: bool, op: Operation, e1: string -> ExecOutcome, e2: string -> ExecOutcome)
    requires forall c :: c in Issued(isPi, op) ==> e1(c) == e2(c)
    ensures Perform(isPi, op, e1) == Perform(isPi, op, e2)
    ensures |Issued(isPi, op)| <= 1
  {
    if Probes(isPi, op) {
      assert CommandLine(op) in Issued(isPi, op);
    }
  }

  /** A failed command fails the operation with the command's own error,
      except for the two operations that tolerate failure. */
  lemma CommandErrorPropagates(isPi: bool, op: Operation, exec: string -> ExecOutcome)
    requires Probes(isPi, op) && !op.InfoOp? && !op.ServiceStatusOp?
    requires exec(CommandLine(op)).Err?
    ensures Perform(isPi, op, exec) == Failure(exec(CommandLine(op)).message)
  {
  }

  /** The resolved messages of the mutating operations when their command
      succeeds. GPIO, reboot and shutdown pass the platform gate only on a
      Pi; service control has no platform gate, so its message holds on
      every host. */
  lemma MutatingMessages(isPi: bool, pin: string, state: string, name: string, action: string,
                         exec: string -> ExecOutcome)
    ensures exec("raspi-gpio set " + pin + " " + state).Ok? ==>
              Perform(true, SetGpioOp(pin, state), exec) == Success(Text("GPIO " + pin + " set to " + state))
    ensures action in ValidActions && exec("sudo systemctl " + action + " " + name).Ok? ==>
              Perform(isPi, ServiceControlOp(name, action), exec) == Success(Text("Service " + name + " " + action + " completed"))
    ensures exec("sudo reboot").Ok? ==> Perform(true, RebootOp, exec) == Success(Text("System rebooting..."))
    ensures exec("sudo shutdown -h now").Ok? ==> Perform(true, ShutdownOp, exec) == Success(Text("System shutting down..."))
  {
  }

  /** `getServiceStatus` always resolves, with the trimmed output, and calls
      the unit active exactly when that output is "active". */
  lemma ServiceStatusAlwaysResolves(isPi: bool, name: string, exec: string -> ExecOutcome)
    ensures Issued(isPi, ServiceStatusOp(name)) == ["systemctl is-active " + name]
    ensures var out := exec("systemctl is-active " + name).stdout;
            Perform(isPi, ServiceStatusOp(name), exec)
              == Success(Status(ServiceStatus(name, Trim(out), Trim(out) == "active")))
  {
  }

  /** A unit state printed with surrounding whitespace (as `systemctl`
      ends its line) is read back exactly; `active` holds only for
      "active", so "inactive" is not active. */
  lemma StatusOfPadded(name: string, state: string, pre: string, post: string)
    requires AllWhitespace(pre) && AllWhitespace(post)
    requires state != [] ==> !IsWhitespace(state[0]) && !IsWhitespace(state[|state| - 1])
    ensures StatusOf(name, pre + state + post) == ServiceStatus(name, state, state == "active")
  {
    TrimPadded(pre, state, post);
  }

  /** The outputs "active\n" and "inactive\n".
      (The literal text is a parameter fixed by `requires` so that the
      recursive string functions are not unfolded on it character by
      character.) */
  lemma ServiceStatusExamples(name: string, active: string, inactive: string)
    requires active == "active" && inactive == "inactive"
    ensures StatusOf(name, active + "\n") == ServiceStatus(name, "active", true)
    ensures StatusOf(name, inactive + "\n") == ServiceStatus(name, "inactive", false)
  {
    assert active + "\n" == "" + active + "\n";
    assert inactive + "\n" == "" + inactive + "\n";
    assert active[0] == 'a' && active[|active| - 1] == 'e';
    assert inactive[0] == 'i' && inactive[|inactive| - 1] == 'e';
    StatusOfPadded(name, active, "", "\n");
    StatusOfPadded(name, inactive, "", "\n");
    assert |inactive| != |"active"|;
  }

  /** `getCPUTemperature` strips only the leading "temp=" and then trims:
      "temp=" followed by `x` reads as `x` trimmed, whatever `x` holds. */
  lemma TemperatureReading(x: string, exec: string -> ExecOutcome)
    requires exec(TemperatureCommand) == Ok("temp=" + x)
    ensures Issued(true, TemperatureOp) == ["vcgencmd measure_temp"]
    ensures Perform(true, TemperatureOp, exec) == Success(Text(Trim(x)))
  {
    TemperaturePrefixStripped(x);
    assert Perform(true, TemperatureOp, exec) == Settle(TemperatureOp, exec(TemperatureCommand));
  }

  /** Only the leading "temp=" is removed: any further "temp=" in `x` stays. */
  lemma TemperaturePrefixStripped(x: string)
    ensures ParseTemperature("temp=" + x) == Trim(x)
  {
    ReplaceFirstAtStart(TemperaturePrefix, x, "");
    assert "" + x == x;
  }

  /** The reading of the output "temp=55.0'C\n".
      (The literal text is a parameter fixed by `requires` so that the
      recursive string functions are not unfolded on it character by
      character.) */
  lemma TemperatureExample(reading: string)
    requires reading == "55.0'C"
    ensures ParseTemperature(TemperaturePrefix + reading + "\n") == reading
  {
    var newline := "\n";
    assert TemperaturePrefix + reading + newline == TemperaturePrefix + (reading + newline);
    TemperaturePrefixStripped(reading + newline);
    assert reading[0] == '5' && reading[|reading| - 1] == 'C';
    assert AllWhitespace(newline);
    TrimPadded("", reading, newline);
    assert "" + reading + newline == reading + newline;
  }

  /** Output without "temp=" is only trimmed. */
  lemma TemperatureWithoutPrefix(stdout: string)
    requires !Contains(stdout, "temp=")
    ensures ParseTemperature(stdout) == Trim(stdout)
  {
    ReplaceFirstAbsent(stdout, TemperaturePrefix, "");
  }

  /** `getSystemInfo` never fails; it probes the temperature only on a
      Raspberry Pi, and its record has a temperature exactly when the probe
      ran and succeeded, holding the trimmed output with "temp=" kept. */
  lemma SystemInfoTolerant(isPi: bool, host: HostInfo, exec: string -> ExecOutcome)
    ensures Issued(isPi, InfoOp(host)) == if isPi then ["vcgencmd measure_temp"] else []
    ensures Perform(isPi, InfoOp(host), exec).Success?
    ensures Perform(isPi, InfoOp(host), exec).value.Info?
    ensures var info := Perform(isPi, InfoOp(host), exec).value.info;
            var probe := exec("vcgencmd measure_temp");
            && info.host == host
            && (info.temperature.Some? <==> isPi && probe.Ok?)
            && (info.temperature.Some? ==> info.temperature.value == Trim(probe.stdout))
  {
  }

  /** Off a Pi there is no temperature; on a Pi whose probe prints
      "temp=55.0'C\n" the temperature keeps its "temp=" prefix.
      (The literal text is a parameter fixed by `requires` so that the
      recursive string functions are not unfolded on it character by
      character.) */
  lemma SystemInfoExample(host: HostInfo, exec: string -> ExecOutcome, reading: string)
    requires reading == "temp=55.0'C"
    requires exec(TemperatureCommand) == Ok(reading + "\n")
    ensures Perform(true, InfoOp(host), exec) == Success(Info(SystemInfo(host, Some(reading))))
    ensures Perform(false, InfoOp(host), exec) == Success(Info(SystemInfo(host, None)))
  {
    assert reading[0] == 't' && reading[|reading| - 1] == 'C';
    TrimPadded("", reading, "\n");
    assert "" + reading + "\n" == reading + "\n";
    assert Perform(true, InfoOp(host), exec) == Settle(InfoOp(host), exec(TemperatureCommand));
  }

  /** Any cpuinfo text carrying the signature is detected, and a failed
      read is not. */
  lemma DetectSignature(before: string, after: string)
    ensures DetectRaspberryPi(Some(before + "Raspberry Pi" + after))
    ensures !DetectRaspberryPi(None)
  {
    ContainsInfix(before, PlatformSignature, after);
  }

  // ---------------------------------------------------------------------
  // Properties of the Wi-Fi scan parser

  /** The quoted name of a line is the text between its first double quote
      and the next one, or the end of the line. */
  lemma QuotedNameOf(pre: string, name: string, rest: string)
    requires '"' !in pre && '"' !in name
    requires rest == [] || rest[0] == '"'
    ensures QuotedName(pre + ['"'] + name + rest) == Some(name)
  {
    if rest == [] {
      assert pre + ['"'] + name + rest == pre + ['"'] + name;
      SplitFields(pre, name, [], '"');
    } else {
      assert pre + ['"'] + name + rest == pre + ['"'] + name + ['"'] + rest[1..];
      SplitFields(pre, name, rest[1..], '"');
    }
  }

  lemma {:induction false} KeepNamesConcat(a: seq<Option<string>>, b: seq<Option<string>>)
    ensures KeepNames(a + b) == KeepNames(a) + KeepNames(b)
  {
    if a == [] {
      assert a + b == b;
    } else {
      assert (a + b)[1..] == a[1..] + b;
      KeepNamesConcat(a[1..], b);
    }
  }

  /** The scan of two outputs joined by a line break is the scan of the first
      followed by the scan of the second: order is preserved and nothing is
      merged or deduplicated across lines. */
  lemma ParseNetworksConcat(a: string, b: string)
    ensures ParseNetworks(a + "\n" + b) == ParseNetworks(a) + ParseNetworks(b)
  {
    assert a + "\n" + b == a + ['\n'] + b;
    SplitConcat(a, b, '\n');
    var la, lb := Split(a, '\n'), Split(b, '\n');
    FilterConcat(la, lb, MentionsEssid);
    var fa, fb := Filter(la, MentionsEssid), Filter(lb, MentionsEssid);
    MapConcat(fa, fb, QuotedName);
    KeepNamesConcat(Map(fa, QuotedName), Map(fb, QuotedName));
  }

  /** One line yields its quoted name when it mentions ESSID and that name
      exists and is non-empty, and nothing otherwise. */
  lemma ParseNetworksLine(line: string)
    requires '\n' !in line
    ensures ParseNetworks(line) ==
              if MentionsEssid(line) && QuotedName(line).Some? && QuotedName(line).value != ""
              then [QuotedName(line).value] else []
  {
    SplitWithoutSeparator(line, '\n');
    assert Filter([line], MentionsEssid) == if MentionsEssid(line) then [line] else [];
  }

  /** An `iwlist` line, `<indent>ESSID:"<name>"`, yields its name, or
      nothing when the name is empty; a name whose closing quote is missing
      runs to the end of the line. */
  lemma EssidLine(pre: string, name: string, close: string)
    requires MentionsEssid(pre) && '"' !in pre && '\n' !in pre
    requires '"' !in name && '\n' !in name
    requires close == "" || close == "\""
    ensures ParseNetworks(pre + "\"" + name + close) == if name == "" then [] else [name]
  {
    var line := pre + "\"" + name + close;
    assert line == pre + (['"'] + name + close);
    ContainsExtended(pre, ['"'] + name + close, EssidMarker);
    QuotedNameOf(pre, name, close);
    assert '\n' !in close;
    ParseNetworksLine(line);
  }

  /** A line with an empty name contributes nothing; the others keep their
      order. */
  lemma ScanDropsEmptyName(pre: string, name: string)
    requires MentionsEssid(pre) && '"' !in pre && '\n' !in pre
    requires name != "" && '"' !in name && '\n' !in name
    ensures var named, empty := pre + "\"" + name + "\"", pre + "\"" + "" + "\"";
            ParseNetworks(named + "\n" + empty) == [name]
  {
    ParseNetworksConcat(pre + "\"" + name + "\"", pre + "\"" + "" + "\"");
    EssidLine(pre, name, "\"");
    EssidLine(pre, "", "\"");
  }

  /** Two lines with the same name give that name twice. */
  lemma ScanKeepsDuplicates(pre: string, name: string)
    requires MentionsEssid(pre) && '"' !in pre && '\n' !in pre
    requires name != "" && '"' !in name && '\n' !in name
    ensures var line := pre + "\"" + name + "\"";
            ParseNetworks(line + "\n" + line) == [name, name]
  {
    var line := pre + "\"" + name + "\"";
    ParseNetworksConcat(line, line);
    EssidLine(pre, name, "\"");
  }

  /** A line without ESSID is skipped. */
  lemma ScanSkipsOtherLines(other: string, pre: string, name: string)
    requires !MentionsEssid(other) && '\n' !in other
    requires MentionsEssid(pre) && '"' !in pre && '\n' !in pre
    requires name != "" && '"' !in name && '\n' !in name
    ensures ParseNetworks(other + "\n" + (pre + "\"" + name + "\"")) == [name]
  {
    ParseNetworksConcat(other, pre + "\"" + name + "\"");
    ParseNetworksLine(other);
    EssidLine(pre, name, "\"");
  }

  // ---------------------------------------------------------------------
  // The controller object

  class RaspberryPiController {
    var isRaspberryPi: bool
    const shell: Shell

    /** Detects the platform once, from the text of /proc/cpuinfo (None when
        it cannot be read). */
    constructor (cpuInfo: Option<string>, shell: Shell)
      ensures isRaspberryPi == DetectRaspberryPi(cpuInfo)
      ensures this.shell == shell
    {
      isRaspberryPi := DetectRaspberryPi(cpuInfo);
      this.shell := shell;
    }

    /** Builds the record from the host values, then adds the trimmed probe
        output as `temperature` when the probe runs and succeeds. */
    method GetSystemInfo(host: HostInfo) returns (info: SystemInfo)
      modifies shell
      ensures shell.log == old(shell.log) + Issued(isRaspberryPi, InfoOp(host))
      ensures Perform(isRaspberryPi, InfoOp(host), shell.respond) == Success(Info(info))
    {
      info := SystemInfo(host, None);
      if isRaspberryPi {
        var o := shell.Exec(TemperatureCommand);
        if o.Ok? {
          info := info.(temperature := Some(Trim(o.stdout)));
        }
      }
    }

    method SetGPIO(pin: string, state: string) returns (r: Result<string>)
      modifies shell
      ensures shell.log == old(shell.log) + Issued(isRaspberryPi, SetGpioOp(pin, state))
      ensures Perform(isRaspberryPi, SetGpioOp(pin, state), shell.respond) == AsText(r)
    {
      if !isRaspberryPi {
        return Failure(GpioUnavailable);
      }
      var o := shell.Exec("raspi-gpio set " + pin + " " + state);
      if o.Err? {
        r := Failure(o.message);
      } else {
        r := Success("GPIO " + pin + " set to " + state);
      }
    }

    method GetGPIO(pin: string) returns (r: Result<string>)
      modifies shell
      ensures shell.log == old(shell.log) + Issued(isRaspberryPi, GetGpioOp(pin))
      ensures Perform(isRaspberryPi, GetGpioOp(pin), shell.respond) == AsText(r)
    {
      if !isRaspberryPi {
        return Failure(GpioUnavailable);
      }
      var o := shell.Exec("raspi-gpio get " + pin);
      if o.Err? {
        r := Failure(o.message);
      } else {
        r := Success(Trim(o.stdout));
      }
    }

    method Reboot() returns (r: Result<string>)
      modifies shell
      ensures shell.log == old(shell.log) + Issued(isRaspberryPi, RebootOp)
      ensures Perform(isRaspberryPi, RebootOp, shell.respond) == AsText(r)
    {
      if !isRaspberryPi {
        return Failure(SystemControlUnavailable);
      }
      var o := shell.Exec("sudo reboot");
      if o.Err? {
        r := Failure(o.message);
      } else {
        r := Success(Rebooting);
      }
    }

    method Shutdown() returns (r: Result<string>)
      modifies shell
      ensures shell.log == old(shell.log) + Issued(isRaspberryPi, ShutdownOp)
      ensures Perform(isRaspberryPi, ShutdownOp, shell.respond) == AsText(r)
    {
      if !isRaspberryPi {
        return Failure(SystemControlUnavailable);
      }
      var o := shell.Exec("sudo shutdown -h now");
      if o.Err? {
        r := Failure(o.message);
      } else {
        r := Success(ShuttingDown);
      }
    }

    method GetWiFiStatus() returns (r: Result<string>)
      modifies shell
      ensures shell.log == old(shell.log) + Issued(isRaspberryPi, WifiStatusOp)
      ensures Perform(isRaspberryPi, WifiStatusOp, shell.respond) == AsText(r)
    {
      var o := shell.Exec("iwconfig wlan0");
      if o.Err? {
        r := Failure(o.message);
      } else {
        r := Success(o.stdout);
      }
    }

    method ScanWiFi() returns (r: Result<seq<string>>)
      modifies shell
      ensures shell.log == old(shell.log) + Issued(isRaspberryPi, WifiScanOp)
      ensures Perform(isRaspberryPi, WifiScanOp, shell.respond) == AsNetworks(r)
    {
      var o := shell.Exec("sudo iwlist wlan0 scan | grep ESSID");
      assert Perform(isRaspberryPi, WifiScanOp, shell.respond) == Relay(o, Networks(ParseNetworks(o.stdout)));
      if o.Err? {
        r := Failure(o.message);
      } else {
        r := Success(ParseNetworks(o.stdout));
      }
    }

    /** Resolves whatever the command's outcome: `systemctl is-active` exits
        non-zero for a unit that is not active. */
    method GetServiceStatus(serviceName: string) returns (s: ServiceStatus)
      modifies shell
      ensures shell.log == old(shell.log) + Issued(isRaspberryPi, ServiceStatusOp(serviceName))
      ensures Perform(isRaspberryPi, ServiceStatusOp(serviceName), shell.respond) == Success(Status(s))
    {
      var o := shell.Exec("systemctl is-active " + serviceName);
      s := StatusOf(serviceName, o.stdout);
    }

    method ControlService(serviceName: string, action: string) returns (r: Result<string>)
      modifies shell
      ensures shell.log == old(shell.log) + Issued(isRaspberryPi, ServiceControlOp(serviceName, action))
      ensures Perform(isRaspberryPi, ServiceControlOp(serviceName, action), shell.respond) == AsText(r)
    {
      if action !in ValidActions {
        return Failure(InvalidActionMessage());
      }
      var o := shell.Exec("sudo systemctl " + action + " " + serviceName);
      if o.Err? {
        r := Failure(o.message);
      } else {
        r := Success("Service " + serviceName + " " + action + " completed");
      }
    }

    method GetCPUTemperature() returns (r: Result<string>)
      modifies shell
      ensures shell.log == old(shell.log) + Issued(isRaspberryPi, TemperatureOp)
      ensures Perform(isRaspberryPi, TemperatureOp, shell.respond) == AsText(r)
    {
      if !isRaspberryPi {
        return Failure(TemperatureUnavailable);
      }
      var o := shell.Exec(TemperatureCommand);
      if o.Err? {
        r := Failure(o.message);
      } else {
        r := Success(Trim(ReplaceFirst(o.stdout, TemperaturePrefix, "")));
      }
    }

    method GetMemoryInfo() returns (r: Result<string>)
      modifies shell
      ensures shell.log == old(shell.log) + Issued(isRaspberryPi, MemoryOp)
      ensures Perform(isRaspberryPi, MemoryOp, shell.respond) == AsText(r)
    {
      var o := shell.Exec("free -h");
      if o.Err? {
        r := Failure(o.message);
      } else {
        r := Success(o.stdout);
      }
    }

    method GetDiskUsage() returns (r: Result<string>)
      modifies shell
      ensures shell.log == old(shell.log) + Issued(isRaspberryPi, DiskOp)
      ensures Perform(isRaspberryPi, DiskOp, shell.respond) == AsText(r)
    {
      var o := shell.Exec("df -h");
      if o.Err? {
        r := Failure(o.message);
      } else {
        r := Success(o.stdout);
      }
    }
  }
}
