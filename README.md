# MASTERBOT controller and API, modelled in Dafny

MASTERBOT is a Node.js control panel for a Raspberry Pi. Its core has two parts:

- **`RaspberryPiController`** (`index.js`). At construction it decides whether the host is a Raspberry Pi, by looking for "Raspberry Pi" in the text of `/proc/cpuinfo`. Each operation runs at most one shell command through `child_process.exec` and turns the command's outcome into a resolved value or a rejection. There are three exceptions. An operation refused by the platform gate or the action whitelist runs nothing and rejects. `getSystemInfo` runs no command off a Pi, and it never rejects, even when its temperature probe fails. `getServiceStatus` also never rejects. The operations cover system information, GPIO read and write, reboot and shutdown, WiFi status and scan, systemd service status and control, CPU temperature, memory and disk.
  - The GPIO, reboot, shutdown and temperature operations refuse to run off a Pi ("the platform gate").
  - Service control refuses any action outside `start`, `stop`, `restart`, `enable` and `disable` ("the action whitelist").
- **The Express API** (`server.js`). A `basicAuth` middleware guards every `/api` route. Each route awaits one controller operation and answers like this:
  - `200 {success: true, data}` when the operation resolves;
  - `500 {success: false, error}` when it rejects;
  - `401 {error}` when authentication fails.

  `GET /health` is not guarded.

The Dafny project has these modules:

| file | module | contents |
|---|---|---|
| `results.dfy` | `Results` | `Option` and `Result` |
| `strings.dfy` | `Strings` | The JavaScript string built-ins the core relies on: `includes`, `split` on one character, `join`, `trim` with ECMAScript's white-space set, and `replace` of a string's first occurrence. `split` and `trim` come with properties that determine them completely. `includes`, `replace` and `join` come with their general properties: where and whether the pattern occurs, which occurrence is replaced, and how joining composes. |
| `arrays.dfy` | `Arrays` | `Array.prototype.filter` and `map` |
| `exec.dfy` | `Exec` | `Shell`, the model of `exec`: a fixed response per command line, plus a ghost log of the command lines issued |
| `controller.dfy` | `Controller` | See below. |
| `server.dfy` | `Server` | JSON values, the `basicAuth` decision, the response envelopes, each route's payload, and `Serve`, the answer to a request. The methods `Handle`/`RunHandler` run a request against a controller. |

`controller.dfy` has two layers:

- **A pure layer.** `Refusal` is the platform gate and the whitelist. `CommandLine` gives the exact command each operation issues and `Settle` says how each callback reads that command's outcome. `Perform` and `Issued` combine them into the meaning of each operation.
- **The class `RaspberryPiController`.** It has the `isRaspberryPi` field, and its methods run the same steps against a `Shell`. Each method is proved to issue exactly `Issued(...)` and to return exactly what `Perform(...)` says.

## Model

| member | source | states |
|---|---|---|
| Strings.IsWhitespace | index.js:40 | No contract; defined as the characters `trim` removes: ECMAScript's WhiteSpace and LineTerminator code points (tab, line feed, vertical tab, form feed, carriage return, space, no-break space, U+1680, U+2000 to U+200A, U+2028, U+2029, U+202F, U+205F, U+3000 and U+FEFF). |
| Strings.IndexFrom | index.js:17 | The result is the first occurrence of the pattern at or after `from`, or there is none. |
| Strings.IndexOf | index.js:17 | The result is the first position where the pattern occurs, or the pattern occurs nowhere. |
| Strings.Contains | index.js:17 | `includes` holds exactly when the pattern occurs at some position. |
| Strings.ContainsInfix | index.js:136 | A string built as `a + p + b` includes `p`. |
| Strings.ContainsExtended | index.js:136 | A string that includes `p` still includes it when text is appended. |
| Strings.Split | index.js:135 | `split` on one character gives at least one piece. No piece contains the separator, and joining the pieces with the separator gives back the input. |
| Strings.SplitWithoutSeparator | server.js:35 | A string without the separator splits into itself alone. |
| Strings.SplitConcat | index.js:135 | Splitting `a + sep + b` gives the pieces of `a` followed by the pieces of `b`. |
| Strings.SplitFields | server.js:35-37 | `x:y` and `x:y:rest` (all parts free of `:`) split into `x`, `y` and then the pieces of `rest`. |
| Strings.TrimStartSpec | index.js:40 | Trimming the start leaves a suffix of the input, removes only white space, and leaves no leading white space. |
| Strings.TrimEndSpec | index.js:40 | Trimming the end leaves a prefix of the input, removes only white space, and leaves no trailing white space. |
| Strings.TrimSpec | index.js:152 | `trim` gives a slice of the input, padded on both sides by white space only, that neither starts nor ends with white space. |
| Strings.TrimPadded | index.js:186 | Trimming a string padded with white space on both sides gives back the string. |
| Strings.TrimStartBlank | index.js:40 | A string made only of white space trims to empty. |
| Strings.TrimStartPadded | index.js:40 | Leading white space is dropped and nothing else. |
| Strings.TrimEndPadded | index.js:40 | Trailing white space is dropped and nothing else. |
| Strings.ReplaceFirstAtStart | index.js:186 | Replacing `p` in `p + x` replaces that leading occurrence. |
| Strings.ReplaceFirstAbsent | index.js:186 | `replace` leaves a string without the pattern unchanged. |
| Strings.ReplaceFirst | index.js:186 | No contract; defined as the text before the first occurrence (found by `IndexOf`), then the replacement, then the text after it, or the unchanged string when the pattern is absent. Its lemmas are `ReplaceFirstSpec`, `ReplaceFirstAtStart` and `ReplaceFirstAbsent`. |
| Strings.ReplaceFirstSpec | index.js:186 | Without an occurrence the string is unchanged. Otherwise the result replaces the occurrence at the first position where the pattern occurs, and only that one. |
| Strings.Join | index.js:161 | No contract; defined as the pieces with the separator between consecutive ones, and `""` for no pieces. `Split`'s contract and `JoinConcat` are about it. |
| Strings.JoinConcat | index.js:161 | Joining two non-empty lists is joining each and placing the separator between the two results. |
| Strings.TrimStart | index.js:40 | No contract; defined as dropping white space characters from the front one at a time. `TrimStartSpec` states what it does. |
| Strings.TrimEnd | index.js:40 | No contract; defined as dropping white space characters from the back one at a time. `TrimEndSpec` states what it does. |
| Strings.Trim | index.js:40 | No contract; defined as `TrimEnd(TrimStart(s))`, the model of `String.prototype.trim`, with its properties in `TrimSpec` and `TrimPadded`. |
| Arrays.Filter | index.js:136-138 | `filter` keeps exactly the elements of the input that satisfy the predicate: each element kept satisfies it and comes from the input, and each input element that satisfies it is kept. It never yields more than the input's length. |
| Arrays.Map | index.js:137 | `map` keeps the length, and each element is the function applied to the input at the same index. |
| Arrays.FilterConcat | index.js:136 | Filtering distributes over concatenation. |
| Arrays.MapConcat | index.js:137 | Mapping distributes over concatenation. |
| Exec.Shell.constructor | index.js:3 | A fresh shell has answered nothing yet. |
| Exec.Shell.Exec | index.js:3 | `exec` answers the shell's response for that command line and records the command line as issued. |
| Controller.DetectRaspberryPi | index.js:14-21 | The host is a Pi exactly when `/proc/cpuinfo` could be read and contains "Raspberry Pi". An unreadable file means not a Pi. |
| Controller.DetectSignature | index.js:14-21 | Any text around "Raspberry Pi" is detected as a Pi, and an unreadable cpuinfo is detected as not a Pi. |
| Controller.RaspberryPiController.constructor | index.js:9-12 | `isRaspberryPi` is the detection result for the given cpuinfo text. |
| Controller.RaspberryPiController.GetSystemInfo | index.js:24-48 | The method issues exactly `Issued` (the temperature probe, only on a Pi) and returns the record that `Perform` gives. |
| Controller.SystemInfoTolerant | index.js:37-46 | `getSystemInfo` never rejects and keeps the host values. It probes only on a Pi. `temperature` is present exactly when the host is a Pi and the probe succeeded, and it is then the trimmed output. |
| Controller.SystemInfoExample | __tests__/controller.test.js:16-29 | Off a Pi there is no temperature. On a Pi with output `temp=55.0'C\n` the temperature is `temp=55.0'C`, still carrying its prefix. |
| Controller.RaspberryPiController.SetGPIO | index.js:51-65 | The method issues exactly `Issued` (nothing off a Pi) and returns what `Perform` gives: the gate's error, the command's error, or "GPIO <pin> set to <state>". |
| Controller.RaspberryPiController.GetGPIO | index.js:67-81 | Same shape as `SetGPIO`; on success the result is the trimmed output of `raspi-gpio get <pin>`. |
| Controller.RaspberryPiController.Reboot | index.js:84-98 | Same shape as `SetGPIO`; the gate's error is the system-control message and success gives "System rebooting...". |
| Controller.RaspberryPiController.Shutdown | index.js:100-114 | Same shape as `Reboot`, with `sudo shutdown -h now` and "System shutting down...". |
| Controller.RaspberryPiController.GetWiFiStatus | index.js:117-127 | The method runs `iwconfig wlan0` on any host. It resolves with the raw output, or rejects with the command's error. |
| Controller.RaspberryPiController.ScanWiFi | index.js:129-143 | The method runs the scan pipeline once and returns `ParseNetworks` of the output, or the command's error. |
| Controller.QuotedName | index.js:137 | `line.split('"')[1]` is defined exactly when the line has a `"`, and the name it gives contains no `"`. |
| Controller.QuotedNameOf | index.js:137 | The text between the first `"` and the next `"` (or the end of the line) is the name. |
| Controller.KeepNames | index.js:138 | The final filter keeps exactly the defined, non-empty names of its input: each name kept is one of them, and each of them is kept. |
| Controller.KeepNamesConcat | index.js:138 | The final filter distributes over concatenation. |
| Controller.ParseNetworks | index.js:135-138 | There are no more networks than lines, and every network name is non-empty and free of `"`. |
| Controller.ParseNetworksConcat | index.js:135-138 | Parsing works line by line: the networks of `a\nb` are those of `a` followed by those of `b`. |
| Controller.ParseNetworksLine | index.js:135-138 | A single line yields a network exactly when it mentions ESSID and has a non-empty quoted name. |
| Controller.EssidLine | index.js:135-138 | A line `<text with ESSID>"name"` yields `[name]`, or nothing when the name is empty. This holds also when the closing quote is missing. |
| Controller.ScanDropsEmptyName | index.js:138 | Empty ESSIDs are dropped from the list. |
| Controller.ScanKeepsDuplicates | index.js:135-138 | A network listed twice is reported twice; there is no de-duplication. |
| Controller.ScanSkipsOtherLines | index.js:136 | Lines that do not mention ESSID are dropped. |
| Controller.MentionsEssid | index.js:136 | No contract; defined as `Contains(line, "ESSID")`, the first filter of the scan. `Contains` states its meaning. |
| Controller.RaspberryPiController.GetServiceStatus | index.js:146-156 | The method runs `systemctl is-active <name>` on any host and always returns the status record that `Perform` gives. |
| Controller.ServiceStatusAlwaysResolves | index.js:146-156 | `getServiceStatus` resolves even when the command fails. The status is the trimmed stdout, and `active` holds exactly when that status is "active". |
| Controller.StatusOfPadded | index.js:151-152 | A unit state printed with surrounding white space is read back exactly, and `active` holds only for "active". |
| Controller.ServiceStatusExamples | index.js:151-152 | `active\n` gives status "active" with `active` true. `inactive\n` gives status "inactive" with `active` false. |
| Controller.RaspberryPiController.ControlService | index.js:158-173 | The method issues exactly `Issued` (nothing for an action outside the whitelist, on any host) and returns what `Perform` gives. |
| Controller.ActionWhitelist | index.js:159-162 | No command is issued exactly when the action is not one of the five. Such an action is rejected with the whitelist message on every host. |
| Controller.InvalidActionText | index.js:161 | The whitelist message reads "Invalid action. Valid actions: start, stop, restart, enable, disable". |
| Controller.InvalidActionMessage | index.js:161 | No contract; defined as the fixed prefix followed by `Join(ValidActions, ", ")`. `InvalidActionText` gives its value. |
| Controller.StatusOf | index.js:149-153 | No contract; defined as the record with the service name, the trimmed stdout, and whether that is "active". `StatusOfPadded` and `ServiceStatusAlwaysResolves` are about it. |
| Controller.ParseTemperature | index.js:186 | No contract; defined as `Trim(ReplaceFirst(stdout, "temp=", ""))`. `TemperaturePrefixStripped`, `TemperatureWithoutPrefix` and `TemperatureExample` are about it. |
| Controller.RaspberryPiController.GetCPUTemperature | index.js:176-191 | The method issues exactly `Issued` and returns what `Perform` gives: the gate's error, the command's error, or the parsed reading. |
| Controller.TemperatureReading | index.js:181-188 | On a Pi, output `temp=x` gives the reading `trim(x)`. |
| Controller.TemperaturePrefixStripped | index.js:186 | `replace('temp=', '').trim()` on `temp=x` is `trim(x)`. |
| Controller.TemperatureWithoutPrefix | index.js:186 | Output without `temp=` is only trimmed. |
| Controller.TemperatureExample | __tests__/controller.test.js:33-39 | The output `temp=55.0'C\n` parses to `55.0'C`. |
| Controller.RaspberryPiController.GetMemoryInfo | index.js:193-203 | The method runs `free -h` on any host and returns the raw output or the command's error. |
| Controller.RaspberryPiController.GetDiskUsage | index.js:205-215 | The method runs `df -h` on any host and returns the raw output or the command's error. |
| Controller.DeviceOnlyRefused | index.js:52-54 | Off a Pi, the GPIO, reboot, shutdown and temperature operations issue no command and reject with their own messages. |
| Controller.PerformDependsOnlyOnIssued | index.js:24-215 | An operation's result depends only on the shell's answers to the commands it issues, and it issues at most one. |
| Controller.CommandErrorPropagates | index.js:58-59 | Every operation except system info and service status rejects with the command's error whenever its command fails. |
| Controller.MutatingMessages | index.js:61 | When their command succeeds, the write operations resolve with their fixed messages: GPIO set, reboot and shutdown on a Pi, and service control (a whitelisted action) on any host. |
| Controller.Refusal | index.js:52-179 | No contract; defined as the error thrown before any command. Off a Pi, the GPIO operations give the GPIO message, reboot and shutdown the system-control message, and the temperature the CPU-temperature message. On every host, an action outside the five gives the whitelist message. Every other case gives none. `DeviceOnlyRefused` and `ActionWhitelist` are about it. |
| Controller.CommandLine | index.js:38-207 | No contract; defined as the exact command each operation passes to `exec`: `vcgencmd measure_temp`, `raspi-gpio set/get <pin> …`, `sudo reboot`, `sudo shutdown -h now`, `iwconfig wlan0`, the scan `sudo iwlist wlan0 scan` piped into `grep ESSID`, `systemctl is-active <name>`, `sudo systemctl <action> <name>`, `free -h` and `df -h`. |
| Controller.Probes | index.js:37-46 | No contract; defined as: the operation is not refused, and system info only on a Pi. Such an operation is one that calls `exec`. |
| Controller.Issued | index.js:24-215 | No contract; defined as `[CommandLine(op)]` when the operation is not refused and actually probes (system info probes only on a Pi), and `[]` otherwise. `PerformDependsOnlyOnIssued`, `DeviceOnlyRefused`, `ActionWhitelist` and `SystemInfoTolerant` are about it. |
| Controller.Relay | index.js:58-62 | No contract; defined as the callback shape shared by the rejecting operations: a command error rejects with its message, and success resolves with the given value. |
| Controller.Settle | index.js:38-213 | No contract; defined as each operation's callback on its command outcome. System info and service status never reject. Every other operation relays the error, or resolves with its message, its trimmed output, its parsed networks or its parsed reading. `CommandErrorPropagates`, `MutatingMessages` and `ServiceStatusAlwaysResolves` are about it. |
| Controller.Perform | index.js:24-215 | No contract; defined as `Refusal` when it applies, otherwise `Settle` on the shell's answer to `CommandLine` (or, for system info off a Pi, the record without temperature). It is the specification the class methods are proved against, and the lemmas of this table are about it. |
| Controller.ResolvedValueKind | index.js:24-215 | System info resolves with a record for the same host. Service status resolves with a record for the same service. Scan resolves with a list. All the others resolve with text. |
| Server.Keys | server.js:50 | No contract; defined as the property names of an object, in order, and none for any other value. |
| Server.Get | server.js:50 | No contract; defined as the value of the first member with that key, or `None`. |
| Server.Field | server.js:59 | `{key: value}` has exactly that key, bound to that value. |
| Server.BasicAuth | server.js:24-44 | With auth disabled every request passes. A refusal is one of the two messages. "Authentication required" is given exactly when auth is enabled and the header is absent or empty. |
| Server.CredentialsAccepted | server.js:35-43 | Take a username and a password free of `:`. Then a request is accepted exactly when the decoded header is `username:password`, or that text followed by `:` and anything. |
| Server.PasswordTruncatedAtColon | server.js:35-37 | Only the first two `:`-fields are compared, so anything after a second `:` is ignored. |
| Server.ColonCredentialsNeverMatch | server.js:35-39 | A configured username or password that contains `:` can never be matched. With auth enabled, every request is then refused. |
| Server.AuthDisabledIgnoresHeader | server.js:25-27 | With auth disabled the header is irrelevant. |
| Server.RefusalsShareStatus | server.js:31 | Every refusal is a 401 whose body is only `error`, with one of the two messages. |
| Server.AdminSecretAccepted | server.js:35-40 | For the user "admin" with password "secret", `admin:secret` passes. |
| Server.AdminWrongRefused | server.js:39-43 | For the user "admin" with password "secret", `admin:wrong` is refused with "Invalid credentials". |
| Server.AdminSecretServed | server.js:65-72 | With the right credentials, `/system/memory` answers the 200 envelope with `data` `{memory: <output of free -h>}`. |
| Server.AdminWrongUnauthorized | server.js:39-43 | With a wrong password, the answer is 401 with an error and no data. |
| Server.Unauthorized | server.js:31 | The 401 answer has the status 401, and its only key is `error`, holding the reason. It has neither `success` nor `data`. |
| Server.OkResponse | server.js:50 | The 200 answer has the keys `success` (true) and `data`, in that order. |
| Server.ServerErrorResponse | server.js:52 | The 500 answer has the keys `success` (false) and `error`, holding the message, and no `data`. |
| Server.InfoJson | server.js:49-50 | No contract; defined as the record `getSystemInfo` resolves with, as a JSON object: the eight host properties in source order, then `temperature` when present. `InfoKeys` is about it. |
| Server.StatusJson | server.js:125-126 | No contract; defined as `{service, status, active}` from the status record. `PayloadKeys` is about it. |
| Server.Payload | server.js:50-155 | No contract; defined as what each route's handler puts under `data` for the value it awaited. `PayloadKeys` states its keys. |
| Server.TemplateText | server.js:114-115 | No contract; defined as the text a template literal gives a body field: the string itself, or "undefined" when it is missing. `GpioPostWithoutState` is about it. |
| Server.OperationOf | server.js:47-159 | No contract; defined as the controller call each `/api` route's handler awaits, with the route parameters and the body's `state` as arguments. |
| Server.HealthResponse | server.js:171-177 | No contract; defined as `200 {status: "healthy", timestamp, version: "1.0.0"}`. `HealthUnguarded` is about it. |
| Server.Serve | server.js:24-177 | No contract; defined as the answer to a request. `/health` answers at once. Otherwise `basicAuth` decides between the 401 answer and the handler, and the handler answers 200 with the payload or 500 with the error. `StatusCodes`, `RefusedRequestsRunNothing`, `HealthUnguarded` and `TolerantRoutes` are about it. |
| Server.ServeIssues | server.js:47-159 | No contract; defined as the commands a request issues: none for `/health` or a refused request, and otherwise the handler operation's `Issued`. `RefusedRequestsRunNothing` and `HealthUnguarded` are about it. |
| Server.InfoKeys | server.js:49-50 | The system-info data lists the eight host properties. It lists `temperature` exactly when a reading was obtained. |
| Server.PayloadKeys | server.js:47-159 | Each route's `data` has exactly its own property names: `temperature`, `memory`, `disk`, `status`, `networks`, `pin`/`state`, `service`/`status`/`active`, or `message`. |
| Server.AcceptedRequestServed | server.js:47-159 | A request that passes `basicAuth` gets its handler's 200 or 500 answer. |
| Server.RefusedRequestsRunNothing | server.js:24-44 | A refused request gets the 401 and reaches no controller operation. |
| Server.HealthUnguarded | server.js:171-177 | `/health` always answers 200 with the health object, whatever the credentials, and runs nothing. |
| Server.StatusCodes | server.js:47-159 | The status codes are decided as follows. 401 exactly when `basicAuth` refuses. 200 exactly when it accepts and the operation resolves. 500 exactly when it accepts and the operation rejects, and the 500 body then carries the message and has no data. |
| Server.TolerantRoutes | server.js:47-54 | Once authenticated, `/system/info` and `/service/:name/status` always answer 200. |
| Server.GpioPostWithoutState | server.js:111-116 | A GPIO write whose body has no `state` forwards the text "undefined". |
| Server.Handle | server.js:24-177 | Serving a request answers `Serve` and issues exactly `ServeIssues`. |
| Server.RunHandler | server.js:47-159 | Running a route's handler answers `OkResponse(Payload)` or `ServerErrorResponse`, as the operation's `Perform` result says, and issues exactly its command. |

## Left out

Outside the model, or represented only by inputs:

- **Processes.** No process is run. `exec` is replaced by the shell's fixed answer per command line (`Shell.respond`). Which commands exist, what they print and whether they fail is therefore free input. Because the answer is a fixed function of the command line, the same command always gets the same answer in the model: two `getCPUTemperature` calls on one controller give equal results, and `systemctl is-active` does not see an earlier `systemctl start`. The real system can answer differently each time. No contract relies on this, and no fact the model proves across calls is a fact about the operating system.
- **Shell semantics.** Command lines are built by the same string interpolation, but the model gives no meaning to pipes, `sudo`, quoting or injection through a pin or service name.
- **Files and the OS.** The reading of `/proc/cpuinfo` is an input: its text, or `None` when the read throws. The `os.*` readings (`platform`, `arch`, `hostname`, `uptime`, `loadavg`, memory, CPU count) are inputs too, with numbers as mathematical reals rather than IEEE doubles.
- **Time.** The `/health` timestamp is an input; no clock is modelled.
- **Asynchrony.** Promises, `async` and the concurrency of simultaneous requests are not modelled. Each operation settles in one step.
  - A rejected promise becomes `Failure(message)`, where the message is `error.message`. For a failed command, that message is part of the shell's answer.
- **HTTP decoding.** Base64 decoding of the `Authorization` header is not modelled. The model receives the raw header and its decoded text together.
  - A header with no space makes `auth.split(' ')[1]` undefined, and `Buffer.from` then throws. That case is outside the model.
  - Express's routing and JSON body parsing are not modelled; requests arrive already resolved into a `Route`.
  - A `state` in the request body that is not a string (a number, say) is not modelled. Only a string or a missing value is.
- **Server setup.** CORS headers, static files, `GET /`, `listen`, the console banners and the constructor's `console.log` of the detection result (index.js:11) are left out, because they decide nothing about an answer. `cli.js` and `config.json` are not part of this model; the configuration is an input (`AuthConfig`). `GET /health` is registered only on the dashboard app (server.js:171); the API app mounts only the router, so on the API port `/health` is a 404. `Serve` models the dashboard's `/health` and does not model the port split.
- **Configuration values.** The username and password in the configuration are strings. A configuration that leaves them undefined is not modelled.
- **Rate limiting, timeouts, environment credentials.** `index.js` and `server.js` have no rate limiter. Their `exec` calls set no timeout. The credentials come only from `config.json`, not from environment variables. The model has none of these either.
- **Characters.** Strings are sequences of Unicode scalar values, not UTF-16 code units.
- **Detection example.** No lemma states that a concrete cpuinfo text without the signature is not detected. `DetectRaspberryPi`'s contract covers that direction for all inputs.
