/**
 * The network tools endpoint (`POST /api/network/tools`): a signed-in user
 * pings a host or resolves its IPv4 addresses; the target is checked against
 * a host-name pattern before it is put into a shell command.
 */
module NetworkTools {
  import opened Wrappers
  import opened Text

  /** A character the pattern `^[a-zA-Z0-9.-]+$` admits. */
  predicate IsHostChar(c: char) {
    ('a' <= c <= 'z') || ('A' <= c <= 'Z') || ('0' <= c <= '9') || c == '.' || c == '-'
  }

  /** `!target || !/^[a-zA-Z0-9.-]+$/.test(target)` negated: present, non-empty, host characters only. */
  predicate ValidTarget(target: Option<string>) {
    target.Some? && |target.value| > 0 && forall i :: 0 <= i < |target.value| ==> IsHostChar(target.value[i])
  }

  /** The JSON reply: an error with a status, or `{ output }` with status 200. */
  datatype Reply = ErrorReply(status: nat, error: string) | OutputReply(output: string)

  /** The work the request asks for once it is accepted. */
  datatype Action = RunCommand(command: string) | ResolveIPv4(host: string)

  /** What the route does before any I/O: reply at once, or run an action. */
  datatype Decision = Reject(reply: Reply) | Run(action: Action)

  const PingPrefix := "ping -c 4 "

  /** Lines 10-29: authentication, then the target, then the tool. */
  function Plan(authenticated: bool, tool: Option<string>, target: Option<string>): (d: Decision)
    ensures !authenticated ==> d == Reject(ErrorReply(401, "Unauthorized"))
    ensures authenticated && !ValidTarget(target) ==> d == Reject(ErrorReply(400, "Invalid target format"))
    ensures d.Run? <==> authenticated && ValidTarget(target) && (tool == Some("ping") || tool == Some("dns"))
    ensures authenticated && ValidTarget(target) && tool == Some("ping") ==> d == Run(RunCommand(PingPrefix + target.value))
    ensures authenticated && ValidTarget(target) && tool == Some("dns") ==> d == Run(ResolveIPv4(target.value))
    ensures authenticated && ValidTarget(target) && tool != Some("ping") && tool != Some("dns") ==>
      d == Reject(ErrorReply(400, "Unknown tool"))
  {
    if !authenticated then Reject(ErrorReply(401, "Unauthorized"))
    else if !ValidTarget(target) then Reject(ErrorReply(400, "Invalid target format"))
    else if tool == Some("ping") then Run(RunCommand(PingPrefix + target.value))
    else if tool == Some("dns") then Run(ResolveIPv4(target.value))
    else Reject(ErrorReply(400, "Unknown tool"))
  }

  /** Characters a POSIX shell gives a meaning to, plus white space. */
  const ShellMetacharacters: set<char> :=
    {';', '&', '|', '$', '`', '<', '>', '(', ')', '{', '}', '[', ']', '*', '?', '!', '~', '#',
     '\'', '"', '\\', ' ', '\t', '\n', '\r', '='}

  /**
   * The command run for `ping` is the fixed prefix followed by the target
   * verbatim, and the target holds no shell metacharacter or white space.
   */
  lemma PingCommandIsSafe(authenticated: bool, target: Option<string>)
    requires Plan(authenticated, Some("ping"), target).Run?
    ensures var cmd := Plan(authenticated, Some("ping"), target).action;
      && cmd.RunCommand?
      && cmd.command == PingPrefix + target.value
      && forall i :: |PingPrefix| <= i < |cmd.command| ==> cmd.command[i] !in ShellMetacharacters
  {
    var cmd := Plan(authenticated, Some("ping"), target).action;
    forall i | |PingPrefix| <= i < |cmd.command| ensures cmd.command[i] !in ShellMetacharacters {
      assert cmd.command[i] == target.value[i - |PingPrefix|];
      assert IsHostChar(target.value[i - |PingPrefix|]);
    }
  }

  /** An invalid target is reported even when the tool is unknown too: the target is checked first. */
  lemma TargetCheckedBeforeTool(target: Option<string>)
    requires !ValidTarget(target)
    ensures Plan(true, Some("traceroute"), target) == Reject(ErrorReply(400, "Invalid target format"))
  {
  }

  /** A target that starts with `-` passes the pattern and reaches `ping` as its last argument. */
  lemma DashTargetAccepted()
    ensures Plan(true, Some("ping"), Some("-f")) == Run(RunCommand("ping -c 4 -f"))
  {
    assert IsHostChar("-f"[0]) && IsHostChar("-f"[1]);
    assert ValidTarget(Some("-f"));
    assert PingPrefix + "-f" == "ping -c 4 -f";
  }

  /** How the command or the lookup ended: its output, or a rejection with its message. */
  datatype Outcome<T> = Completed(value: T) | Failed(message: string)

  /** `DNS Lookup for ${target}:\n${addresses.join('\n')}`. */
  function DnsReport(host: string, addresses: seq<string>): string {
    "DNS Lookup for " + host + ":\n" + Join(addresses, '\n')
  }

  /** The `catch` at lines 32-34: the message, or a fixed text when it is empty. */
  function FailureOutput(message: string): string {
    if message != "" then message else "Execution failed"
  }

  /**
   * `POST`: `exec` runs a command and gives its standard output, `resolve4`
   * resolves a host; both are supplied by the caller.
   */
  function Post(authenticated: bool, tool: Option<string>, target: Option<string>,
                exec: string -> Outcome<string>, resolve4: string -> Outcome<seq<string>>): (r: Reply)
    ensures r.ErrorReply? <==> Plan(authenticated, tool, target).Reject?
    ensures r.ErrorReply? ==> r == Plan(authenticated, tool, target).reply
    ensures Plan(authenticated, tool, target).Run? && tool == Some("ping") ==>
      r == OutputReply(match exec(PingPrefix + target.value)
                       case Completed(stdout) => stdout
                       case Failed(message) => FailureOutput(message))
    ensures Plan(authenticated, tool, target).Run? && tool == Some("dns") ==>
      r == OutputReply(match resolve4(target.value)
                       case Completed(addresses) => DnsReport(target.value, addresses)
                       case Failed(message) => FailureOutput(message))
  {
    match Plan(authenticated, tool, target)
    case Reject(reply) => reply
    case Run(RunCommand(command)) =>
      (match exec(command)
       case Completed(stdout) => OutputReply(stdout)
       case Failed(message) => OutputReply(FailureOutput(message)))
    case Run(ResolveIPv4(host)) =>
      (match resolve4(host)
       case Completed(addresses) => OutputReply(DnsReport(host, addresses))
       case Failed(message) => OutputReply(FailureOutput(message)))
  }

  /**
   * A failing command or lookup still answers with status 200 and
   * `{ output }`: the message, or "Execution failed" when it is empty.
   */
  lemma FailureIsOutput(tool: Option<string>, target: Option<string>,
                        exec: string -> Outcome<string>, resolve4: string -> Outcome<seq<string>>)
    requires Plan(true, tool, target).Run?
    requires exec(PingPrefix + target.value).Failed? && resolve4(target.value).Failed?
    ensures Post(true, tool, target, exec, resolve4).OutputReply?
    ensures Post(true, tool, target, exec, resolve4).output ==
      FailureOutput(if tool == Some("ping") then exec(PingPrefix + target.value).message
                    else resolve4(target.value).message)
    ensures Post(true, tool, target, exec, resolve4).output != ""
  {
  }

  /** The DNS report lists one address per line after the heading, so the addresses can be read back. */
  lemma DnsReportLines(host: string, addresses: seq<string>)
    requires |addresses| >= 1 && forall i :: 0 <= i < |addresses| ==> '\n' !in addresses[i]
    requires '\n' !in host
    ensures Split(DnsReport(host, addresses), '\n') == ["DNS Lookup for " + host + ":"] + addresses
  {
    var heading := "DNS Lookup for " + host + ":";
    assert DnsReport(host, addresses) == heading + ['\n'] + Join(addresses, '\n');
    assert '\n' !in heading by {
      assert heading == "DNS Lookup for " + host + [':'];
    }
    SplitAround(heading, '\n', Join(addresses, '\n'));
    SplitNoSeparator(heading, '\n');
    SplitJoin(addresses, '\n');
  }
}
