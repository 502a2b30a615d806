/** The host checks of src/checks/mod.rs: the risk taxonomy, the result
    record, the two SSH daemon configuration checks and the firewall check.
    The file system and the spawned commands are abstracted as inputs:
    the configuration file is a `FileState` and each command's output is
    an optional string. */
module Checks {
  import opened Wrappers
  import opened Text

  datatype RiskLevel = Low | Medium | High

  /** One finding: name, risk, message and the penalty it costs the score. */
  datatype CheckResult = CheckResult(name: string, risk: RiskLevel, message: string, scoreImpact: int)

  /** The configuration file as the check finds it: absent, present but not
      openable, or a sequence of lines where `None` is a line that failed to read. */
  datatype FileState = Missing | Unreadable | Contents(lines: seq<Option<string>>)

  /** The invariant every check promises its results: a non-negative
      penalty, and Low risk exactly when there is no penalty. */
  predicate Consistent(r: CheckResult) {
    r.scoreImpact >= 0 && (r.risk == Low <==> r.scoreImpact == 0)
  }

  /** The two sshd_config directives that are inspected. The checks for
      them share one algorithm and differ in the directive's keyword, the
      recognised values and the penalties. */
  datatype SshDirective = PermitRootLogin | PasswordAuthentication {

    function Keyword(): string {
      match this
      case PermitRootLogin => "PermitRootLogin"
      case PasswordAuthentication => "PasswordAuthentication"
    }

    function CheckName(): string {
      match this
      case PermitRootLogin => "SSH Root Login"
      case PasswordAuthentication => "SSH Password Authentication"
    }

    /** The penalty when the configuration file is missing or unreadable. */
    function NoConfigImpact(): int {
      match this
      case PermitRootLogin => 20
      case PasswordAuthentication => 15
    }

    /** The penalty when no line sets the directive to a recognised value. */
    function NotDefinedImpact(): int {
      match this
      case PermitRootLogin => 10
      case PasswordAuthentication => 5
    }

    function ConfigMissing(): CheckResult {
      CheckResult(CheckName(), High, "SSH config not found", NoConfigImpact())
    }

    function ConfigUnreadable(): CheckResult {
      CheckResult(CheckName(), High, "Cannot read SSH config (run as sudo)", NoConfigImpact())
    }

    /** The values the check recognises; any other value is skipped. */
    function RecognisedValues(): set<string> {
      match this
      case PermitRootLogin => {"yes", "no", "prohibit-password"}
      case PasswordAuthentication => {"yes", "no"}
    }

    /** The penalties a recognised value can carry. */
    function ValueImpacts(): set<int> {
      match this
      case PermitRootLogin => {0, 10, 25}
      case PasswordAuthentication => {0, 10}
    }

    function NotDefined(): CheckResult {
      CheckResult(CheckName(), Medium, "Setting not explicitly defined", NotDefinedImpact())
    }

    /** The `match parts[1]` of each check: the result for a recognised
        value, `None` for any other value (which does not end the scan). */
    function Classify(value: string): (r: Option<CheckResult>)
      ensures r.Some? ==> r.value.name == CheckName() && Consistent(r.value)
      ensures r.Some? ==> r.value.scoreImpact in ValueImpacts()
      ensures r.Some? <==> value in RecognisedValues()
    {
      match this
      case PermitRootLogin =>
        (match value
         case "yes" => Some(CheckResult(CheckName(), High, "Root login enabled", 25))
         case "no" => Some(CheckResult(CheckName(), Low, "Root login disabled", 0))
         case "prohibit-password" => Some(CheckResult(CheckName(), Medium, "Root login allowed via key", 10))
         case _ => None)
      case PasswordAuthentication =>
        (match value
         case "yes" => Some(CheckResult(CheckName(), Medium, "Password authentication enabled", 10))
         case "no" => Some(CheckResult(CheckName(), Low, "Password authentication disabled (key-only)", 0))
         case _ => None)
    }
  }

  /** A line whose trimmed text starts with `#`. */
  predicate IsComment(line: string) {
    StartsWith(Trim(line), "#")
  }

  /** What one line of the configuration decides: a failed read or a
      comment decides nothing, nor does a line that does not start with the
      keyword, has fewer than two words, or whose second word is not a
      recognised value. */
  function LineDecision(d: SshDirective, line: Option<string>): (r: Option<CheckResult>)
  {
    match line
    case None => None
    case Some(content) =>
      var trimmed := Trim(content);
      if StartsWith(trimmed, "#") then None
      else if !StartsWith(trimmed, d.Keyword()) then None
      else
        var parts := Words(trimmed);
        if |parts| >= 2 then d.Classify(parts[1]) else None
  }

  /** When a line decides: it was read, is not a comment, starts with the
      keyword once trimmed, splits into at least two words, and its second
      word is a recognised value; the decision is then named after the
      directive and keeps the risk/penalty invariant. The lemmas
      `CommentLine`, `DirectiveLine` and `DirectiveWithoutValue` below work
      this out for the shapes of line a configuration holds. */
  lemma LineDecides(d: SshDirective, line: Option<string>)
    ensures LineDecision(d, line).Some? <==>
              line.Some? && !IsComment(line.value) && StartsWith(Trim(line.value), d.Keyword())
              && |Words(Trim(line.value))| >= 2 && Words(Trim(line.value))[1] in d.RecognisedValues()
    ensures LineDecision(d, line).Some? ==>
              LineDecision(d, line).value.name == d.CheckName() && Consistent(LineDecision(d, line).value)
  {
  }

  /** The first decision among `lines`: the decision of the first line that
      decides anything, with every earlier line deciding nothing; `None`
      exactly when no line decides. */
  function FirstDecision(d: SshDirective, lines: seq<Option<string>>): (r: Option<CheckResult>)
    ensures r.None? <==> forall i :: 0 <= i < |lines| ==> LineDecision(d, lines[i]).None?
    ensures r.Some? ==> exists i :: 0 <= i < |lines| && LineDecision(d, lines[i]) == r
                                   && forall j :: 0 <= j < i ==> LineDecision(d, lines[j]).None?
  {
    if lines == [] then
      None
    else
      match LineDecision(d, lines[0])
      case Some(x) => Some(x)
      case None =>
        var r := FirstDecision(d, lines[1..]);
        assert forall i :: 1 <= i < |lines| ==> lines[i] == lines[1..][i - 1];
        r
  }

  /** First match wins: when line `i` is the first line that decides
      anything, its decision is the decision of the whole file, whatever
      the later lines say. */
  lemma {:induction false} FirstMatchWins(d: SshDirective, lines: seq<Option<string>>, i: nat)
    requires i < |lines| && LineDecision(d, lines[i]).Some?
    requires forall j :: 0 <= j < i ==> LineDecision(d, lines[j]).None?
    ensures FirstDecision(d, lines) == LineDecision(d, lines[i])
  {
    if i > 0 {
      assert LineDecision(d, lines[0]).None?;
      assert forall j :: 0 <= j < i - 1 ==> lines[1..][j] == lines[j + 1];
      FirstMatchWins(d, lines[1..], i - 1);
    }
  }

  /** What the SSH check for directive `d` reports on configuration `file`:
      a result named after the directive that keeps the risk/penalty
      invariant, with a penalty from the value table or the fallback when
      the file could be read. */
  function SshCheck(d: SshDirective, file: FileState): (r: CheckResult)
    ensures r.name == d.CheckName() && Consistent(r)
    ensures file.Contents? ==> r.scoreImpact in d.ValueImpacts() + {d.NotDefinedImpact()}
  {
    match file
    case Missing => d.ConfigMissing()
    case Unreadable => d.ConfigUnreadable()
    case Contents(lines) =>
      match FirstDecision(d, lines)
      case Some(r) => r
      case None => d.NotDefined()
  }

  /** The body of the scanning loop for one line: a failed read or a comment
      is skipped, and a line that starts with the keyword and has a
      recognised second word yields that word's result. */
  method ScanLine(d: SshDirective, line: Option<string>) returns (decision: Option<CheckResult>)
    ensures decision == LineDecision(d, line)
    ensures decision.Some? ==> decision.value.name == d.CheckName() && Consistent(decision.value)
  {
    if line.None? {
      return None;
    }
    var trimmed := Trim(line.value);
    if StartsWith(trimmed, "#") {
      return None;
    }
    if StartsWith(trimmed, d.Keyword()) {
      var parts := Words(trimmed);
      if |parts| >= 2 {
        return d.Classify(parts[1]);
      }
    }
    return None;
  }

  /** The shared scan of `check_ssh_root_login` and `check_ssh_password_auth`:
      the existence and open checks, then a loop over the lines that returns
      at the first line with a recognised value. */
  method RunSshCheck(d: SshDirective, file: FileState) returns (r: CheckResult)
    ensures r == SshCheck(d, file)
  {
    if file.Missing? {
      return d.ConfigMissing();
    }
    if file.Unreadable? {
      return d.ConfigUnreadable();
    }
    var lines := file.lines;
    for i := 0 to |lines|
      invariant forall j :: 0 <= j < i ==> LineDecision(d, lines[j]).None?
    {
      var decision := ScanLine(d, lines[i]);
      if decision.Some? {
        FirstMatchWins(d, lines, i);
        return decision.value;
      }
    }
    return d.NotDefined();
  }

  /** `check_ssh_root_login`. */
  method CheckSshRootLogin(file: FileState) returns (r: CheckResult)
    ensures r == SshCheck(PermitRootLogin, file)
    ensures r.name == "SSH Root Login" && Consistent(r)
    ensures file.Missing? ==> r == CheckResult("SSH Root Login", High, "SSH config not found", 20)
    ensures file.Unreadable? ==> r.risk == High && r.scoreImpact == 20
    ensures file.Contents? ==> r.scoreImpact in {0, 10, 25}
  {
    r := RunSshCheck(PermitRootLogin, file);
  }

  /** `check_ssh_password_auth`. */
  method CheckSshPasswordAuth(file: FileState) returns (r: CheckResult)
    ensures r == SshCheck(PasswordAuthentication, file)
    ensures r.name == "SSH Password Authentication" && Consistent(r)
    ensures file.Missing? || file.Unreadable? ==> r.risk == High && r.scoreImpact == 15
    ensures file.Contents? ==> r.scoreImpact in {0, 5, 10} && r.risk != High
  {
    r := RunSshCheck(PasswordAuthentication, file);
  }

  /** A line that decides nothing (a failed read, a comment, a line for
      another directive, the directive without a value or with an
      unrecognised value) can be inserted anywhere in the configuration
      without changing what the scan decides. */
  lemma {:induction false} IgnoredLine(d: SshDirective, lines: seq<Option<string>>, k: nat, line: Option<string>)
    requires k <= |lines|
    requires LineDecision(d, line).None?
    ensures FirstDecision(d, lines[..k] + [line] + lines[k..]) == FirstDecision(d, lines)
  {
    var extended := lines[..k] + [line] + lines[k..];
    if k == 0 {
      assert extended[0] == line && extended[1..] == lines;
    } else {
      assert extended[0] == lines[0];
      assert extended[1..] == lines[1..][..k - 1] + [line] + lines[1..][k - 1..];
      IgnoredLine(d, lines[1..], k - 1, line);
    }
  }

  /** Once some line has decided, appending further lines (a later duplicate
      of the directive, say) does not change the decision. */
  lemma LaterLinesIgnored(d: SshDirective, lines: seq<Option<string>>, more: seq<Option<string>>)
    requires FirstDecision(d, lines).Some?
    ensures FirstDecision(d, lines + more) == FirstDecision(d, lines)
  {
    var i :| 0 <= i < |lines| && LineDecision(d, lines[i]) == FirstDecision(d, lines)
             && forall j :: 0 <= j < i ==> LineDecision(d, lines[j]).None?;
    forall j | 0 <= j < i
      ensures LineDecision(d, (lines + more)[j]).None?
    {
      assert (lines + more)[j] == lines[j];
    }
    assert (lines + more)[i] == lines[i];
    FirstMatchWins(d, lines + more, i);
  }

  /** The keyword is a single word that is not a comment. */
  lemma KeywordIsWord(d: SshDirective)
    ensures d.Keyword() != [] && NoWhitespace(d.Keyword()) && d.Keyword()[0] != '#'
    ensures StartsWith(d.Keyword(), d.Keyword())
  {
  }

  /** Every recognised value is a single word. */
  lemma RecognisedValueIsWord(d: SshDirective, value: string)
    requires value in d.RecognisedValues()
    ensures value != [] && NoWhitespace(value)
  {
  }

  /** A line `key value` whose first word starts with the directive's
      keyword is decided by the value alone: a recognised value gives its
      result, any other value decides nothing. The keyword is matched as a
      prefix, so `PermitRootLoginX yes` counts as the directive too. */
  lemma DirectiveLine(d: SshDirective, key: string, sp: string, value: string)
    requires StartsWith(key, d.Keyword()) && NoWhitespace(key) && sp != [] && AllWhitespace(sp)
    requires value != [] && NoWhitespace(value)
    ensures LineDecision(d, Some(key + sp + value)) == d.Classify(value)
  {
    var line := key + sp + value;
    var keyword := d.Keyword();
    assert keyword[0] != '#';
    assert line[0] == key[0] == keyword[0];
    TrimUnchanged(line);
    assert !StartsWith(line, "#");
    assert line[..|keyword|] == key[..|keyword|];
    assert StartsWith(line, keyword);
    KeyValueWords(key, sp, value);
    assert Words(line)[1] == value;
  }

  /** A line that is a single word starting with the keyword (the
      directive with no value, fewer than two words) decides nothing. */
  lemma DirectiveWithoutValue(d: SshDirective, key: string)
    requires StartsWith(key, d.Keyword()) && NoWhitespace(key)
    ensures LineDecision(d, Some(key)) == None
  {
    TrimUnchanged(key);
    WordsOfWord(key);
  }

  /** An unrecognised value never yields Low risk: a configuration whose
      only directive line has an unrecognised value falls back to the
      Medium "not explicitly defined" result. */
  lemma UnknownValueNotLow(d: SshDirective, value: string)
    requires value != [] && NoWhitespace(value)
    requires value !in d.RecognisedValues()
    ensures SshCheck(d, Contents([Some(d.Keyword() + " " + value)])) == d.NotDefined()
    ensures d.NotDefined().risk == Medium
  {
    DirectiveLine(d, d.Keyword(), " ", value);
  }

  /** An unrecognised value does not end the scan: a directive line with an
      unrecognised value can be inserted anywhere without changing the decision. */
  lemma UnrecognisedValueSkipped(d: SshDirective, lines: seq<Option<string>>, k: nat,
                                 key: string, sp: string, value: string)
    requires k <= |lines|
    requires StartsWith(key, d.Keyword()) && NoWhitespace(key) && sp != [] && AllWhitespace(sp)
    requires value != [] && NoWhitespace(value) && value !in d.RecognisedValues()
    ensures FirstDecision(d, lines[..k] + [Some(key + sp + value)] + lines[k..]) == FirstDecision(d, lines)
  {
    DirectiveLine(d, key, sp, value);
    IgnoredLine(d, lines, k, Some(key + sp + value));
  }

  /** After a directive line with an unrecognised value, a later line with a
      recognised value still decides. */
  lemma UnknownThenKnown(d: SshDirective, unknown: string, known: string)
    requires unknown != [] && NoWhitespace(unknown) && unknown !in d.RecognisedValues()
    requires known in d.RecognisedValues()
    ensures SshCheck(d, Contents([Some(d.Keyword() + " " + unknown), Some(d.Keyword() + " " + known)]))
         == d.Classify(known).value
  {
    var keyword := d.Keyword();
    var lines := [Some(keyword + " " + unknown), Some(keyword + " " + known)];
    KeywordIsWord(d);
    RecognisedValueIsWord(d, known);
    DirectiveLine(d, keyword, " ", unknown);
    DirectiveLine(d, keyword, " ", known);
    assert LineDecision(d, lines[0]).None? && LineDecision(d, lines[1]).Some?;
    FirstMatchWins(d, lines, 1);
  }

  /** A line whose first non-blank character is `#` decides nothing,
      whatever follows it. */
  lemma CommentLine(d: SshDirective, indent: string, body: string)
    requires AllWhitespace(indent) && body != [] && body[0] == '#'
    ensures IsComment(indent + body) && LineDecision(d, Some(indent + body)) == None
  {
    TrimStartLeading(indent, body);
    TrimEndPrefix(body);
    var t := TrimEnd(body);
    assert !IsWhitespace(body[0]);
    assert t[0] == '#';
  }

  /** A configuration of one `Keyword value` line yields the value's result,
      or the "not explicitly defined" fallback for an unrecognised value. */
  lemma SingleDirective(d: SshDirective, sp: string, value: string)
    requires sp != [] && AllWhitespace(sp) && value != [] && NoWhitespace(value)
    ensures SshCheck(d, Contents([Some(d.Keyword() + sp + value)]))
         == if d.Classify(value).Some? then d.Classify(value).value else d.NotDefined()
  {
    DirectiveLine(d, d.Keyword(), sp, value);
  }

  /** The first recognised `PermitRootLogin` line decides, even when it is
      preceded by a comment (a commented-out setting, say) and a failed read
      and followed by any further lines, a contradicting `PermitRootLogin no`
      included. */
  lemma RootLoginFirstMatch(comment: string, sp: string, later: seq<Option<string>>)
    requires comment != [] && comment[0] == '#' && sp != [] && AllWhitespace(sp)
    ensures SshCheck(PermitRootLogin, Contents([Some(comment), None, Some("PermitRootLogin" + sp + "yes")] + later))
         == CheckResult("SSH Root Login", High, "Root login enabled", 25)
  {
    var keyword := PermitRootLogin.Keyword();
    var yes := keyword + sp + "yes";
    var lines := [Some(comment), None, Some(yes)] + later;
    CommentLine(PermitRootLogin, [], comment);
    assert [] + comment == comment;
    KeywordIsWord(PermitRootLogin);
    RecognisedValueIsWord(PermitRootLogin, "yes");
    DirectiveLine(PermitRootLogin, keyword, sp, "yes");
    assert lines[0] == Some(comment) && lines[1] == None && lines[2] == Some(yes);
    FirstMatchWins(PermitRootLogin, lines, 2);
  }

  /** The value-to-result table of `check_ssh_root_login`. */
  lemma RootLoginValues(sp: string, value: string)
    requires sp != [] && AllWhitespace(sp) && value in {"yes", "no", "prohibit-password"}
    ensures SshCheck(PermitRootLogin, Contents([Some("PermitRootLogin" + sp + value)]))
         == match value
            case "yes" => CheckResult("SSH Root Login", High, "Root login enabled", 25)
            case "no" => CheckResult("SSH Root Login", Low, "Root login disabled", 0)
            case _ => CheckResult("SSH Root Login", Medium, "Root login allowed via key", 10)
  {
    SingleDirective(PermitRootLogin, sp, value);
  }

  /** The value-to-result table of `check_ssh_password_auth`. */
  lemma PasswordAuthValues(sp: string, value: string)
    requires sp != [] && AllWhitespace(sp) && value in {"yes", "no"}
    ensures SshCheck(PasswordAuthentication, Contents([Some("PasswordAuthentication" + sp + value)]))
         == if value == "yes" then CheckResult("SSH Password Authentication", Medium, "Password authentication enabled", 10)
            else CheckResult("SSH Password Authentication", Low, "Password authentication disabled (key-only)", 0)
  {
    SingleDirective(PasswordAuthentication, sp, value);
  }

  /** A readable configuration in which no line (once trimmed) starts with
      the directive's keyword yields the "not explicitly defined" result:
      Medium risk, penalty 10 for root login and 5 for password authentication. */
  lemma DirectiveAbsent(d: SshDirective, lines: seq<Option<string>>)
    requires forall i :: 0 <= i < |lines| && lines[i].Some? ==> !StartsWith(Trim(lines[i].value), d.Keyword())
    ensures SshCheck(d, Contents(lines)) == d.NotDefined()
    ensures SshCheck(d, Contents(lines)).risk == Medium
    ensures SshCheck(d, Contents(lines)).scoreImpact == (if d == PermitRootLogin then 10 else 5)
  {
    assert forall i :: 0 <= i < |lines| ==> LineDecision(d, lines[i]).None?;
  }

  /** The UFW output settles the firewall check: it mentions an active or
      an inactive status. */
  predicate UfwConclusive(ufw: Option<string>) {
    ufw.Some? && (Contains(ufw.value, "Status: active") || Contains(ufw.value, "Status: inactive"))
  }

  /** `check_firewall_status`, given the output of `ufw status` and of
      `systemctl is-active firewalld` (`None` when the command could not be run). */
  function CheckFirewallStatus(ufw: Option<string>, firewalld: Option<string>): (r: CheckResult)
    ensures r.name == "Firewall Status" && Consistent(r)
    ensures r.risk == Low <==> (ufw.Some? && Contains(ufw.value, "Status: active"))
                               || (!UfwConclusive(ufw) && firewalld.Some? && Contains(firewalld.value, "active"))
    ensures r.risk != Low ==> r.risk == High && r.scoreImpact == (if UfwConclusive(ufw) then 20 else 25)
  {
    if ufw.Some? && Contains(ufw.value, "Status: active") then
      CheckResult("Firewall Status", Low, "UFW firewall active", 0)
    else if ufw.Some? && Contains(ufw.value, "Status: inactive") then
      CheckResult("Firewall Status", High, "UFW installed but inactive", 20)
    else if firewalld.Some? && Contains(firewalld.value, "active") then
      CheckResult("Firewall Status", Low, "firewalld active", 0)
    else
      CheckResult("Firewall Status", High, "No active firewall detected", 25)
  }

  /** When UFW reports a status, the firewalld output is never consulted. */
  lemma UfwTakesPriority(ufw: Option<string>, firewalld1: Option<string>, firewalld2: Option<string>)
    requires UfwConclusive(ufw)
    ensures CheckFirewallStatus(ufw, firewalld1) == CheckFirewallStatus(ufw, firewalld2)
  {
  }

  /** When UFW is inconclusive or could not be run, the result is what
      firewalld alone decides. */
  lemma FirewalldFallback(ufw: Option<string>, firewalld: Option<string>)
    requires !UfwConclusive(ufw)
    ensures CheckFirewallStatus(ufw, firewalld) == CheckFirewallStatus(None, firewalld)
  {
  }

  /** An inactive UFW is not mistaken for an active one: "Status: active"
      does not occur in "Status: inactive", so the second branch is reached. */
  lemma UfwInactive(firewalld: Option<string>)
    ensures CheckFirewallStatus(Some("Status: inactive\n"), firewalld)
         == CheckResult("Firewall Status", High, "UFW installed but inactive", 20)
  {
    var out := "Status: inactive\n";
    assert !Contains(out, "Status: active") by {
      forall i | 0 <= i <= |out| - |"Status: active"|
        ensures !OccursAt(out, "Status: active", i)
      {
        if i == 0 {
          assert out[i..i + 14][8] != "Status: active"[8];
        } else {
          assert out[i..i + 14][0] != "Status: active"[0];
        }
      }
    }
    assert OccursAt(out, "Status: inactive", 0);
  }

  /** The firewalld test is a substring test for "active", so an output of
      "inactive" counts as an active firewalld. */
  lemma FirewalldInactiveCountsAsActive()
    ensures CheckFirewallStatus(None, Some("inactive\n"))
         == CheckResult("Firewall Status", Low, "firewalld active", 0)
  {
    assert OccursAt("inactive\n", "active", 2);
  }

  /** With neither command available, no firewall is detected. */
  lemma NoFirewallTools()
    ensures CheckFirewallStatus(None, None) == CheckResult("Firewall Status", High, "No active firewall detected", 25)
  {
  }
}
