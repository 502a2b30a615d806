# linux-guardian: verified model of the checks and the score

linux-guardian audits a Linux host's security posture. Each check yields a
`CheckResult`: a name, a `RiskLevel` (Low, Medium, High), a message and a
`score_impact` penalty. The report turns a list of results into a score and
a letter grade. This project models two parts in Dafny:

- the aggregation engine (`src/report/mod.rs`). `calculate_score` is a loop
  that subtracts every penalty from 100 and then clamps the result at 0
  from below. `grade` maps a score to a letter through fixed bands.
- the decision logic of the three checks (`src/checks/mod.rs`).
  - `check_ssh_root_login` and `check_ssh_password_auth` scan
    `/etc/ssh/sshd_config` line by line. The first recognised value wins.
  - `check_firewall_status` classifies the output of `ufw status`, then the
    output of `systemctl is-active firewalld`.

Files:

- `wrappers.dfy`: `Option`.
- `text.dfy`: Rust's `str::trim`, `starts_with`, `contains` and
  `split_whitespace` on `seq<char>`. Whitespace is the Unicode White_Space
  set, the set that `char::is_whitespace` tests.
- `checks.dfy`: `RiskLevel`, `CheckResult` and the configuration file as a
  `FileState`: `Missing`, `Unreadable`, or `Contents` with one optional
  string per line, where `None` is a line that failed to read.
  - `LineDecision` and `FirstDecision` specify the scan. The method
    `RunSshCheck` is the scan itself: a loop with an early `return`, proved
    equal to that specification. The loop body, with its `continue` for
    failed reads and comments, is the method `ScanLine`.
  - The two SSH checks differ only in their result name, their keyword,
    their value table (values, risk levels, messages and penalties) and
    their fallback penalties. A missing or unreadable file costs 20 for
    root login and 15 for password authentication. A setting that is not
    defined costs 10 and 5. So both run `RunSshCheck` with an
    `SshDirective`.
  - `CheckFirewallStatus` takes each command's output as
    `Option<string>`. `None` means the command could not be spawned.
- `report.dfy`: `CalculateScore` (the loop), `Score` (its closed form),
  `Grade`, and the lemmas about them.

A reader might expect a few things that the code does not do. The model
follows the code:

- A score reads like a percentage, but nothing keeps it at or below 100.
  `calculate_score` clamps only at 0, so a negative `score_impact` gives a
  score above 100 (`Report.NoUpperClamp`). No check in `src/checks/mod.rs`
  produces a negative penalty.
- A score above 100 does not get "A". The wildcard arm of `grade` gives "F"
  to every value outside 0..=100, above 100 included (`Report.Grade`). So
  `grade` is monotone up to 100, negative scores included, and not above.
- The firewalld test is a substring test for "active". An output of
  "inactive" therefore counts as an active firewalld
  (`Checks.FirewalldInactiveCountsAsActive`).
- The directive is matched by prefix, so a first word such as
  `PermitRootLoginX` also counts as the directive (`Checks.DirectiveLine`).

## Model

| member | source | states |
|---|---|---|
| `Checks.SshDirective.Classify` | src/checks/mod.rs:55-81 | A value gives a result exactly when it is recognised ("yes", "no", "prohibit-password" for root login; "yes", "no" for password authentication). Each result is named after its check, has a non-negative penalty from the check's table, and has Low risk exactly when the penalty is 0. |
| `Checks.LineDecides` | src/checks/mod.rs:45-83 | One line decides exactly when it was read, is not a comment once trimmed, starts with the keyword once trimmed, has at least two words and has a recognised second word. A decision is named after the check and has Low risk exactly when its penalty is 0. |
| `Checks.ScanLine` | src/checks/mod.rs:45-83 | The loop body (skip a failed read, `continue` on a comment, test the keyword, split, match the second word) computes exactly the line's decision, named after the check and with Low risk exactly when the penalty is 0. |
| `Checks.FirstDecision` | src/checks/mod.rs:44-85 | The scan's decision is the decision of the first line that decides anything, and every earlier line decides nothing. It is None exactly when no line decides. |
| `Checks.FirstMatchWins` | src/checks/mod.rs:52-79 | When line i is the first deciding line, its decision is the file's decision, whatever the later lines say. |
| `Checks.SshCheck` | src/checks/mod.rs:20-93 | Every SSH result is named after its directive and has Low risk exactly when its penalty is 0. The penalty is non-negative. For a readable file it comes from the value table or the fallback. |
| `Checks.RunSshCheck` | src/checks/mod.rs:20-92 | The existence and open checks, then the loop over the lines, which returns at the first line with a recognised value and otherwise falls back. Its result equals the scan's specification. |
| `Checks.CheckSshRootLogin` | src/checks/mod.rs:20-93 | A missing config gives High/20 "SSH config not found". An unreadable config gives High/20. A readable config gives a penalty of 0, 10 or 25. |
| `Checks.CheckSshPasswordAuth` | src/checks/mod.rs:96-161 | A missing or unreadable config gives High/15. A readable config never gives High risk, and the penalty is 0, 5 or 10. |
| `Checks.IgnoredLine` | src/checks/mod.rs:44-83 | Inserting a line that decides nothing (a failed read, a comment, another directive, the keyword without a value, an unrecognised value) anywhere leaves the scan's decision unchanged. |
| `Checks.LaterLinesIgnored` | src/checks/mod.rs:52-79 | Once a line has decided, appended lines (such as a later duplicate directive) do not change the decision. |
| `Checks.CommentLine` | src/checks/mod.rs:46-50 | A line whose first non-whitespace character is `#` is a comment and decides nothing, whatever follows it. |
| `Checks.DirectiveLine` | src/checks/mod.rs:52-55 | A line `key value`, with any run of whitespace between the two, whose key starts with the directive keyword is decided by the value alone: the value table's result, or nothing for an unrecognised value. |
| `Checks.DirectiveWithoutValue` | src/checks/mod.rs:53-54 | A line that is one word starting with the keyword (fewer than two words) decides nothing. |
| `Checks.UnrecognisedValueSkipped` | src/checks/mod.rs:52-83 | An unrecognised value does not end the scan: a `key value` line with one can be inserted anywhere without changing the decision. |
| `Checks.UnknownThenKnown` | src/checks/mod.rs:44-85 | After a directive line with an unrecognised value, a later line with a recognised value still decides. |
| `Checks.UnknownValueNotLow` | src/checks/mod.rs:80-92 | A one-line file `Keyword value` with an unrecognised value gets the Medium "Setting not explicitly defined" result, never Low. |
| `Checks.SingleDirective` | src/checks/mod.rs:52-92 | A one-line configuration `Keyword value` gives the value's result, or the fallback for an unrecognised value. |
| `Checks.RootLoginFirstMatch` | src/checks/mod.rs:44-85 | In a file with a comment, a failed read, then `PermitRootLogin yes`, followed by any lines (a `PermitRootLogin no` included), the result is High/25 "Root login enabled". |
| `Checks.RootLoginValues` | src/checks/mod.rs:55-79 | "yes" gives High/25, "no" gives Low/0 and "prohibit-password" gives Medium/10, each with its message, whatever whitespace separates the value from the keyword. |
| `Checks.PasswordAuthValues` | src/checks/mod.rs:131-147 | "yes" gives Medium/10 and "no" gives Low/0, each with its message, whatever whitespace separates the value from the keyword. |
| `Checks.DirectiveAbsent` | src/checks/mod.rs:87-92 | A readable file in which no trimmed line starts with the keyword gives Medium risk, "Setting not explicitly defined", with penalty 10 (root login) or 5 (password authentication). |
| `Checks.CheckFirewallStatus` | src/checks/mod.rs:166-213 | The result is named "Firewall Status" and has Low risk exactly when its penalty is 0. Risk is Low exactly when UFW reports "Status: active", or when UFW is inconclusive and the firewalld output contains "active". Otherwise the risk is High, with penalty 20 when UFW reports "Status: inactive" and 25 in every other case. |
| `Checks.UfwTakesPriority` | src/checks/mod.rs:170-187 | When the UFW output mentions an active or inactive status, the firewalld output does not affect the result. |
| `Checks.FirewalldFallback` | src/checks/mod.rs:189-212 | When UFW is inconclusive or could not run, the result is what the firewalld output alone decides. |
| `Checks.UfwInactive` | src/checks/mod.rs:179-186 | "Status: inactive" is not read as active: it gives High/20 "UFW installed but inactive". |
| `Checks.FirewalldInactiveCountsAsActive` | src/checks/mod.rs:196-203 | A firewalld output of "inactive" contains "active", so it gives Low/0 "firewalld active". |
| `Checks.NoFirewallTools` | src/checks/mod.rs:206-212 | With neither command available the result is High/25 "No active firewall detected". |
| `Text.Contains` | src/checks/mod.rs:172 | `contains` is true exactly when the pattern occurs at some offset of the text. |
| `Text.TrimSlice` | src/checks/mod.rs:46 | `trim` returns a slice of the line that neither starts nor ends with whitespace, and only whitespace is cut away on either side. |
| `Text.Words` | src/checks/mod.rs:53 | `split_whitespace` returns non-empty words without whitespace, and no words exactly when the text is all whitespace. |
| `Text.WordsLeading` | src/checks/mod.rs:53 | Leading whitespace adds no word. |
| `Text.WordsSplitFirst` | src/checks/mod.rs:53 | A word followed by a run of whitespace is the first word, and the rest of the text gives the remaining words. With `WordsLeading` and `WordsOfWord`, this fixes the words of every text: its maximal non-whitespace runs, in order. |
| `Text.WordsOfWord` | src/checks/mod.rs:53 | A single word without whitespace splits into just itself. |
| `Text.KeyValueWords` | src/checks/mod.rs:53-55 | A line made of a key, a run of whitespace and a value splits into exactly `[key, value]`. |
| `Report.CalculateScore` | src/report/mod.rs:3-15 | The loop returns max(0, 100 - sum of penalties). The score is never negative, an empty list scores 100, and with no negative penalty the score is at most 100. |
| `Report.ImpactsNonNegative` | src/report/mod.rs:6-8 | With no negative penalty the accumulated total is not negative. |
| `Report.TotalImpactOrderIndependent` | src/report/mod.rs:6-8 | The total penalty is the same for any permutation of the results. |
| `Report.ScoreOrderIndependent` | src/report/mod.rs:3-15 | Any permutation of the results gives the same score. |
| `Report.ScoreInRange` | src/report/mod.rs:10-14 | With no negative penalty the score lies in [0, 100]. It is 0 exactly when the penalties add up to 100 or more. |
| `Report.NoUpperClamp` | src/report/mod.rs:4-14 | A result with a negative penalty scores 100 minus that penalty, which is above 100, and that score grades "F". |
| `Report.Grade` | src/report/mod.rs:17-25 | The letter is one of A, B, C, D, F. Every score below 0 or above 100 gets "F". |
| `Report.GradeBoundaries` | src/report/mod.rs:18-24 | 100 and 90 give A, 89 and 75 give B, 74 and 60 give C, 59 and 40 give D, 39 and 0 give F. |
| `Report.GradeMonotone` | src/report/mod.rs:18-24 | For any two scores up to 100, negative ones included, the higher score never gets a worse letter. |
| `Report.Scenarios` | src/report/mod.rs:3-24 | Penalties 0, 0, 0 score 100 (A). Penalties 25, 10, 20 score 45 (D). Penalties 60, 60 score 0 (F). |
| `Report.SshPenaltiesBounded` | src/checks/mod.rs:20-160 | When both SSH checks see the same file contents, they cost at most 35 together: 20 + 15 when the file is missing or unreadable, and at most 25 + 10 when it is read. |
| `Report.SshPenaltiesBoundedTwoReads` | src/checks/mod.rs:20-160 | Each check opens and reads the file on its own. When the two see different states of it, they cost at most 25 + 15 = 40 together. |
| `Report.AuditScoreRange` | src/report/mod.rs:3-25 | When both SSH checks see the same file contents, the two SSH checks plus the firewall check score between 40 and 100, and so never grade "F". |
| `Report.AuditScoreRangeTwoReads` | src/report/mod.rs:3-25 | When the two SSH checks may see different states of the file, the three checks score between 35 and 100. |
| `Report.FileChangedBetweenReads` | src/checks/mod.rs:20-160 | The bound of 35 is reached, and it grades "F". The root-login check reads `PermitRootLogin yes`, the file is missing when the password check looks, and no firewall tool runs. |

## Left out

- Report.CalculateScore: does not model the `i32` overflow of the subtraction loop. Scores and penalties are mathematical integers, and a list whose penalties overflow `i32` is not modelled.
- The line loop can run forever, and the model does not capture this. A configuration is a finite `Contents` sequence. In the source, `for line in reader.lines()` with `if let Ok` at src/checks/mod.rs:44-45 and 120-121 goes on while reads keep failing. A read that fails every time never ends the loop, for instance when the path is a directory that opens but cannot be read.
- Report.SshPenaltiesBounded: assumes the configuration does not change between the two checks' reads. Each check calls `Path::exists`, `File::open` and `lines()` on its own (src/checks/mod.rs:23-44 and 99-120). `Report.SshPenaltiesBoundedTwoReads` gives the bound of 40 without that assumption.
- Report.AuditScoreRange: assumes the configuration does not change between the two checks' reads. Without that assumption the score is at least 35 (`Report.AuditScoreRangeTwoReads`), and 35 grades "F" (`Report.FileChangedBetweenReads`).
- File access (`Path::exists`, `File::open`, `BufReader::lines`) is not modelled. The file is an input `FileState`, already split into lines without their line terminators.
- Spawning `ufw` and `systemctl` is not modelled, and neither is `String::from_utf8_lossy`. Each command's standard output is an input string. A command that runs, whatever its exit status, gives `Some(output)`. A command that cannot be spawned gives `None`.
- src/main.rs is not part of this model. It is console printing and the driver; it never computes a score.
- Messages are modelled as the exact strings of the source. Nothing beyond equality is stated about them.
