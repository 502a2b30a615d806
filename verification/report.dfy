/** The aggregation engine of src/report/mod.rs: the composite score of a
    list of check results and its letter grade. */
module Report {
  import opened Wrappers
  import opened Checks
  import opened Text

  /** The score of a run with no findings. */
  const Baseline: int := 100

  /** The sum of the results' penalties, accumulated front to back as the
      scoring loop does. */
  function TotalImpact(results: seq<CheckResult>): int {
    if results == [] then 0
    else TotalImpact(results[..|results| - 1]) + results[|results| - 1].scoreImpact
  }

  /** The closed form of `calculate_score`: the baseline minus the total
      penalty, clamped at 0 from below and not clamped from above. */
  function Score(results: seq<CheckResult>): int {
    var raw := Baseline - TotalImpact(results);
    if raw < 0 then 0 else raw
  }

  predicate NonNegativeImpacts(results: seq<CheckResult>) {
    forall i :: 0 <= i < |results| ==> results[i].scoreImpact >= 0
  }

  /** `calculate_score`: start from 100, subtract every penalty in turn,
      and return 0 instead of a negative total. */
  method CalculateScore(results: seq<CheckResult>) returns (score: int)
    ensures score == Score(results)
    ensures score >= 0
    ensures results == [] ==> score == 100
    ensures NonNegativeImpacts(results) ==> score <= 100
  {
    score := Baseline;
    for i := 0 to |results|
      invariant score == Baseline - TotalImpact(results[..i])
    {
      assert results[..i + 1][..i] == results[..i];
      score := score - results[i].scoreImpact;
    }
    assert results[..|results|] == results;
    if NonNegativeImpacts(results) {
      ImpactsNonNegative(results);
    }
    if score < 0 {
      score := 0;
    }
  }

  /** With no negative penalty the total penalty is not negative. */
  lemma {:induction false} ImpactsNonNegative(results: seq<CheckResult>)
    requires NonNegativeImpacts(results)
    ensures TotalImpact(results) >= 0
  {
    if results != [] {
      ImpactsNonNegative(results[..|results| - 1]);
    }
  }

  /** The total penalty of two lists side by side is the sum of their totals. */
  lemma {:induction false} TotalImpactAppend(a: seq<CheckResult>, b: seq<CheckResult>)
    ensures TotalImpact(a + b) == TotalImpact(a) + TotalImpact(b)
  {
    if b != [] {
      assert (a + b)[..|a + b| - 1] == a + b[..|b| - 1];
      assert (a + b)[|a + b| - 1] == b[|b| - 1];
      TotalImpactAppend(a, b[..|b| - 1]);
    } else {
      assert a + b == a;
    }
  }

  /** The total penalty of a short list written out. */
  lemma TotalImpactOfFew(r1: CheckResult, r2: CheckResult, r3: CheckResult)
    ensures TotalImpact([r1]) == r1.scoreImpact
    ensures TotalImpact([r1, r2]) == r1.scoreImpact + r2.scoreImpact
    ensures TotalImpact([r1, r2, r3]) == r1.scoreImpact + r2.scoreImpact + r3.scoreImpact
  {
    assert [r1][..0] == [];
    assert [r1, r2][..1] == [r1];
    assert [r1, r2, r3][..2] == [r1, r2];
  }

  /** A list is its front, the element at `k` and its back. */
  lemma SplitAt(b: seq<CheckResult>, k: nat)
    requires k < |b|
    ensures b == b[..k] + [b[k]] + b[k + 1..]
  {
    assert b[k..] == [b[k]] + b[k + 1..];
    assert b == b[..k] + b[k..];
  }

  /** Taking one result out of a list lowers the total by its penalty. */
  lemma TotalImpactRemove(b: seq<CheckResult>, k: nat)
    requires k < |b|
    ensures TotalImpact(b) == TotalImpact(b[..k] + b[k + 1..]) + b[k].scoreImpact
  {
    var front, x, back := b[..k], b[k], b[k + 1..];
    calc {
      TotalImpact(b);
      { SplitAt(b, k); }
      TotalImpact(front + [x] + back);
      { TotalImpactAppend(front + [x], back); }
      TotalImpact(front + [x]) + TotalImpact(back);
      { TotalImpactAppend(front, [x]); assert [x][..0] == []; }
      TotalImpact(front) + x.scoreImpact + TotalImpact(back);
      { TotalImpactAppend(front, back); }
      TotalImpact(front + back) + x.scoreImpact;
    }
  }

  /** Taking the same result out of two permutations of each other leaves
      two permutations of each other. */
  lemma MultisetRemove(front: seq<CheckResult>, x: CheckResult, b: seq<CheckResult>, k: nat)
    requires k < |b| && b[k] == x
    requires multiset(front + [x]) == multiset(b)
    ensures multiset(front) == multiset(b[..k] + b[k + 1..])
  {
    var rest := b[..k] + b[k + 1..];
    var m := multiset(front) + multiset{x};
    assert multiset(front) == m - multiset{x};
    assert b == b[..k] + [x] + b[k + 1..];
    calc {
      m;
      multiset(front + [x]);
      multiset(b);
      multiset(b[..k] + [x] + b[k + 1..]);
      multiset(b[..k]) + multiset{x} + multiset(b[k + 1..]);
      multiset(rest) + multiset{x};
    }
    assert multiset(rest) == m - multiset{x};
  }

  /** The total penalty depends only on which results occur how often, not
      on their order. */
  lemma {:induction false} TotalImpactOrderIndependent(a: seq<CheckResult>, b: seq<CheckResult>)
    requires multiset(a) == multiset(b)
    ensures TotalImpact(a) == TotalImpact(b)
    decreases |a|
  {
    if a == [] {
      assert |b| == |multiset(b)| == 0;
    } else {
      var x := a[|a| - 1];
      var front := a[..|a| - 1];
      assert a == front + [x];
      assert x in multiset(b);
      var k :| 0 <= k < |b| && b[k] == x;
      MultisetRemove(front, x, b, k);
      TotalImpactOrderIndependent(front, b[..k] + b[k + 1..]);
      TotalImpactRemove(b, k);
    }
  }

  /** The score does not depend on the order of the results: any
      permutation of the list scores the same. */
  lemma ScoreOrderIndependent(a: seq<CheckResult>, b: seq<CheckResult>)
    requires multiset(a) == multiset(b)
    ensures Score(a) == Score(b)
  {
    TotalImpactOrderIndependent(a, b);
  }

  /** With no negative penalty the score lies in [0, 100]; it is 0 exactly
      when the penalties add up to 100 or more. */
  lemma ScoreInRange(results: seq<CheckResult>)
    requires NonNegativeImpacts(results)
    ensures 0 <= Score(results) <= 100
    ensures Score(results) == 0 <==> TotalImpact(results) >= 100
  {
    ImpactsNonNegative(results);
  }

  /** There is no upper clamp: a negative penalty lifts the score above 100,
      and such a score falls into the wildcard arm of `grade`. */
  lemma NoUpperClamp(r: CheckResult)
    requires r.scoreImpact < 0
    ensures Score([r]) == 100 - r.scoreImpact > 100
    ensures Grade(Score([r])) == "F"
  {
    assert [r][..0] == [];
    assert TotalImpact([r]) == r.scoreImpact;
  }

  /** `grade`: the letter of a score through the inclusive bands 90..=100,
      75..=89, 60..=74 and 40..=59; every other integer, below 0 or above
      100 included, takes the wildcard arm and gets "F". */
  function Grade(score: int): (letter: string)
    ensures letter in {"A", "B", "C", "D", "F"}
    ensures score < 0 || score > 100 ==> letter == "F"
  {
    if 90 <= score <= 100 then "A"
    else if 75 <= score <= 89 then "B"
    else if 60 <= score <= 74 then "C"
    else if 40 <= score <= 59 then "D"
    else "F"
  }

  /** The position of a letter in the order F < D < C < B < A. */
  function LetterRank(letter: string): int {
    match letter
    case "A" => 4
    case "B" => 3
    case "C" => 2
    case "D" => 1
    case _ => 0
  }

  /** Each band's lower and upper boundary gets the band's letter. */
  lemma GradeBoundaries()
    ensures Grade(100) == "A" && Grade(90) == "A"
    ensures Grade(89) == "B" && Grade(75) == "B"
    ensures Grade(74) == "C" && Grade(60) == "C"
    ensures Grade(59) == "D" && Grade(40) == "D"
    ensures Grade(39) == "F" && Grade(0) == "F"
  {
  }

  /** Up to 100 a higher score never gets a worse letter; only above 100
      does the wildcard arm break the order. */
  lemma GradeMonotone(s1: int, s2: int)
    requires s1 <= s2 <= 100
    ensures LetterRank(Grade(s1)) <= LetterRank(Grade(s2))
  {
  }

  /** Three reference scoring scenarios: all-compliant results, a mix
      of findings, and penalties beyond the baseline. */
  lemma Scenarios(r1: CheckResult, r2: CheckResult, r3: CheckResult)
    ensures r1.scoreImpact == 0 && r2.scoreImpact == 0 && r3.scoreImpact == 0 ==>
              Score([r1, r2, r3]) == 100 && Grade(Score([r1, r2, r3])) == "A"
    ensures r1.scoreImpact == 25 && r2.scoreImpact == 10 && r3.scoreImpact == 20 ==>
              Score([r1, r2, r3]) == 45 && Grade(Score([r1, r2, r3])) == "D"
    ensures r1.scoreImpact == 60 && r2.scoreImpact == 60 ==>
              Score([r1, r2]) == 0 && Grade(Score([r1, r2])) == "F"
  {
    TotalImpactOfFew(r1, r2, r3);
  }

  /** When both SSH checks see the same configuration, their penalties add
      up to at most 35: 20 + 15 when it is missing or unreadable, at most
      25 + 10 when it is read. */
  lemma SshPenaltiesBounded(file: FileState)
    ensures 0 <= SshCheck(PermitRootLogin, file).scoreImpact + SshCheck(PasswordAuthentication, file).scoreImpact <= 35
  {
    var root := SshCheck(PermitRootLogin, file);
    var password := SshCheck(PasswordAuthentication, file);
    if file.Contents? {
      assert root.scoreImpact in {0, 10, 25};
      assert password.scoreImpact in {0, 5, 10};
    }
  }

  /** Each SSH check opens and reads the configuration on its own, so the
      two may see different states of it; their penalties then add up to at
      most 25 + 15 = 40. */
  lemma SshPenaltiesBoundedTwoReads(rootFile: FileState, passwordFile: FileState)
    ensures 0 <= SshCheck(PermitRootLogin, rootFile).scoreImpact
                 + SshCheck(PasswordAuthentication, passwordFile).scoreImpact <= 40
  {
    var root := SshCheck(PermitRootLogin, rootFile);
    var password := SshCheck(PasswordAuthentication, passwordFile);
    assert root.scoreImpact in {0, 10, 20, 25};
    assert password.scoreImpact in {0, 5, 10, 15};
  }

  /** A full audit in which both SSH checks see the same configuration,
      plus the firewall check, never scores below 40 and so never grades "F". */
  lemma AuditScoreRange(file: FileState, ufw: Option<string>, firewalld: Option<string>)
    ensures var results := [SshCheck(PermitRootLogin, file), SshCheck(PasswordAuthentication, file),
                            CheckFirewallStatus(ufw, firewalld)];
            40 <= Score(results) <= 100 && Grade(Score(results)) != "F"
  {
    var root := SshCheck(PermitRootLogin, file);
    var password := SshCheck(PasswordAuthentication, file);
    var firewall := CheckFirewallStatus(ufw, firewalld);
    SshPenaltiesBounded(file);
    assert 0 <= firewall.scoreImpact <= 25;
    TotalImpactOfFew(root, password, firewall);
  }

  /** A full audit in which the two SSH checks may see different states of
      the configuration scores at least 35. */
  lemma AuditScoreRangeTwoReads(rootFile: FileState, passwordFile: FileState,
                                ufw: Option<string>, firewalld: Option<string>)
    ensures var results := [SshCheck(PermitRootLogin, rootFile), SshCheck(PasswordAuthentication, passwordFile),
                            CheckFirewallStatus(ufw, firewalld)];
            35 <= Score(results) <= 100
  {
    var root := SshCheck(PermitRootLogin, rootFile);
    var password := SshCheck(PasswordAuthentication, passwordFile);
    var firewall := CheckFirewallStatus(ufw, firewalld);
    SshPenaltiesBoundedTwoReads(rootFile, passwordFile);
    assert 0 <= firewall.scoreImpact <= 25;
    TotalImpactOfFew(root, password, firewall);
  }

  /** The bound of 35 is reached, and that score grades "F": the root-login
      check reads `PermitRootLogin yes`, the configuration is gone when the
      password check looks, and no firewall tool runs. */
  lemma FileChangedBetweenReads(sp: string)
    requires sp != [] && AllWhitespace(sp)
    ensures var results := [SshCheck(PermitRootLogin, Contents([Some("PermitRootLogin" + sp + "yes")])),
                            SshCheck(PasswordAuthentication, Missing), CheckFirewallStatus(None, None)];
            Score(results) == 35 && Grade(Score(results)) == "F"
  {
    var root := SshCheck(PermitRootLogin, Contents([Some("PermitRootLogin" + sp + "yes")]));
    var password := SshCheck(PasswordAuthentication, Missing);
    var firewall := CheckFirewallStatus(None, None);
    RootLoginValues(sp, "yes");
    NoFirewallTools();
    TotalImpactOfFew(root, password, firewall);
  }
}
