/** `pro fix`: the interpreter that runs a fix plan (`execute_fix_plan`), the
    messages and decisions it relies on, and the USN and CVE drivers that
    call it. Everything outside the process (root check, attachment and
    contract state, prompts, apt, the reboot check) is an oracle in `FixEnv`. */
module Fix {
  import opened Wrappers
  import opened FixPlan
  import Lex
  import StableSort

  // ---------------------------------------------------------------------
  // status_message and _format_packages_message

  /** A pocket is given: the optional `pocket_source` string is truthy
      (present and non-empty). */
  predicate PocketGiven(s: Option<string>)
  {
    s.Some? && s.value != ""
  }

  /** The CVE status strings `status_message` recognises, whatever the pocket. */
  const KnownStatuses: set<string> :=
    {"needed", "needs-triage", "pending", "ignored", "deferred", "DNE", "not-affected"}

  /** `status_message(status, pocket_source)`. */
  function StatusMessageOf(status: string, pocketSource: Option<string>): (m: StatusMessage)
    ensures status == "released" && PocketGiven(pocketSource) ==> m == FixReleaseStream(pocketSource.value)
    ensures m.CveStatusUnknown? <==> status !in KnownStatuses && !(status == "released" && PocketGiven(pocketSource))
    ensures m.CveStatusUnknown? ==> m.status == status
  {
    if status == "needed" then CveStatusNeeded
    else if status == "needs-triage" then CveStatusTriage
    else if status == "pending" then CveStatusPending
    else if status == "ignored" || status == "deferred" then CveStatusIgnored
    else if status == "DNE" then CveStatusDne
    else if status == "not-affected" then CveStatusNotAffected
    else if status == "released" && PocketGiven(pocketSource) then FixReleaseStream(pocketSource.value)
    else CveStatusUnknown(status)
  }

  /** "released" without a pocket is not special: it reads as an unknown status. */
  lemma ReleasedNeedsPocket(pocketSource: Option<string>)
    ensures StatusMessageOf("released", pocketSource) ==
      if PocketGiven(pocketSource) then FixReleaseStream(pocketSource.value) else CveStatusUnknown("released")
  {
  }

  /** The message each status `status_message` recognises maps to, whatever the pocket. */
  lemma KnownStatusMessages(pocketSource: Option<string>)
    ensures StatusMessageOf("needed", pocketSource) == CveStatusNeeded
    ensures StatusMessageOf("needs-triage", pocketSource) == CveStatusTriage
    ensures StatusMessageOf("pending", pocketSource) == CveStatusPending
    ensures StatusMessageOf("ignored", pocketSource) == CveStatusIgnored
    ensures StatusMessageOf("deferred", pocketSource) == CveStatusIgnored
    ensures StatusMessageOf("DNE", pocketSource) == CveStatusDne
    ensures StatusMessageOf("not-affected", pocketSource) == CveStatusNotAffected
  {
  }

  /** The "(i/n)" label printed in front of a package. */
  datatype PackageLabel = PackageLabel(index: int, total: int)

  /** What `_format_packages_message` prints: nothing, or the labels, the
      sorted package names and the status message (line wrapping is left out). */
  datatype PackagesMessage =
    | NoPackagesMessage
    | PackagesMessage(labels: seq<PackageLabel>, packages: seq<string>, status: StatusMessage)

  /** `_format_packages_message(pkg_list, status, pkg_index, num_pkgs, pocket_source)`. */
  method FormatPackagesMessage(pkgList: seq<string>, status: string, pkgIndex: int, numPkgs: int,
                               pocketSource: Option<string>) returns (m: PackagesMessage)
    ensures pkgList == [] <==> m.NoPackagesMessage?
    ensures m.PackagesMessage? ==>
      && |m.labels| == |pkgList|
      && (forall i :: 0 <= i < |pkgList| ==> m.labels[i] == PackageLabel(pkgIndex + i + 1, numPkgs))
      && Lex.Sorted(m.packages)
      && multiset(m.packages) == multiset(pkgList)
      && m.status == StatusMessageOf(status, pocketSource)
  {
    if pkgList == [] {
      return NoPackagesMessage;
    }
    var index := pkgIndex;
    var msgIndex: seq<PackageLabel> := [];
    var srcPkgs: seq<string> := [];
    var i := 0;
    while i < |pkgList|
      invariant 0 <= i <= |pkgList|
      invariant index == pkgIndex + i
      invariant |msgIndex| == i
      invariant forall j :: 0 <= j < i ==> msgIndex[j] == PackageLabel(pkgIndex + j + 1, numPkgs)
      invariant srcPkgs == pkgList[..i]
    {
      index := index + 1;
      msgIndex := msgIndex + [PackageLabel(index, numPkgs)];
      srcPkgs := srcPkgs + [pkgList[i]];
      i := i + 1;
    }
    assert srcPkgs == pkgList;
    m := PackagesMessage(msgIndex, Lex.Sort(srcPkgs), StatusMessageOf(status, pocketSource));
  }

  // ---------------------------------------------------------------------
  // Subscription and service decisions

  /** `_check_subscription_is_expired`, given whether the contract is expired. */
  function CheckSubscriptionIsExpired(contractExpired: bool, dryRun: bool): (r: bool)
    ensures dryRun ==> !r
    ensures r ==> contractExpired
    ensures contractExpired && !dryRun ==> r
  {
    if contractExpired then
      if dryRun then false else true
    else false
  }

  /** `_handle_subscription_for_required_service`, given the entitlement's
      state and the answer the enable prompt would produce. */
  function HandleSubscriptionForRequiredService(active: bool, applicable: bool, dryRun: bool,
                                                promptEnables: bool): (r: bool)
    ensures r <==> active || (applicable && (dryRun || promptEnables))
  {
    if active then true
    else if applicable then
      if dryRun then true
      else if promptEnables then true
      else false
    else false
  }

  // ---------------------------------------------------------------------
  // The interpreter

  /** The outside world of one run. Answers that can differ from one entry to
      the next are indexed by the entry's position in the sorted plan. */
  datatype FixEnv = FixEnv(
    isRoot: bool,
    isAttached: nat -> bool,
    contractExpired: nat -> bool,
    attachPrompt: nat -> bool,
    renewPrompt: nat -> bool,
    serviceActive: nat -> bool,
    serviceApplicable: nat -> bool,
    enablePrompt: nat -> bool,
    aptSucceeds: nat -> bool,
    shouldReboot: set<string> -> bool)

  /** The running state of `execute_fix_plan`. */
  datatype Progress = Progress(
    status: FixStatus,
    unfixed: seq<UnfixedPackage>,
    installed: set<string>,
    pkgIndex: int)

  /** What handling one entry does to the loop: go on, or `break`. */
  datatype StepOutcome = Continue(progress: Progress) | Stop(progress: Progress)

  const InitialProgress := Progress(SystemNonVulnerable, [], {}, 0)

  /** One unfixed record per package, all with the same reason. */
  function UnfixedFor(pkgs: seq<string>, reason: UnfixedReason): (r: seq<UnfixedPackage>)
    ensures |r| == |pkgs|
    ensures forall i :: 0 <= i < |pkgs| ==> r[i] == UnfixedPackage(pkgs[i], reason)
  {
    seq(|pkgs|, i requires 0 <= i < |pkgs| => UnfixedPackage(pkgs[i], reason))
  }

  /** `[*fix_plan.plan, *fix_plan.warnings]`. */
  function FullPlan(plan: FixPlanResult): (r: seq<Entry>)
    ensures |r| == |plan.plan| + |plan.warnings|
    ensures forall i :: 0 <= i < |plan.plan| ==> r[i] == Step(plan.plan[i])
    ensures forall i :: 0 <= i < |plan.warnings| ==> r[|plan.plan| + i] == Warning(plan.warnings[i])
  {
    seq(|plan.plan|, i requires 0 <= i < |plan.plan| => Step(plan.plan[i])) +
    seq(|plan.warnings|, i requires 0 <= i < |plan.warnings| => Warning(plan.warnings[i]))
  }

  function Orders(es: seq<Entry>): (r: seq<int>)
    ensures |r| == |es| && forall i :: 0 <= i < |es| ==> r[i] == es[i].Order()
  {
    seq(|es|, i requires 0 <= i < |es| => es[i].Order())
  }

  /** `sorted(full_plan, key=lambda x: x.order)`. */
  function SortedEntries(plan: FixPlanResult): seq<Entry>
  {
    var full := FullPlan(plan);
    StableSort.Permute(full, StableSort.SortedPositions(Orders(full)))
  }

  /** The body of the loop of `execute_fix_plan` for the entry at position `k`. */
  function ApplyEntry(e: Entry, k: nat, p: Progress, dryRun: bool, env: FixEnv): (r: StepOutcome)
    ensures |p.unfixed| <= |r.progress.unfixed| && r.progress.unfixed[..|p.unfixed|] == p.unfixed
    ensures r.Stop? ==> e.Step? && (e.step.Attach? || e.step.Enable?)
                        && r.progress.status == SystemStillVulnerable
                        && |r.progress.unfixed| == |p.unfixed| + |e.step.sourcePackages|
                        && r.progress.installed == p.installed && r.progress.pkgIndex == p.pkgIndex
  {
    match e
    case Warning(PackageCannotBeInstalled(_, src, bin, version, _, _)) =>
      Continue(p.(unfixed := p.unfixed + [UnfixedPackage(src, CannotInstallPackage(bin, version))],
                  status := SystemStillVulnerable))
    case Warning(SecurityIssueNotFixed(_, srcs, status)) =>
      Continue(p.(pkgIndex := p.pkgIndex + |srcs|,
                  unfixed := p.unfixed + UnfixedFor(srcs, FromCveStatus(StatusMessageOf(status, None))),
                  status := SystemStillVulnerable))
    case Step(AptUpgrade(_, srcs, bins, _)) =>
      var q := p.(pkgIndex := p.pkgIndex + |srcs|);
      if bins == [] then Continue(q)
      else if !env.isRoot && !dryRun then
        Continue(q.(status := SystemStillVulnerable, unfixed := q.unfixed + UnfixedFor(srcs, AptNonRoot)))
      else if dryRun then Continue(q)
      else if env.aptSucceeds(k) then Continue(q.(installed := q.installed + set b | b in bins))
      else Continue(q.(status := SystemStillVulnerable))
    case Step(Attach(_, srcs, service)) =>
      if !env.isAttached(k) then
        if dryRun || env.attachPrompt(k) then Continue(p)
        else Stop(p.(unfixed := p.unfixed + UnfixedFor(srcs, ServiceRequired(service)),
                     status := SystemStillVulnerable))
      else if CheckSubscriptionIsExpired(env.contractExpired(k), dryRun) then
        if dryRun || env.renewPrompt(k) then Continue(p)
        else Stop(p.(unfixed := p.unfixed + UnfixedFor(srcs, ServiceWithExpiredSubscription(service)),
                     status := SystemStillVulnerable))
      else Continue(p)
    case Step(Enable(_, srcs, service)) =>
      if !HandleSubscriptionForRequiredService(env.serviceActive(k), env.serviceApplicable(k),
                                               dryRun, env.enablePrompt(k)) then
        Stop(p.(unfixed := p.unfixed + UnfixedFor(srcs, ServiceNotEnabled(service)),
                status := SystemStillVulnerable))
      else Continue(p)
    case Step(NoOp(_, status)) =>
      if status == NoOpNotAffected then Continue(p.(status := SystemNotAffected)) else Continue(p)
    case Step(NoOpLivepatchFix(_, _)) =>
      Continue(p)
    case Step(NoOpAlreadyFixed(_, srcs, _)) =>
      Continue(p.(pkgIndex := p.pkgIndex + |srcs|))
  }

  /** The loop of `execute_fix_plan` from position `k` on. */
  function RunEntries(es: seq<Entry>, k: nat, p: Progress, dryRun: bool, env: FixEnv): Progress
    decreases |es| - k
  {
    if k >= |es| then p
    else
      match ApplyEntry(es[k], k, p, dryRun, env)
      case Stop(q) => q
      case Continue(q) => RunEntries(es, k + 1, q, dryRun, env)
  }

  /** The two overrides after the loop: unfixed packages first, then the reboot check. */
  function Finish(p: Progress, env: FixEnv): (FixStatus, seq<UnfixedPackage>)
  {
    var status := if |p.unfixed| > 0 then SystemStillVulnerable else p.status;
    var status := if status == SystemNonVulnerable && env.shouldReboot(p.installed)
                  then SystemVulnerableUntilReboot else status;
    (status, p.unfixed)
  }

  /** The result of `execute_fix_plan(fix_plan, dry_run, cfg)`. */
  function ExecuteSpec(plan: FixPlanResult, dryRun: bool, env: FixEnv): (FixStatus, seq<UnfixedPackage>)
  {
    Finish(RunEntries(SortedEntries(plan), 0, InitialProgress, dryRun, env), env)
  }

  /** `for source_pkg in pkgs: unfixed_pkgs.append(UnfixedPackage(source_pkg, reason))`. */
  method AppendUnfixed(unfixed: seq<UnfixedPackage>, pkgs: seq<string>, reason: UnfixedReason)
    returns (r: seq<UnfixedPackage>)
    ensures r == unfixed + UnfixedFor(pkgs, reason)
  {
    r := unfixed;
    var i := 0;
    while i < |pkgs|
      invariant 0 <= i <= |pkgs|
      invariant r == unfixed + UnfixedFor(pkgs[..i], reason)
    {
      assert UnfixedFor(pkgs[..i + 1], reason) == UnfixedFor(pkgs[..i], reason) + [UnfixedPackage(pkgs[i], reason)];
      r := r + [UnfixedPackage(pkgs[i], reason)];
      i := i + 1;
    }
    assert pkgs[..i] == pkgs;
  }

  /** The body of the loop of `execute_fix_plan` for the entry at position
      `k`: updates the four pieces of running state and says whether the
      loop breaks. */
  method HandleEntry(e: Entry, k: nat, dryRun: bool, env: FixEnv,
                     fixStatus0: FixStatus, unfixedPkgs0: seq<UnfixedPackage>,
                     installedPkgs0: set<string>, pkgIndex0: int)
    returns (fixStatus: FixStatus, unfixedPkgs: seq<UnfixedPackage>, installedPkgs: set<string>,
             pkgIndex: int, stop: bool)
    ensures var q := Progress(fixStatus, unfixedPkgs, installedPkgs, pkgIndex);
      ApplyEntry(e, k, Progress(fixStatus0, unfixedPkgs0, installedPkgs0, pkgIndex0), dryRun, env)
        == if stop then Stop(q) else Continue(q)
  {
    fixStatus, unfixedPkgs, installedPkgs, pkgIndex, stop :=
      fixStatus0, unfixedPkgs0, installedPkgs0, pkgIndex0, false;
    match e {
      case Warning(PackageCannotBeInstalled(_, src, bin, version, _, _)) =>
        unfixedPkgs := unfixedPkgs + [UnfixedPackage(src, CannotInstallPackage(bin, version))];
        fixStatus := SystemStillVulnerable;
      case Warning(SecurityIssueNotFixed(_, srcs, status)) =>
        pkgIndex := pkgIndex + |srcs|;
        unfixedPkgs := AppendUnfixed(unfixedPkgs, srcs, FromCveStatus(StatusMessageOf(status, None)));
        fixStatus := SystemStillVulnerable;
      case Step(AptUpgrade(_, srcs, bins, _)) =>
        pkgIndex := pkgIndex + |srcs|;
        if bins == [] {
          return;
        }
        if !env.isRoot && !dryRun {
          fixStatus := SystemStillVulnerable;
          unfixedPkgs := AppendUnfixed(unfixedPkgs, srcs, AptNonRoot);
          return;
        }
        if dryRun {
          return;
        }
        if env.aptSucceeds(k) {
          installedPkgs := installedPkgs + set b | b in bins;
        } else {
          fixStatus := SystemStillVulnerable;
        }
      case Step(Attach(_, srcs, service)) =>
        if !env.isAttached(k) {
          if !dryRun && !env.attachPrompt(k) {
            unfixedPkgs := AppendUnfixed(unfixedPkgs, srcs, ServiceRequired(service));
            fixStatus := SystemStillVulnerable;
            stop := true;
          }
        } else if CheckSubscriptionIsExpired(env.contractExpired(k), dryRun) {
          if !dryRun && !env.renewPrompt(k) {
            unfixedPkgs := AppendUnfixed(unfixedPkgs, srcs, ServiceWithExpiredSubscription(service));
            fixStatus := SystemStillVulnerable;
            stop := true;
          }
        }
      case Step(Enable(_, srcs, service)) =>
        if !HandleSubscriptionForRequiredService(env.serviceActive(k), env.serviceApplicable(k),
                                                 dryRun, env.enablePrompt(k)) {
          unfixedPkgs := AppendUnfixed(unfixedPkgs, srcs, ServiceNotEnabled(service));
          fixStatus := SystemStillVulnerable;
          stop := true;
        }
      case Step(NoOp(_, status)) =>
        if status == NoOpNotAffected {
          fixStatus := SystemNotAffected;
        }
      case Step(NoOpLivepatchFix(_, _)) =>
      case Step(NoOpAlreadyFixed(_, srcs, _)) =>
        pkgIndex := pkgIndex + |srcs|;
    }
  }

  /** `execute_fix_plan`: runs the sorted entries, stopping early when an
      attach or an enable fails, then applies the two overrides. */
  method ExecuteFixPlan(plan: FixPlanResult, dryRun: bool, env: FixEnv)
    returns (fixStatus: FixStatus, unfixedPkgs: seq<UnfixedPackage>)
    ensures (fixStatus, unfixedPkgs) == ExecuteSpec(plan, dryRun, env)
  {
    var entries := SortedEntries(plan);
    ghost var final := RunEntries(entries, 0, InitialProgress, dryRun, env);
    var pkgIndex := 0;
    unfixedPkgs := [];
    var installedPkgs: set<string> := {};
    fixStatus := SystemNonVulnerable;
    var k := 0;
    while k < |entries|
      invariant 0 <= k <= |entries|
      invariant RunEntries(entries, k, Progress(fixStatus, unfixedPkgs, installedPkgs, pkgIndex), dryRun, env) == final
    {
      var stop;
      fixStatus, unfixedPkgs, installedPkgs, pkgIndex, stop :=
        HandleEntry(entries[k], k, dryRun, env, fixStatus, unfixedPkgs, installedPkgs, pkgIndex);
      if stop {
        break;
      }
      k := k + 1;
    }
    assert Progress(fixStatus, unfixedPkgs, installedPkgs, pkgIndex) == final;
    if |unfixedPkgs| > 0 {
      fixStatus := SystemStillVulnerable;
    }
    if fixStatus == SystemNonVulnerable && env.shouldReboot(installedPkgs) {
      fixStatus := SystemVulnerableUntilReboot;
    }
  }

  // ---------------------------------------------------------------------
  // The CVE and USN drivers

  /** `fix_cve`: a plan with an error raises `UserFacingError` carrying its
      message; otherwise the plan runs and its status is returned. */
  method FixCve(plan: FixPlanResult, dryRun: bool, env: FixEnv) returns (r: Result<FixStatus, string>)
    ensures plan.error.Some? ==> r == Failure(plan.error.value)
    ensures plan.error.None? ==> r == Success(ExecuteSpec(plan, dryRun, env).0)
  {
    if plan.error.Some? {
      return Failure(plan.error.value);
    }
    var status, _ := ExecuteFixPlan(plan, dryRun, env);
    r := Success(status);
  }

  /** Whether `fix_usn` goes on to the related USNs after the target ran. */
  function ShouldFixRelated(targetStatus: FixStatus, related: seq<FixPlanResult>, noRelated: bool): (b: bool)
    ensures b <==> (targetStatus == SystemNonVulnerable || targetStatus == SystemNotAffected)
                   && related != [] && !noRelated
  {
    if targetStatus != SystemNonVulnerable && targetStatus != SystemNotAffected then false
    else if related == [] || noRelated then false
    else true
  }

  /** The statuses a related run leaves in the summary. */
  predicate IsRelatedFailure(status: FixStatus)
  {
    status == SystemVulnerableUntilReboot || status == SystemStillVulnerable
  }

  /** The result of each related plan, plan `i` run in `relatedEnv(i)`. */
  function RelatedRuns(related: seq<FixPlanResult>, dryRun: bool, relatedEnv: nat -> FixEnv)
    : (r: seq<(FixStatus, seq<UnfixedPackage>)>)
    ensures |r| == |related|
  {
    seq(|related|, i requires 0 <= i < |related| => ExecuteSpec(related[i], dryRun, relatedEnv(i)))
  }

  /** `related_usn_status` after the first `n` related plans ran: a dict keyed
      by title, so a later plan with the same title replaces the earlier result. */
  function StatusByTitle(related: seq<FixPlanResult>, runs: seq<(FixStatus, seq<UnfixedPackage>)>, n: nat)
    : map<string, (FixStatus, seq<UnfixedPackage>)>
    requires n <= |related| == |runs|
  {
    if n == 0 then map[]
    else StatusByTitle(related, runs, n - 1)[related[n - 1].title := runs[n - 1]]
  }

  /** `failure_on_related_usn` after the summary loop over the first `n` plans. */
  function RelatedFailure(related: seq<FixPlanResult>, n: nat,
                          statuses: map<string, (FixStatus, seq<UnfixedPackage>)>): bool
    requires n <= |related|
  {
    if n == 0 then false
    else
      var title := related[n - 1].title;
      RelatedFailure(related, n - 1, statuses) || (title in statuses && IsRelatedFailure(statuses[title].0))
  }

  /** What one `fix_usn` call decides: its return value (or the
      `UserFacingError` message), the per-title results of the related runs,
      and whether the related-USN error line is printed. */
  datatype UsnFixOutcome = UsnFixOutcome(
    result: Result<FixStatus, string>,
    relatedStatus: map<string, (FixStatus, seq<UnfixedPackage>)>,
    failureOnRelated: bool)

  /** `fix_usn`, on a plan already computed by `usn_plan`. */
  method FixUsn(usnPlan: FixPlanUsnResult, dryRun: bool, noRelated: bool, env: FixEnv,
                relatedEnv: nat -> FixEnv) returns (out: UsnFixOutcome)
    ensures usnPlan.targetUsnPlan.error.Some? ==>
      out == UsnFixOutcome(Failure(usnPlan.targetUsnPlan.error.value), map[], false)
    ensures usnPlan.targetUsnPlan.error.None? ==>
      var target := ExecuteSpec(usnPlan.targetUsnPlan, dryRun, env).0;
      var related := usnPlan.relatedUsnsPlan;
      && out.result == Success(target)
      && (!ShouldFixRelated(target, related, noRelated) ==> out.relatedStatus == map[] && !out.failureOnRelated)
      && (ShouldFixRelated(target, related, noRelated) ==>
            && out.relatedStatus == StatusByTitle(related, RelatedRuns(related, dryRun, relatedEnv), |related|)
            && out.failureOnRelated == RelatedFailure(related, |related|, out.relatedStatus))
  {
    var target := usnPlan.targetUsnPlan;
    if target.error.Some? {
      return UsnFixOutcome(Failure(target.error.value), map[], false);
    }
    var targetStatus, _ := ExecuteFixPlan(target, dryRun, env);
    var related := usnPlan.relatedUsnsPlan;
    if targetStatus != SystemNonVulnerable && targetStatus != SystemNotAffected {
      return UsnFixOutcome(Success(targetStatus), map[], false);
    }
    if related == [] || noRelated {
      return UsnFixOutcome(Success(targetStatus), map[], false);
    }
    var relatedStatus := RunRelatedPlans(related, dryRun, relatedEnv);
    StatusByTitleKeys(related, RelatedRuns(related, dryRun, relatedEnv), |related|);
    forall i | 0 <= i < |related| ensures related[i].title in relatedStatus {
      assert related[i].title in Titles(related, |related|);
    }
    var failure := FailureOnRelated(related, relatedStatus);
    out := UsnFixOutcome(Success(targetStatus), relatedStatus, failure);
  }

  /** The first loop of `fix_usn` after the target: runs every related plan
      and records its result under its title. */
  method RunRelatedPlans(related: seq<FixPlanResult>, dryRun: bool, relatedEnv: nat -> FixEnv)
    returns (relatedStatus: map<string, (FixStatus, seq<UnfixedPackage>)>)
    ensures relatedStatus == StatusByTitle(related, RelatedRuns(related, dryRun, relatedEnv), |related|)
  {
    ghost var runs := RelatedRuns(related, dryRun, relatedEnv);
    relatedStatus := map[];
    var i := 0;
    while i < |related|
      invariant 0 <= i <= |related|
      invariant relatedStatus == StatusByTitle(related, runs, i)
    {
      var status, unfixed := RunRelatedPlan(related, i, dryRun, relatedEnv);
      relatedStatus := relatedStatus[related[i].title := (status, unfixed)];
      i := i + 1;
    }
  }

  /** `execute_fix_plan` on the related plan at position `i`. */
  method RunRelatedPlan(related: seq<FixPlanResult>, i: nat, dryRun: bool, relatedEnv: nat -> FixEnv)
    returns (status: FixStatus, unfixed: seq<UnfixedPackage>)
    requires i < |related|
    ensures (status, unfixed) == RelatedRuns(related, dryRun, relatedEnv)[i]
  {
    status, unfixed := ExecuteFixPlan(related[i], dryRun, relatedEnv(i));
  }

  /** The summary loop of `fix_usn`: whether some related plan's recorded
      result needs a reboot or left the system vulnerable. */
  method FailureOnRelated(related: seq<FixPlanResult>,
                          relatedStatus: map<string, (FixStatus, seq<UnfixedPackage>)>)
    returns (failure: bool)
    requires forall i :: 0 <= i < |related| ==> related[i].title in relatedStatus
    ensures failure == RelatedFailure(related, |related|, relatedStatus)
  {
    failure := false;
    var j := 0;
    while j < |related|
      invariant 0 <= j <= |related|
      invariant failure == RelatedFailure(related, j, relatedStatus)
    {
      var (status, _) := relatedStatus[related[j].title];
      if IsRelatedFailure(status) {
        failure := true;
      }
      j := j + 1;
    }
  }

  /** Every title run so far is a key of `related_usn_status`, and only those. */
  lemma {:induction false} StatusByTitleKeys(related: seq<FixPlanResult>,
                                             runs: seq<(FixStatus, seq<UnfixedPackage>)>, n: nat)
    requires n <= |related| == |runs|
    ensures StatusByTitle(related, runs, n).Keys == Titles(related, n)
    decreases n
  {
    if n > 0 {
      StatusByTitleKeys(related, runs, n - 1);
      assert Titles(related, n) == Titles(related, n - 1) + {related[n - 1].title};
    }
  }

  /** The titles of the first `n` related plans. */
  function Titles(related: seq<FixPlanResult>, n: nat): set<string>
    requires n <= |related|
  {
    set i | 0 <= i < n :: related[i].title
  }
}
