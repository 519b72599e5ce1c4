/** What `execute_fix_plan` promises, proved of the specification functions
    of module Fix (and so, through `ExecuteFixPlan`'s postcondition, of the
    imperative loop). */
module FixProperties {
  import opened Wrappers
  import opened FixPlan
  import opened Fix
  import StableSort

  // ---------------------------------------------------------------------
  // Execution order

  /** The entries run in non-decreasing `order`, every entry of the plan runs
      once (as a multiset), and ties keep the original position, so on a tie
      every plan step runs before every warning. */
  lemma SortedEntriesOrder(plan: FixPlanResult)
    ensures var full := FullPlan(plan);
            var ps := StableSort.SortedPositions(Orders(full));
            var es := SortedEntries(plan);
            && |es| == |full| && |ps| == |full|
            && multiset(es) == multiset(full)
            && (forall i :: 0 <= i < |es| ==> ps[i] < |full| && es[i] == full[ps[i]])
            && (forall i, j :: 0 <= i < j < |es| ==> es[i].Order() <= es[j].Order())
            && (forall i, j :: 0 <= i < j < |es| && es[i].Order() == es[j].Order() ==> ps[i] < ps[j])
            && (forall i, j :: 0 <= i < j < |es| && es[i].Order() == es[j].Order() && es[j].Step? ==> es[i].Step?)
  {
    var full := FullPlan(plan);
    var keys := Orders(full);
    var ps := StableSort.SortedPositions(keys);
    var es := SortedEntries(plan);
    StableSort.SortPrefixPermutes(full, keys, |full|);
    assert full[..|full|] == full;
    forall i, j | 0 <= i < j < |es| ensures es[i].Order() <= es[j].Order() {
      assert StableSort.Before(keys, ps[i], ps[j]);
    }
    forall i, j | 0 <= i < j < |es| && es[i].Order() == es[j].Order() && es[j].Step?
      ensures es[i].Step?
    {
      assert StableSort.Before(keys, ps[i], ps[j]);
      assert full[ps[i]] == Step(plan.plan[ps[i]]);
    }
  }

  /** A plan whose entries are already in non-decreasing `order` runs exactly
      as listed: steps first, then warnings. */
  lemma InOrderPlanRunsAsListed(plan: FixPlanResult)
    requires var full := FullPlan(plan);
             forall i, j :: 0 <= i < j < |full| ==> full[i].Order() <= full[j].Order()
    ensures SortedEntries(plan) == FullPlan(plan)
  {
    var full := FullPlan(plan);
    var keys := Orders(full);
    var id := seq(|full|, i requires 0 <= i < |full| => i as nat);
    assert StableSort.StablySorted(keys, id) by {
      forall i, j | 0 <= i < j < |id| ensures StableSort.Before(keys, id[i], id[j]) {
        assert full[i].Order() <= full[j].Order();
      }
    }
    var ps := StableSort.SortedPositions(keys);
    forall q: nat ensures q in ps <==> q in id {
      if q < |full| { assert id[q] == q; }
    }
    StableSort.StableOrderUnique(keys, ps, id);
  }

  // ---------------------------------------------------------------------
  // The overrides after the loop

  /** The returned list is the loop's list as is (not deduplicated); any
      unfixed package forces `SYSTEM_STILL_VULNERABLE`; the reboot status
      comes only from a clean `SYSTEM_NON_VULNERABLE` run whose installed
      packages need a reboot; otherwise the loop's status stands. */
  lemma FinishOverrides(p: Progress, env: FixEnv)
    ensures Finish(p, env).1 == p.unfixed
    ensures |p.unfixed| > 0 ==> Finish(p, env).0 == SystemStillVulnerable
    ensures p.status != SystemVulnerableUntilReboot ==>
      (Finish(p, env).0 == SystemVulnerableUntilReboot <==>
       p.status == SystemNonVulnerable && |p.unfixed| == 0 && env.shouldReboot(p.installed))
    ensures |p.unfixed| == 0 && !(p.status == SystemNonVulnerable && env.shouldReboot(p.installed)) ==>
      Finish(p, env).0 == p.status
  {
  }

  // ---------------------------------------------------------------------
  // One step at a time

  /** The binary packages an entry could install. */
  function EntryBinaries(e: Entry): set<string>
  {
    if e.Step? && e.step.AptUpgrade? then set b | b in e.step.binaryPackages else {}
  }

  /** The binary packages the entries from position `k` on could install. */
  function UpgradeCandidates(es: seq<Entry>, k: nat): set<string>
    decreases |es| - k
  {
    if k >= |es| then {} else EntryBinaries(es[k]) + UpgradeCandidates(es, k + 1)
  }

  predicate IsNoOpNotAffected(e: Entry)
  {
    e.Step? && e.step.NoOp? && e.step.status == NoOpNotAffected
  }

  /** What one entry can do to the running state: `installed_pkgs` grows
      only by an apt step's binaries and never in a dry run, `unfixed_pkgs`
      only grows at its end, and the status either stays, becomes
      `SYSTEM_STILL_VULNERABLE`, or is set to `SYSTEM_NOT_AFFECTED` by a no-op
      step. */
  lemma ApplyEntryEffects(e: Entry, k: nat, p: Progress, dryRun: bool, env: FixEnv)
    ensures var q := ApplyEntry(e, k, p, dryRun, env).progress;
      && p.installed <= q.installed <= p.installed + EntryBinaries(e)
      && (dryRun ==> q.installed == p.installed)
      && p.unfixed <= q.unfixed
      && (q.status == p.status || q.status == SystemStillVulnerable ||
          (q.status == SystemNotAffected && IsNoOpNotAffected(e)))
  {
  }

  // ---------------------------------------------------------------------
  // Over the whole loop

  /** Over the whole loop: installs only come from apt steps and never from a
      dry run, unfixed records are only appended, the loop itself never
      produces `SYSTEM_VULNERABLE_UNTIL_REBOOT`, and once the status is
      `SYSTEM_STILL_VULNERABLE` only a no-op `NOT_AFFECTED` step can change it. */
  lemma {:induction false} RunEntriesEffects(es: seq<Entry>, k: nat, p: Progress, dryRun: bool, env: FixEnv)
    ensures var r := RunEntries(es, k, p, dryRun, env);
      && p.installed <= r.installed <= p.installed + UpgradeCandidates(es, k)
      && (dryRun ==> r.installed == p.installed)
      && p.unfixed <= r.unfixed
      && (p.status != SystemVulnerableUntilReboot ==> r.status != SystemVulnerableUntilReboot)
      && (p.status == SystemStillVulnerable && (forall i :: k <= i < |es| ==> !IsNoOpNotAffected(es[i])) ==>
            r.status == SystemStillVulnerable)
    decreases |es| - k
  {
    if k < |es| {
      ApplyEntryEffects(es[k], k, p, dryRun, env);
      match ApplyEntry(es[k], k, p, dryRun, env)
      case Stop(q) =>
      case Continue(q) =>
        RunEntriesEffects(es, k + 1, q, dryRun, env);
    }
  }

  /** `execute_fix_plan` returns `SYSTEM_VULNERABLE_UNTIL_REBOOT` exactly when
      its loop ends in `SYSTEM_NON_VULNERABLE` with no unfixed package and the
      reboot check on the installed binaries says yes. */
  lemma RebootStatusExactly(plan: FixPlanResult, dryRun: bool, env: FixEnv)
    ensures var r := RunEntries(SortedEntries(plan), 0, InitialProgress, dryRun, env);
      ExecuteSpec(plan, dryRun, env).0 == SystemVulnerableUntilReboot <==>
      r.status == SystemNonVulnerable && |r.unfixed| == 0 && env.shouldReboot(r.installed)
  {
    RunEntriesEffects(SortedEntries(plan), 0, InitialProgress, dryRun, env);
  }

  /** A dry run installs nothing, so it ends in `SYSTEM_VULNERABLE_UNTIL_REBOOT`
      only if a reboot is pending with nothing installed. */
  lemma DryRunNoRebootStatus(plan: FixPlanResult, env: FixEnv)
    requires !env.shouldReboot({})
    ensures ExecuteSpec(plan, true, env).0 != SystemVulnerableUntilReboot
  {
    RunEntriesEffects(SortedEntries(plan), 0, InitialProgress, true, env);
  }

  /** A dry run never consults the prompts and never runs apt, and the root
      check only matters outside a dry run: the outcome does not depend on
      any of those answers. */
  lemma {:induction false} DryRunIgnoresPromptsAndApt(es: seq<Entry>, k: nat, p: Progress, env: FixEnv,
                                                      isRoot: bool, attachPrompt: nat -> bool,
                                                      renewPrompt: nat -> bool, enablePrompt: nat -> bool,
                                                      aptSucceeds: nat -> bool)
    ensures RunEntries(es, k, p, true, env) ==
      RunEntries(es, k, p, true, env.(isRoot := isRoot, attachPrompt := attachPrompt, renewPrompt := renewPrompt,
                                      enablePrompt := enablePrompt, aptSucceeds := aptSucceeds))
    decreases |es| - k
  {
    var env' := env.(isRoot := isRoot, attachPrompt := attachPrompt, renewPrompt := renewPrompt,
                     enablePrompt := enablePrompt, aptSucceeds := aptSucceeds);
    if k < |es| {
      assert ApplyEntry(es[k], k, p, true, env) == ApplyEntry(es[k], k, p, true, env');
      match ApplyEntry(es[k], k, p, true, env)
      case Stop(q) =>
      case Continue(q) =>
        DryRunIgnoresPromptsAndApt(es, k + 1, q, env, isRoot, attachPrompt, renewPrompt, enablePrompt, aptSucceeds);
    }
  }

  // ---------------------------------------------------------------------
  // The entry kinds

  /** Attach step, not attached, not a dry run, attach declined or failed:
      every source package is recorded with the subscription-required reason,
      the status is `SYSTEM_STILL_VULNERABLE`, and no later entry is processed
      (the result is the same whatever follows). */
  lemma AttachFailureStops(es: seq<Entry>, k: nat, p: Progress, env: FixEnv,
                           order: int, srcs: seq<string>, service: string)
    requires k < |es| && es[k] == Step(Attach(order, srcs, service))
    requires !env.isAttached(k) && !env.attachPrompt(k)
    ensures RunEntries(es, k, p, false, env) == RunEntries(es[..k + 1], k, p, false, env)
    ensures RunEntries(es, k, p, false, env) ==
      p.(unfixed := p.unfixed + UnfixedFor(srcs, ServiceRequired(service)), status := SystemStillVulnerable)
  {
  }

  /** The same when attached with an expired contract and the renewal fails. */
  lemma ExpiredRenewalFailureStops(es: seq<Entry>, k: nat, p: Progress, env: FixEnv,
                                   order: int, srcs: seq<string>, service: string)
    requires k < |es| && es[k] == Step(Attach(order, srcs, service))
    requires env.isAttached(k) && env.contractExpired(k) && !env.renewPrompt(k)
    ensures RunEntries(es, k, p, false, env) == RunEntries(es[..k + 1], k, p, false, env)
    ensures RunEntries(es, k, p, false, env) ==
      p.(unfixed := p.unfixed + UnfixedFor(srcs, ServiceWithExpiredSubscription(service)),
         status := SystemStillVulnerable)
  {
    assert CheckSubscriptionIsExpired(env.contractExpired(k), false);
    var q := p.(unfixed := p.unfixed + UnfixedFor(srcs, ServiceWithExpiredSubscription(service)),
                status := SystemStillVulnerable);
    assert ApplyEntry(es[k], k, p, false, env) == Stop(q);
    assert es[..k + 1][k] == es[k];
  }

  /** An attach step whose attachment holds (or a dry run) changes nothing. */
  lemma AttachSuccessContinues(es: seq<Entry>, k: nat, p: Progress, dryRun: bool, env: FixEnv,
                               order: int, srcs: seq<string>, service: string)
    requires k < |es| && es[k] == Step(Attach(order, srcs, service))
    requires dryRun || (if env.isAttached(k) then !env.contractExpired(k) || env.renewPrompt(k)
                        else env.attachPrompt(k))
    ensures RunEntries(es, k, p, dryRun, env) == RunEntries(es, k + 1, p, dryRun, env)
  {
  }

  /** An enable step whose service is not handled: every source package is
      recorded, the status is `SYSTEM_STILL_VULNERABLE`, and the loop stops;
      a handled service changes nothing. */
  lemma EnableStep(es: seq<Entry>, k: nat, p: Progress, dryRun: bool, env: FixEnv,
                   order: int, srcs: seq<string>, service: string)
    requires k < |es| && es[k] == Step(Enable(order, srcs, service))
    ensures var ok := HandleSubscriptionForRequiredService(env.serviceActive(k), env.serviceApplicable(k),
                                                           dryRun, env.enablePrompt(k));
      && (!ok ==> RunEntries(es, k, p, dryRun, env) == RunEntries(es[..k + 1], k, p, dryRun, env))
      && RunEntries(es, k, p, dryRun, env) ==
         if ok then RunEntries(es, k + 1, p, dryRun, env)
         else p.(unfixed := p.unfixed + UnfixedFor(srcs, ServiceNotEnabled(service)),
                 status := SystemStillVulnerable)
  {
  }

  /** An apt step with no binary packages only advances `pkg_index`; one run
      without root outside a dry run records every source package and goes
      on; a dry run records nothing and installs nothing. */
  lemma AptUpgradeStep(es: seq<Entry>, k: nat, p: Progress, dryRun: bool, env: FixEnv,
                       order: int, srcs: seq<string>, bins: seq<string>, pocket: string)
    requires k < |es| && es[k] == Step(AptUpgrade(order, srcs, bins, pocket))
    ensures bins == [] ==>
      RunEntries(es, k, p, dryRun, env) == RunEntries(es, k + 1, p.(pkgIndex := p.pkgIndex + |srcs|), dryRun, env)
    ensures bins != [] && !env.isRoot && !dryRun ==>
      RunEntries(es, k, p, dryRun, env) ==
      RunEntries(es, k + 1, p.(pkgIndex := p.pkgIndex + |srcs|, status := SystemStillVulnerable,
                               unfixed := p.unfixed + UnfixedFor(srcs, AptNonRoot)), dryRun, env)
    ensures dryRun ==>
      RunEntries(es, k, p, dryRun, env) == RunEntries(es, k + 1, p.(pkgIndex := p.pkgIndex + |srcs|), dryRun, env)
  {
  }

  /** A failed apt run marks the system still vulnerable but records no
      unfixed package; a successful one adds its binaries to the installed set. */
  lemma AptRunOutcome(es: seq<Entry>, k: nat, p: Progress, env: FixEnv,
                      order: int, srcs: seq<string>, bins: seq<string>, pocket: string)
    requires k < |es| && es[k] == Step(AptUpgrade(order, srcs, bins, pocket))
    requires bins != [] && env.isRoot
    ensures var q := p.(pkgIndex := p.pkgIndex + |srcs|);
      RunEntries(es, k, p, false, env) ==
      if env.aptSucceeds(k) then RunEntries(es, k + 1, q.(installed := p.installed + set b | b in bins), false, env)
      else RunEntries(es, k + 1, q.(status := SystemStillVulnerable), false, env)
  {
  }

  /** `SecurityIssueNotFixed` records one entry per source package with the
      status message (no pocket) and advances `pkg_index` by their number;
      `PackageCannotBeInstalled` records its one source package and leaves
      `pkg_index` alone. Both set `SYSTEM_STILL_VULNERABLE` and go on. */
  lemma WarningSteps(es: seq<Entry>, k: nat, p: Progress, dryRun: bool, env: FixEnv)
    requires k < |es| && es[k].Warning?
    ensures es[k].warning.SecurityIssueNotFixed? ==>
      var w := es[k].warning;
      RunEntries(es, k, p, dryRun, env) ==
      RunEntries(es, k + 1, p.(pkgIndex := p.pkgIndex + |w.sourcePackages|, status := SystemStillVulnerable,
                               unfixed := p.unfixed + UnfixedFor(w.sourcePackages,
                                                                 FromCveStatus(StatusMessageOf(w.status, None)))),
                 dryRun, env)
    ensures es[k].warning.PackageCannotBeInstalled? ==>
      var w := es[k].warning;
      RunEntries(es, k, p, dryRun, env) ==
      RunEntries(es, k + 1, p.(status := SystemStillVulnerable,
                               unfixed := p.unfixed + [UnfixedPackage(w.sourcePackage,
                                 CannotInstallPackage(w.binaryPackage, w.binaryPackageVersion))]),
                 dryRun, env)
  {
  }

  /** A no-op `NOT_AFFECTED` step assigns `SYSTEM_NOT_AFFECTED` outright,
      whatever the status was; the other no-op steps change only `pkg_index`. */
  lemma NoOpSteps(es: seq<Entry>, k: nat, p: Progress, dryRun: bool, env: FixEnv)
    requires k < |es| && es[k].Step? && (es[k].step.NoOp? || es[k].step.NoOpLivepatchFix? || es[k].step.NoOpAlreadyFixed?)
    ensures IsNoOpNotAffected(es[k]) ==>
      RunEntries(es, k, p, dryRun, env) == RunEntries(es, k + 1, p.(status := SystemNotAffected), dryRun, env)
    ensures es[k].step.NoOp? && !IsNoOpNotAffected(es[k]) ==>
      RunEntries(es, k, p, dryRun, env) == RunEntries(es, k + 1, p, dryRun, env)
    ensures es[k].step.NoOpLivepatchFix? ==>
      RunEntries(es, k, p, dryRun, env) == RunEntries(es, k + 1, p, dryRun, env)
    ensures es[k].step.NoOpAlreadyFixed? ==>
      RunEntries(es, k, p, dryRun, env) ==
      RunEntries(es, k + 1, p.(pkgIndex := p.pkgIndex + |es[k].step.sourcePackages|), dryRun, env)
  {
  }

  // ---------------------------------------------------------------------
  // Whole runs

  /** A plan holding only a no-op `NOT_AFFECTED` step ends in
      `SYSTEM_NOT_AFFECTED` with nothing unfixed, whatever the environment. */
  lemma OnlyNotAffectedPlan(title: string, dryRun: bool, env: FixEnv)
    ensures var plan := FixPlanResult(title, "", [], [NoOp(1, NoOpNotAffected)], [], None);
      ExecuteSpec(plan, dryRun, env) == (SystemNotAffected, [])
  {
    var plan := FixPlanResult(title, "", [], [NoOp(1, NoOpNotAffected)], [], None);
    var es := [Step(NoOp(1, NoOpNotAffected))];
    assert FullPlan(plan) == es;
    InOrderPlanRunsAsListed(plan);
    var q := InitialProgress.(status := SystemNotAffected);
    assert RunEntries(es, 0, InitialProgress, dryRun, env) == RunEntries(es, 1, q, dryRun, env) == q;
  }

  /** A plan holding one apt step with no binary packages is a trivial
      success, provided no reboot is pending with nothing installed. */
  lemma EmptyUpgradePlan(srcs: seq<string>, dryRun: bool, env: FixEnv)
    requires !env.shouldReboot({})
    ensures var plan := FixPlanResult("", "", srcs, [AptUpgrade(1, srcs, [], "")], [], None);
      ExecuteSpec(plan, dryRun, env) == (SystemNonVulnerable, [])
  {
    var plan := FixPlanResult("", "", srcs, [AptUpgrade(1, srcs, [], "")], [], None);
    var es := [Step(AptUpgrade(1, srcs, [], ""))];
    assert FullPlan(plan) == es;
    InOrderPlanRunsAsListed(plan);
    var q := InitialProgress.(pkgIndex := |srcs|);
    assert RunEntries(es, 0, InitialProgress, dryRun, env) == RunEntries(es, 1, q, dryRun, env) == q;
  }

  /** A plan already in order runs as its entries are listed. */
  lemma ExecuteInOrder(plan: FixPlanResult, dryRun: bool, env: FixEnv, q: Progress)
    requires var full := FullPlan(plan);
             forall i, j :: 0 <= i < j < |full| ==> full[i].Order() <= full[j].Order()
    requires RunEntries(FullPlan(plan), 0, InitialProgress, dryRun, env) == q
    ensures RunEntries(SortedEntries(plan), 0, InitialProgress, dryRun, env) == q
    ensures ExecuteSpec(plan, dryRun, env) == Finish(q, env)
  {
    InOrderPlanRunsAsListed(plan);
  }

  /** The loop over `[Attach([a, b]), AptUpgrade([c])]` when attaching fails. */
  lemma FailedAttachRun(a: string, b: string, c: string, env: FixEnv)
    requires !env.isAttached(0) && !env.attachPrompt(0)
    ensures var es := [Step(Attach(1, [a, b], "esm-infra")), Step(AptUpgrade(2, [c], [c], ""))];
      RunEntries(es, 0, InitialProgress, false, env) ==
        InitialProgress.(unfixed := [UnfixedPackage(a, ServiceRequired("esm-infra")),
                                     UnfixedPackage(b, ServiceRequired("esm-infra"))],
                         status := SystemStillVulnerable)
  {
    var es := [Step(Attach(1, [a, b], "esm-infra")), Step(AptUpgrade(2, [c], [c], ""))];
    var u := [UnfixedPackage(a, ServiceRequired("esm-infra")), UnfixedPackage(b, ServiceRequired("esm-infra"))];
    assert UnfixedFor([a, b], ServiceRequired("esm-infra")) == u;
    var q := InitialProgress.(unfixed := u, status := SystemStillVulnerable);
    assert ApplyEntry(es[0], 0, InitialProgress, false, env) == Stop(q);
  }

  /** `[Attach([a, b]), AptUpgrade([c])]` with a failed attach: `a` and `b`
      are unfixed, the status is `SYSTEM_STILL_VULNERABLE`, and the apt step
      is never reached (nothing about it appears in the result). */
  lemma FailedAttachSkipsUpgrade(a: string, b: string, c: string, env: FixEnv)
    requires !env.isAttached(0) && !env.attachPrompt(0)
    ensures var plan := FixPlanResult("", "", [a, b, c],
                                      [Attach(1, [a, b], "esm-infra"), AptUpgrade(2, [c], [c], "")], [], None);
      && ExecuteSpec(plan, false, env) ==
         (SystemStillVulnerable, [UnfixedPackage(a, ServiceRequired("esm-infra")),
                                  UnfixedPackage(b, ServiceRequired("esm-infra"))])
      && RunEntries(SortedEntries(plan), 0, InitialProgress, false, env).installed == {}
  {
    var plan := FixPlanResult("", "", [a, b, c],
                              [Attach(1, [a, b], "esm-infra"), AptUpgrade(2, [c], [c], "")], [], None);
    var es := [Step(Attach(1, [a, b], "esm-infra")), Step(AptUpgrade(2, [c], [c], ""))];
    assert FullPlan(plan) == es by {
      var f := FullPlan(plan);
      assert |f| == 2 && f[0] == es[0] && f[1] == es[1];
    }
    var u := [UnfixedPackage(a, ServiceRequired("esm-infra")), UnfixedPackage(b, ServiceRequired("esm-infra"))];
    FailedAttachRun(a, b, c, env);
    ExecuteInOrder(plan, false, env, InitialProgress.(unfixed := u, status := SystemStillVulnerable));
  }

  /** The loop over `[AptUpgrade(["p"]), NoOp(NOT_AFFECTED)]` when apt fails. */
  lemma FailedUpgradeRun(env: FixEnv)
    requires env.isRoot && !env.aptSucceeds(0)
    ensures var es := [Step(AptUpgrade(1, ["p"], ["p-bin"], "")), Step(NoOp(2, NoOpNotAffected))];
      RunEntries(es, 0, InitialProgress, false, env) ==
        InitialProgress.(pkgIndex := 1, status := SystemNotAffected)
  {
    var es := [Step(AptUpgrade(1, ["p"], ["p-bin"], "")), Step(NoOp(2, NoOpNotAffected))];
    var q1 := InitialProgress.(pkgIndex := 1, status := SystemStillVulnerable);
    var q2 := q1.(status := SystemNotAffected);
    assert ApplyEntry(es[0], 0, InitialProgress, false, env) == Continue(q1);
    assert RunEntries(es, 0, InitialProgress, false, env) == RunEntries(es, 1, q1, false, env);
    assert RunEntries(es, 1, q1, false, env) == RunEntries(es, 2, q2, false, env) == q2;
  }

  /** The status is not monotone: a failed apt run (which records no unfixed
      package) followed by a no-op `NOT_AFFECTED` step ends in
      `SYSTEM_NOT_AFFECTED`. */
  lemma NotAffectedAfterFailedUpgrade(env: FixEnv)
    requires env.isRoot && !env.aptSucceeds(0)
    ensures var plan := FixPlanResult("", "", ["p"],
                                      [AptUpgrade(1, ["p"], ["p-bin"], ""), NoOp(2, NoOpNotAffected)], [], None);
      ExecuteSpec(plan, false, env) == (SystemNotAffected, [])
  {
    var plan := FixPlanResult("", "", ["p"],
                              [AptUpgrade(1, ["p"], ["p-bin"], ""), NoOp(2, NoOpNotAffected)], [], None);
    var es := [Step(AptUpgrade(1, ["p"], ["p-bin"], "")), Step(NoOp(2, NoOpNotAffected))];
    assert FullPlan(plan) == es;
    FailedUpgradeRun(env);
    ExecuteInOrder(plan, false, env, InitialProgress.(pkgIndex := 1, status := SystemNotAffected));
  }

  /** The loop over two warnings about the same package. */
  lemma TwoWarningsRun(dryRun: bool, env: FixEnv)
    ensures var es := [Warning(SecurityIssueNotFixed(1, ["p"], "needed")),
                       Warning(PackageCannotBeInstalled(2, "p", "p-bin", "1.0", ["p"], ""))];
      RunEntries(es, 0, InitialProgress, dryRun, env) ==
        InitialProgress.(pkgIndex := 1,
                         unfixed := [UnfixedPackage("p", FromCveStatus(CveStatusNeeded)),
                                     UnfixedPackage("p", CannotInstallPackage("p-bin", "1.0"))],
                         status := SystemStillVulnerable)
  {
    var es := [Warning(SecurityIssueNotFixed(1, ["p"], "needed")),
               Warning(PackageCannotBeInstalled(2, "p", "p-bin", "1.0", ["p"], ""))];
    var u1 := [UnfixedPackage("p", FromCveStatus(CveStatusNeeded))];
    var u2 := u1 + [UnfixedPackage("p", CannotInstallPackage("p-bin", "1.0"))];
    assert StatusMessageOf("needed", None) == CveStatusNeeded;
    assert UnfixedFor(["p"], FromCveStatus(CveStatusNeeded)) == u1;
    var q1 := InitialProgress.(pkgIndex := 1, unfixed := u1, status := SystemStillVulnerable);
    var q2 := q1.(unfixed := u2);
    assert ApplyEntry(es[0], 0, InitialProgress, dryRun, env) == Continue(q1);
    assert RunEntries(es, 0, InitialProgress, dryRun, env) == RunEntries(es, 1, q1, dryRun, env);
    assert ApplyEntry(es[1], 1, q1, dryRun, env) == Continue(q2);
    assert RunEntries(es, 1, q1, dryRun, env) == RunEntries(es, 2, q2, dryRun, env) == q2;
    assert u2 == [UnfixedPackage("p", FromCveStatus(CveStatusNeeded)),
                  UnfixedPackage("p", CannotInstallPackage("p-bin", "1.0"))];
  }

  /** The returned unfixed list is not deduplicated: two warnings about the
      same package give two records for it. */
  lemma UnfixedListKeepsDuplicates(dryRun: bool, env: FixEnv)
    ensures var plan := FixPlanResult("", "", ["p"], [],
                                      [SecurityIssueNotFixed(1, ["p"], "needed"),
                                       PackageCannotBeInstalled(2, "p", "p-bin", "1.0", ["p"], "")], None);
      ExecuteSpec(plan, dryRun, env) ==
        (SystemStillVulnerable, [UnfixedPackage("p", FromCveStatus(CveStatusNeeded)),
                                 UnfixedPackage("p", CannotInstallPackage("p-bin", "1.0"))])
  {
    var plan := FixPlanResult("", "", ["p"], [],
                              [SecurityIssueNotFixed(1, ["p"], "needed"),
                               PackageCannotBeInstalled(2, "p", "p-bin", "1.0", ["p"], "")], None);
    var es := [Warning(SecurityIssueNotFixed(1, ["p"], "needed")),
               Warning(PackageCannotBeInstalled(2, "p", "p-bin", "1.0", ["p"], ""))];
    assert FullPlan(plan) == es;
    TwoWarningsRun(dryRun, env);
    var u := [UnfixedPackage("p", FromCveStatus(CveStatusNeeded)),
              UnfixedPackage("p", CannotInstallPackage("p-bin", "1.0"))];
    ExecuteInOrder(plan, dryRun, env, InitialProgress.(pkgIndex := 1, unfixed := u, status := SystemStillVulnerable));
  }

  // ---------------------------------------------------------------------
  // fix_usn's related runs

  /** `related_usn_status` holds, for each title, the result of the LAST
      related plan with that title; an earlier plan with the same title is
      summarised with the later plan's result. */
  lemma {:induction false} StatusByTitleLastWins(related: seq<FixPlanResult>,
                                                 runs: seq<(FixStatus, seq<UnfixedPackage>)>,
                                                 n: nat, j: nat)
    requires n <= |related| == |runs| && j < n
    requires forall i :: j < i < n ==> related[i].title != related[j].title
    ensures related[j].title in StatusByTitle(related, runs, n)
    ensures StatusByTitle(related, runs, n)[related[j].title] == runs[j]
    decreases n
  {
    if j < n - 1 {
      StatusByTitleLastWins(related, runs, n - 1, j);
    }
  }

  /** The related-USN error line is printed exactly when some related plan's
      recorded result needs a reboot or left the system vulnerable. */
  lemma {:induction false} RelatedFailureWitness(related: seq<FixPlanResult>, n: nat,
                                                 statuses: map<string, (FixStatus, seq<UnfixedPackage>)>)
    requires n <= |related|
    ensures RelatedFailure(related, n, statuses) <==>
      exists i :: 0 <= i < n && related[i].title in statuses && IsRelatedFailure(statuses[related[i].title].0)
    decreases n
  {
    if n > 0 {
      RelatedFailureWitness(related, n - 1, statuses);
      var t := related[n - 1].title;
      if t in statuses && IsRelatedFailure(statuses[t].0) {
        assert 0 <= n - 1 < n && related[n - 1].title in statuses;
      }
    }
  }

  /** With distinct titles, the error line is printed exactly when some
      related plan, run in its own environment, fails. */
  lemma RelatedFailureDistinctTitles(related: seq<FixPlanResult>, dryRun: bool, relatedEnv: nat -> FixEnv)
    requires forall i, j :: 0 <= i < j < |related| ==> related[i].title != related[j].title
    ensures var statuses := StatusByTitle(related, RelatedRuns(related, dryRun, relatedEnv), |related|);
      RelatedFailure(related, |related|, statuses) <==>
      exists i :: 0 <= i < |related| && IsRelatedFailure(ExecuteSpec(related[i], dryRun, relatedEnv(i)).0)
  {
    var runs := RelatedRuns(related, dryRun, relatedEnv);
    var statuses := StatusByTitle(related, runs, |related|);
    RelatedFailureWitness(related, |related|, statuses);
    forall i | 0 <= i < |related|
      ensures related[i].title in statuses && statuses[related[i].title] == ExecuteSpec(related[i], dryRun, relatedEnv(i))
    {
      StatusByTitleLastWins(related, runs, |related|, i);
    }
  }
}
