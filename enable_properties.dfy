/** What `_enable` guarantees, stated over `Enable.EnableSpec` (which the
    method `Enable.EnableService` is proved to follow). */
module EnableProperties {
  import opened Wrappers
  import opened Enable
  import Lex

  /** The three preconditions are checked in order, before the
      enabled-services snapshot: each refusal makes no call and leaves the
      lock file alone. */
  lemma PreconditionOrder(options: EnableOptions, env: EnableEnv, lockFile: Option<string>)
    ensures !env.isRoot ==>
      EnableSpec(options, env, lockFile) == EnableRun(Failure(NonRootUserError), [], lockFile)
    ensures env.isRoot && !env.isAttached ==>
      EnableSpec(options, env, lockFile) == EnableRun(Failure(UnattachedError), [], lockFile)
    ensures env.isRoot && env.isAttached && options.service == "landscape" ==>
      EnableSpec(options, env, lockFile) == EnableRun(Failure(NotSupported), [], lockFile)
    ensures SnapshotBefore in EnableSpec(options, env, lockFile).trace <==>
      env.isRoot && env.isAttached && options.service != "landscape"
  {
  }

  /** An already enabled service gives the empty result after the first
      snapshot, without building the entitlement or touching the lock. */
  lemma AlreadyEnabled(options: EnableOptions, env: EnableEnv, lockFile: Option<string>)
    requires env.isRoot && env.isAttached && options.service != "landscape"
    requires options.service in env.before
    ensures EnableSpec(options, env, lockFile) ==
      EnableRun(Success(EnableResult([], [], false, [])), [SnapshotBefore], lockFile)
  {
  }

  /** A successful call either is the already-enabled no-op or reports the
      services the snapshots differ by: `enabled` holds exactly those enabled
      afterwards and not before, `disabled` exactly those enabled before and
      not afterwards, both sorted and without repeats, and no service is in
      both. */
  lemma SuccessResult(options: EnableOptions, env: EnableEnv, lockFile: Option<string>)
    requires EnableSpec(options, env, lockFile).result.Success?
    ensures var res := EnableSpec(options, env, lockFile).result.value;
      || (options.service in env.before && res == EnableResult([], [], false, []))
      || (&& options.service !in env.before
          && Lex.Sorted(res.enabled) && Lex.NoDuplicates(res.enabled)
          && Lex.Sorted(res.disabled) && Lex.NoDuplicates(res.disabled)
          && (forall x :: x in res.enabled <==> x in env.after && x !in env.before)
          && (forall x :: x in res.disabled <==> x in env.before && x !in env.after)
          && (forall x :: !(x in res.enabled && x in res.disabled))
          && res.rebootRequired == env.rebootRequired
          && res.messages == PostEnableMessages(env.postEnable))
  {
  }

  /** `sorted(list(a - b))` does not depend on how the set was listed: any
      sorted, repeat-free list of the same services is the `enabled` list. */
  lemma EnabledListIsCanonical(env: EnableEnv, other: seq<string>)
    requires Lex.Sorted(other) && Lex.NoDuplicates(other)
    requires forall x :: x in other <==> x in env.after && x !in env.before
    ensures ResultOf(env).enabled == other
  {
    Lex.SortedSetUnique(ResultOf(env).enabled, other);
  }

  /** The same for the `disabled` list. */
  lemma DisabledListIsCanonical(env: EnableEnv, other: seq<string>)
    requires Lex.Sorted(other) && Lex.NoDuplicates(other)
    requires forall x :: x in other <==> x in env.before && x !in env.after
    ensures ResultOf(env).disabled == other
  {
    Lex.SortedSetUnique(ResultOf(env).disabled, other);
  }

  /** When the entitlement's enable reports failure the endpoint raises
      `EntitlementNotEnabledError` for the service, with the fail reason's
      message or, without one, the generic unknown-issue message. */
  lemma FailureReason(options: EnableOptions, env: EnableEnv, lockFile: Option<string>, failReason: Option<string>)
    requires env.isRoot && env.isAttached && options.service != "landscape"
    requires options.service !in env.before && env.factoryError.None? && env.lockError.None?
    requires env.enableOutcome == Returns(false, failReason)
    ensures EnableSpec(options, env, lockFile).result ==
      Failure(EntitlementNotEnabledError(options.service,
        if failReason.Some? then FailReasonMessage(failReason.value) else GenericUnknownIssue))
    ensures EnableSpec(options, env, lockFile).lockFile == None
  {
  }

  /** An exception raised while taking the lock or inside the locked region
      clears the lock file and is passed on unchanged. */
  lemma ExceptionClearsLockFile(options: EnableOptions, env: EnableEnv, lockFile: Option<string>, e: string)
    requires env.isRoot && env.isAttached && options.service != "landscape"
    requires options.service !in env.before && env.factoryError.None?
    requires env.lockError == Some(e) || (env.lockError.None? && env.enableOutcome == Raises(e))
    ensures var run := EnableSpec(options, env, lockFile);
      && run.result == Failure(Raised(e))
      && run.lockFile == None
      && |run.trace| > 0 && run.trace[|run.trace| - 1] == LockFileCleared
  {
  }

  /** The lock file is cleared even when taking the lock is what failed, so
      a lock held by another holder is removed. */
  lemma FailedAcquireClearsOtherHolder(options: EnableOptions, env: EnableEnv, other: string, e: string)
    requires env.isRoot && env.isAttached && options.service != "landscape"
    requires options.service !in env.before && env.factoryError.None?
    requires env.lockError == Some(e)
    ensures EnableSpec(options, env, Some(other)).lockFile == None
    ensures LockAcquired(LockHolder) !in EnableSpec(options, env, Some(other)).trace
  {
  }

  /** The only call sequences `_enable` can make: nothing (a refused
      precondition), the snapshot alone (already enabled, or the entitlement
      cannot be built), a failed lock followed by clearing the lock file, or
      the locked enable followed by nothing (enable failed), by clearing the
      lock file (enable raised) or by the second snapshot (success). */
  lemma TraceShapes(options: EnableOptions, env: EnableEnv, lockFile: Option<string>)
    ensures var t := EnableSpec(options, env, lockFile).trace;
      var created := EntitlementCreated(options.service, VariantArgument(options.variant), options.accessOnly);
      var locked := [SnapshotBefore, created, LockAcquired(LockHolder),
                     EntitlementEnable(options.enableRequiredServices, options.disableIncompatibleServices, true),
                     LockReleased];
      || t == [] || t == [SnapshotBefore] || t == [SnapshotBefore, created, LockFileCleared]
      || t == locked || t == locked + [LockFileCleared] || t == locked + [SnapshotAfter]
  {
    if env.isRoot && env.isAttached && options.service != Landscape && options.service !in env.before
       && env.factoryError.None?
    {
      var created := EntitlementCreated(options.service, VariantArgument(options.variant), options.accessOnly);
      var inner := [created, LockAcquired(LockHolder),
                    EntitlementEnable(options.enableRequiredServices, options.disableIncompatibleServices, true),
                    LockReleased];
      var locked := [SnapshotBefore] + inner;
      var t := EnableEntitlementSpec(options, env, lockFile).trace;
      if env.lockError.Some? {
        assert [SnapshotBefore] + t == [SnapshotBefore, created, LockFileCleared];
      } else if env.enableOutcome.Raises? {
        assert t == inner + [LockFileCleared];
        assert [SnapshotBefore] + t == locked + [LockFileCleared];
      } else if env.enableOutcome.success {
        assert t == inner + [SnapshotAfter];
        assert [SnapshotBefore] + t == locked + [SnapshotAfter];
      } else {
        assert [SnapshotBefore] + t == locked;
      }
    }
  }

  /** The entitlement's enable runs once at most, right after the lock is
      taken under the endpoint's holder name, with the option flags as given
      and `api=True`, and the lock is released right after it. */
  lemma EnableRunsUnderLock(options: EnableOptions, env: EnableEnv, lockFile: Option<string>, i: nat)
    requires var t := EnableSpec(options, env, lockFile).trace; i < |t| && t[i].EntitlementEnable?
    ensures var t := EnableSpec(options, env, lockFile).trace;
      && i == 3 && |t| >= 5
      && t[..3] == [SnapshotBefore, EntitlementCreated(options.service, VariantArgument(options.variant), options.accessOnly),
                    LockAcquired("u.pro.services.enable.v1")]
      && t[3] == EntitlementEnable(options.enableRequiredServices, options.disableIncompatibleServices, true)
      && t[4] == LockReleased
  {
    TraceShapes(options, env, lockFile);
  }

  /** The endpoint never leaves its own lock behind: afterwards the lock
      file is as it was or empty, and names the endpoint only if it did so
      before. */
  lemma LockNotLeftHeld(options: EnableOptions, env: EnableEnv, lockFile: Option<string>)
    ensures var after := EnableSpec(options, env, lockFile).lockFile;
      (after == lockFile || after == None) && (after == Some(LockHolder) ==> lockFile == Some(LockHolder))
  {
  }

  /** The message filter keeps the string items in their order: it maps
      over concatenation... */
  lemma {:induction false} PostEnableMessagesAppend(a: seq<PostEnableItem>, b: seq<PostEnableItem>)
    ensures PostEnableMessages(a + b) == PostEnableMessages(a) + PostEnableMessages(b)
    decreases |a|
  {
    if a != [] {
      assert (a + b)[0] == a[0] && (a + b)[1..] == a[1..] + b;
      PostEnableMessagesAppend(a[1..], b);
      var rest := PostEnableMessages(a[1..]);
      if a[0].TextItem? {
        assert PostEnableMessages(a + b) == [a[0].text] + PostEnableMessages(a[1..] + b);
        assert PostEnableMessages(a) == [a[0].text] + rest;
        assert [a[0].text] + (rest + PostEnableMessages(b)) == ([a[0].text] + rest) + PostEnableMessages(b);
      } else {
        assert PostEnableMessages(a + b) == PostEnableMessages(a[1..] + b);
        assert PostEnableMessages(a) == rest;
      }
    } else {
      assert a + b == b;
    }
  }

  /** ...keeps a string item and drops any other... */
  lemma PostEnableMessagesSingle(x: PostEnableItem)
    ensures PostEnableMessages([x]) == if x.TextItem? then [x.text] else []
  {
  }

  /** ...so on a list of strings only it is the list of those strings. */
  lemma {:induction false} PostEnableMessagesAllText(items: seq<PostEnableItem>)
    requires forall i :: 0 <= i < |items| ==> items[i].TextItem?
    ensures |PostEnableMessages(items)| == |items|
    ensures forall i :: 0 <= i < |items| ==> PostEnableMessages(items)[i] == items[i].text
    decreases |items|
  {
    if items != [] {
      PostEnableMessagesAllText(items[1..]);
    }
  }

  /** `EnableOptions(service=s)` asks for required services to be enabled and
      incompatible ones disabled, with full (not access-only) enablement and
      no variant. */
  lemma DefaultOptionsEnableCall(service: string, env: EnableEnv, lockFile: Option<string>, i: nat)
    requires var t := EnableSpec(DefaultEnableOptions(service), env, lockFile).trace; i < |t| && t[i].EntitlementEnable?
    ensures var t := EnableSpec(DefaultEnableOptions(service), env, lockFile).trace;
      t[1] == EntitlementCreated(service, "", false) && t[i] == EntitlementEnable(true, true, true)
  {
    EnableRunsUnderLock(DefaultEnableOptions(service), env, lockFile, i);
  }
}
