/** The `u.pro.services.enable.v1` API endpoint (`_enable`): its options and
    result, and the enable transition. Everything it asks of the rest of the
    client (root check, attachment, the enabled-services snapshots, the
    entitlement and its `enable`, the reboot check) is an oracle in
    `EnableEnv`; the lock file and the calls made are the state of a `Host`. */
module Enable {
  import opened Wrappers
  import Lex

  /** `EnableOptions`. */
  datatype EnableOptions = EnableOptions(
    service: string,
    variant: Option<string>,
    enableRequiredServices: bool,
    disableIncompatibleServices: bool,
    accessOnly: bool)

  /** `EnableOptions(service=...)` with every other field at its default. */
  function DefaultEnableOptions(service: string): (o: EnableOptions)
    ensures o.service == service && o.variant == None
    ensures o.enableRequiredServices && o.disableIncompatibleServices && !o.accessOnly
  {
    EnableOptions(service, None, true, true, false)
  }

  /** `EnableResult`. */
  datatype EnableResult = EnableResult(
    enabled: seq<string>,
    disabled: seq<string>,
    rebootRequired: bool,
    messages: seq<string>)

  /** The holder name the endpoint takes the lock under. */
  const LockHolder := "u.pro.services.enable.v1"

  /** The service the endpoint refuses. */
  const Landscape := "landscape"

  /** The reason carried by `EntitlementNotEnabledError`. */
  datatype NotEnabledReason = FailReasonMessage(message: string) | GenericUnknownIssue

  /** What `_enable` raises. `Raised` is an exception of a collaborator,
      passed on unchanged. */
  datatype EnableError =
    | NonRootUserError
    | UnattachedError
    | NotSupported
    | EntitlementNotEnabledError(service: string, reason: NotEnabledReason)
    | Raised(exception: string)

  /** An item of the entitlement's `post_enable` messaging: a string, or
      anything else (a callable, say). */
  datatype PostEnableItem = TextItem(text: string) | OtherItem

  /** What `entitlement.enable(...)` does: raise, or return
      `(success, fail_reason)` with `fail_reason.message` when there is one. */
  datatype EnableOutcome = Raises(exception: string) | Returns(success: bool, failReason: Option<string>)

  /** The answers of the endpoint's collaborators for one call. */
  datatype EnableEnv = EnableEnv(
    isRoot: bool,
    isAttached: bool,
    before: seq<string>,
    after: seq<string>,
    factoryError: Option<string>,
    lockError: Option<string>,
    enableOutcome: EnableOutcome,
    postEnable: seq<PostEnableItem>,
    rebootRequired: bool)

  /** The calls `_enable` makes that have effects or that the properties
      talk about, in the order it makes them. */
  datatype Event =
    | SnapshotBefore
    | EntitlementCreated(name: string, variant: string, accessOnly: bool)
    | LockAcquired(holder: string)
    | EntitlementEnable(enableRequiredServices: bool, disableIncompatibleServices: bool, api: bool)
    | LockReleased
    | LockFileCleared
    | SnapshotAfter

  /** `[msg for msg in post_enable if isinstance(msg, str)]`. */
  function PostEnableMessages(items: seq<PostEnableItem>): (r: seq<string>)
    ensures |r| <= |items|
    ensures forall x :: x in r <==> TextItem(x) in items
    decreases |items|
  {
    if items == [] then []
    else
      var rest := PostEnableMessages(items[1..]);
      assert items == [items[0]] + items[1..];
      match items[0]
      case TextItem(t) => [t] + rest
      case OtherItem => rest
  }

  /** `options.variant or ""`. */
  function VariantArgument(variant: Option<string>): string
  {
    if variant.Some? then variant.value else ""
  }

  const EmptyResult := EnableResult([], [], false, [])

  /** One call of `_enable`: what it returns or raises, the calls it makes,
      and the lock file afterwards (the holder recorded in it, if any). */
  datatype EnableRun = EnableRun(
    result: Result<EnableResult, EnableError>,
    trace: seq<Event>,
    lockFile: Option<string>)

  /** The result list built from the two snapshots and the entitlement. */
  function ResultOf(env: EnableEnv): EnableResult
  {
    EnableResult(Lex.SortedDifference(env.after, env.before),
                 Lex.SortedDifference(env.before, env.after),
                 env.rebootRequired,
                 PostEnableMessages(env.postEnable))
  }

  /** The first of `_enable`'s three checks that fails, in the order it
      makes them: root, attached, not Landscape. */
  function Refusal(options: EnableOptions, env: EnableEnv): Option<EnableError>
  {
    if !env.isRoot then Some(NonRootUserError)
    else if !env.isAttached then Some(UnattachedError)
    else if options.service == Landscape then Some(NotSupported)
    else None
  }

  /** `_enable(options, cfg)` with the lock file in state `lockFile`. */
  function EnableSpec(options: EnableOptions, env: EnableEnv, lockFile: Option<string>): EnableRun
  {
    var refusal := Refusal(options, env);
    if refusal.Some? then EnableRun(Failure(refusal.value), [], lockFile)
    else EnableAllowedSpec(options, env, lockFile)
  }

  /** `_enable` once its three checks passed: the first snapshot, then either
      the already-enabled early return or the rest. */
  function EnableAllowedSpec(options: EnableOptions, env: EnableEnv, lockFile: Option<string>): EnableRun
  {
    if options.service in env.before then EnableRun(Success(EmptyResult), [SnapshotBefore], lockFile)
    else
      var run := EnableEntitlementSpec(options, env, lockFile);
      run.(trace := [SnapshotBefore] + run.trace)
  }

  /** The rest of `_enable` once the service is known not to be enabled:
      build the entitlement, enable it under the lock, and collect the result. */
  function EnableEntitlementSpec(options: EnableOptions, env: EnableEnv, lockFile: Option<string>): EnableRun
  {
    var created := EntitlementCreated(options.service, VariantArgument(options.variant), options.accessOnly);
    var enable := EntitlementEnable(options.enableRequiredServices, options.disableIncompatibleServices, true);
    if env.factoryError.Some? then EnableRun(Failure(Raised(env.factoryError.value)), [], lockFile)
    else if env.lockError.Some? then
      EnableRun(Failure(Raised(env.lockError.value)), [created, LockFileCleared], None)
    else
      var locked := [created, LockAcquired(LockHolder), enable, LockReleased];
      match env.enableOutcome
      case Raises(e) => EnableRun(Failure(Raised(e)), locked + [LockFileCleared], None)
      case Returns(success, failReason) =>
        if !success then
          var reason := if failReason.Some? then FailReasonMessage(failReason.value) else GenericUnknownIssue;
          EnableRun(Failure(EntitlementNotEnabledError(options.service, reason)), locked, None)
        else EnableRun(Success(ResultOf(env)), locked + [SnapshotAfter], None)
  }

  /** The side of the client `_enable` acts on: the lock file (the holder it
      names, if any) and the calls made so far. */
  class Host {
    var lockFile: Option<string>
    var trace: seq<Event>

    constructor(lockFile: Option<string>)
      ensures this.lockFile == lockFile && trace == []
    {
      this.lockFile := lockFile;
      trace := [];
    }

    /** A call to a collaborator that leaves the lock file alone. */
    method Call(e: Event)
      modifies this
      ensures trace == old(trace) + [e] && lockFile == old(lockFile)
    {
      trace := trace + [e];
    }

    /** `SpinLock.__enter__` once it succeeds: the lock file names `holder`. */
    method Acquire(holder: string)
      modifies this
      ensures trace == old(trace) + [LockAcquired(holder)] && lockFile == Some(holder)
    {
      trace := trace + [LockAcquired(holder)];
      lockFile := Some(holder);
    }

    /** `SpinLock.__exit__`: the lock file is emptied. */
    method Release()
      modifies this
      ensures trace == old(trace) + [LockReleased] && lockFile == None
    {
      trace := trace + [LockReleased];
      lockFile := None;
    }

    /** `lock.clear_lock_file_if_present()`: the lock file is emptied,
      whoever holds it. */
    method ClearLockFile()
      modifies this
      ensures trace == old(trace) + [LockFileCleared] && lockFile == None
    {
      trace := trace + [LockFileCleared];
      lockFile := None;
    }
  }

  /** `_enable(options, cfg)`. */
  method EnableService(options: EnableOptions, env: EnableEnv, host: Host)
    returns (r: Result<EnableResult, EnableError>)
    modifies host
    ensures var run := EnableSpec(options, env, old(host.lockFile));
      r == run.result && host.trace == old(host.trace) + run.trace && host.lockFile == run.lockFile
  {
    var refusal := Refusal(options, env);
    if refusal.Some? {
      return Failure(refusal.value);
    }
    r := EnableAllowed(options, env, host);
  }

  /** `_enable` from the first snapshot on. */
  method EnableAllowed(options: EnableOptions, env: EnableEnv, host: Host)
    returns (r: Result<EnableResult, EnableError>)
    modifies host
    ensures var run := EnableAllowedSpec(options, env, old(host.lockFile));
      r == run.result && host.trace == old(host.trace) + run.trace && host.lockFile == run.lockFile
  {
    ghost var t0, lock0 := host.trace, host.lockFile;
    host.Call(SnapshotBefore);
    var enabledServicesBefore := env.before;
    if options.service in enabledServicesBefore {
      return Success(EnableResult([], [], false, []));
    }
    ghost var t1 := host.trace;
    ghost var run := EnableEntitlementSpec(options, env, lock0);
    r := EnableEntitlement(options, env, host);
    assert host.trace == t1 + run.trace;
    assert t1 + run.trace == t0 + ([SnapshotBefore] + run.trace);
  }

  /** Lines 103-165 of `_enable`: the entitlement, its enable under the lock
      (the lock file cleared on any exception, which is passed on), and the
      result built from the two snapshots. */
  method EnableEntitlement(options: EnableOptions, env: EnableEnv, host: Host)
    returns (r: Result<EnableResult, EnableError>)
    modifies host
    ensures var run := EnableEntitlementSpec(options, env, old(host.lockFile));
      r == run.result && host.trace == old(host.trace) + run.trace && host.lockFile == run.lockFile
  {
    if env.factoryError.Some? {
      return Failure(Raised(env.factoryError.value));
    }
    ghost var t0 := host.trace;
    var created := EntitlementCreated(options.service, VariantArgument(options.variant), options.accessOnly);
    host.Call(created);
    if env.lockError.Some? {
      host.ClearLockFile();
      assert host.trace == t0 + [created, LockFileCleared];
      return Failure(Raised(env.lockError.value));
    }
    var enable := EntitlementEnable(options.enableRequiredServices, options.disableIncompatibleServices, true);
    host.Acquire(LockHolder);
    host.Call(enable);
    var outcome := env.enableOutcome;
    host.Release();
    ghost var locked := [created, LockAcquired(LockHolder), enable, LockReleased];
    assert host.trace == t0 + locked;
    if outcome.Raises? {
      host.ClearLockFile();
      assert host.trace == t0 + (locked + [LockFileCleared]);
      return Failure(Raised(outcome.exception));
    }
    var success, failReason := outcome.success, outcome.failReason;
    if !success {
      var reason := if failReason.Some? then FailReasonMessage(failReason.value) else GenericUnknownIssue;
      return Failure(EntitlementNotEnabledError(options.service, reason));
    }
    host.Call(SnapshotAfter);
    assert host.trace == t0 + (locked + [SnapshotAfter]);
    var enabled := Lex.SortedDifference(env.after, env.before);
    var disabled := Lex.SortedDifference(env.before, env.after);
    r := Success(EnableResult(enabled, disabled, env.rebootRequired, PostEnableMessages(env.postEnable)));
  }
}
