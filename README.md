# A verified model of the core of the Ubuntu Pro client

This project models four pieces of the Ubuntu Pro client (`pro`):

- **The `pro fix` command.** It executes a fix plan for one CVE or USN:
  - the plan's steps and warnings run in stable `order`;
  - attach and enable steps can stop the run;
  - apt steps install binaries;
  - two overrides follow the loop.

  Around that are `fix_cve`, `fix_usn` (the target USN, then the related USNs and their summary), `status_message` and `_format_packages_message`.
- **The `u.pro.services.enable.v1` API endpoint (`_enable`).** It covers:
  - the three refusals, in order;
  - the early return for an already-enabled service;
  - the entitlement's `enable` under the spin lock, which clears the lock file on any exception;
  - the failure reason;
  - the result built from two snapshots of the enabled services.
- **The logging helpers.** These are:
  - `redact_value` / `redact_dict_fields`;
  - `with_extra`;
  - the `JsonArrayFormatter`'s seven-element array.
- **`SecretManager`.** A list of secrets that can be added to and cleared, and `redact_secrets`. The latter replaces every literal occurrence of each secret with `<REDACTED>`, one secret after another.

Each imperative piece of the source is written as a Dafny method. A specification function sits beside it, and the method is proved to follow it. The properties the client promises are then proved, as lemmas, about those functions:

| Method | Specification function |
|---|---|
| `Fix.ExecuteFixPlan` | `Fix.ExecuteSpec` |
| `Enable.EnableService` | `Enable.EnableSpec` |
| `Log.RedactDictFields` | `Log.RedactEntries` |
| `Log.Format` | `Log.FormatSpec` |
| `Secrets.SecretManager.RedactSecrets` | `Secrets.RedactAll` |

The world outside the process is given as oracles:

- **`pro fix`:** the root check, attachment and contract state, the prompts' answers, apt's success and the reboot check. These are in `Fix.FixEnv`, indexed by the entry's position in the sorted plan.
- **The enable endpoint:** the root check, attachment, the enabled services before and after, the entitlement factory, the lock, `enable`'s outcome, `post_enable` messaging and the reboot check. These are in `Enable.EnableEnv`.
- **Logging:** `util.redact_sensitive_logs`, `formatException` and `formatStack` are function parameters.

Python values are modelled as follows:

- A dict is a list of (key, value) pairs in insertion order (module `Dicts`). Assigning to an existing key keeps its place, and a new key goes last.
- `str` ordering follows code points (module `Lex`).
- `sorted(..., key=...)` is a stable sort of positions (module `StableSort`).

## Model

| member | source | states |
|---|---|---|
| Fix.StatusMessageOf | uaclient/cli/fix.py:250-267 | "released" with a non-empty pocket gives the release-stream message. The result is the unknown-status message exactly when the status is none of the seven known strings and is not "released" with a pocket; that message carries the status |
| Fix.KnownStatusMessages | uaclient/cli/fix.py:251-262 | "needed", "needs-triage", "pending", "DNE" and "not-affected" each give their own message; "ignored" and "deferred" both give the ignored message; the pocket plays no part |
| Fix.ReleasedNeedsPocket | uaclient/cli/fix.py:263-267 | "released" without a (non-empty) pocket reads as an unknown status |
| Fix.FormatPackagesMessage | uaclient/cli/fix.py:270-295 | An empty list gives the empty message, and only then. Otherwise the labels are "(pkg_index+i+1)/num_pkgs" in order, one per package; the names are sorted and a permutation of the list; the status line is `status_message(status, pocket)` |
| Fix.CheckSubscriptionIsExpired | uaclient/cli/fix.py:401-413 | A dry run never reports expiry. A report implies an expired contract. An expired contract outside a dry run is reported |
| Fix.HandleSubscriptionForRequiredService | uaclient/cli/fix.py:487-520 | The service counts as handled exactly when it is active, or when it is applicable and the run is a dry run or the enable prompt succeeds |
| Fix.FullPlan | uaclient/cli/fix.py:563-566 | The plan's steps in order, followed by its warnings in order |
| Fix.AppendUnfixed | uaclient/cli/fix.py:635-641 | The loop appends one record per package to the list, in order |
| Fix.ApplyEntry | uaclient/cli/fix.py:599-820 | One entry only appends to the unfixed list. Only an attach or enable step breaks the loop; a break leaves still-vulnerable, one unfixed record per source package of the step, and the installed set and pkg_index as they were |
| Fix.HandleEntry | uaclient/cli/fix.py:599-820 | The loop body's new status, unfixed list, installed set, pkg_index and break flag are those of the specification `ApplyEntry` |
| Fix.ExecuteFixPlan | uaclient/cli/fix.py:560-845 | The returned status and unfixed list equal `ExecuteSpec`: the sorted entries run until a break, and then the two overrides apply |
| Fix.FixCve | uaclient/cli/fix.py:140-152 | A plan carrying an error raises with its message. Otherwise the status of executing the plan is returned |
| Fix.ShouldFixRelated | uaclient/cli/fix.py:179-187 | The related USNs are processed exactly when the target ends non-vulnerable or not affected, the related list is non-empty and `--no-related` is not given |
| Fix.RelatedRuns | uaclient/cli/fix.py:200-206 | There is one result per related plan |
| Fix.FixUsn | uaclient/cli/fix.py:155-247 | A target error raises its message and nothing else runs. Otherwise the target's executed status is returned. If the related USNs are skipped, nothing related is recorded. If they run, the per-title dict is the fold over the related results and the failure flag is the summary loop over it |
| Fix.RunRelatedPlans | uaclient/cli/fix.py:197-207 | The loop builds the dict that maps each title to its plan's result. A later plan with the same title overwrites the earlier one |
| Fix.RunRelatedPlan | uaclient/cli/fix.py:202-206 | Related plan `i` gives its `execute_fix_plan` result |
| Fix.FailureOnRelated | uaclient/cli/fix.py:214-237 | The summary loop sets the flag exactly when some related title's recorded status needs a reboot or is still vulnerable |
| Fix.StatusByTitleKeys | uaclient/cli/fix.py:197-207 | The dict's keys are exactly the related titles |
| FixProperties.SortedEntriesOrder | uaclient/cli/fix.py:598 | Every entry runs once (a permutation), in non-decreasing `order`. Ties keep their original position, so on a tie a plan step runs before a warning |
| FixProperties.InOrderPlanRunsAsListed | uaclient/cli/fix.py:598 | A plan already in `order` runs exactly as listed |
| FixProperties.FinishOverrides | uaclient/cli/fix.py:823-834 | The unfixed list is returned as is. Any unfixed package forces still-vulnerable. The status becomes vulnerable-until-reboot exactly when the loop ended non-vulnerable with nothing unfixed and a reboot is needed for the installed set. Otherwise the loop's status stands |
| FixProperties.ApplyEntryEffects | uaclient/cli/fix.py:598-820 | One entry can only add its own binaries to the installed set, and none in a dry run. It can only append to the unfixed list. It either keeps the status, sets still-vulnerable, or (a no-op NOT_AFFECTED step) sets not-affected |
| FixProperties.RunEntriesEffects | uaclient/cli/fix.py:598-820 | The same over the whole loop. It never produces vulnerable-until-reboot, and still-vulnerable stays unless a no-op NOT_AFFECTED step follows |
| FixProperties.RebootStatusExactly | uaclient/cli/fix.py:831-834 | The result is vulnerable-until-reboot exactly when the loop ends non-vulnerable, with nothing unfixed, and the reboot check holds for the installed binaries |
| FixProperties.DryRunNoRebootStatus | uaclient/cli/fix.py:683-685 | A dry run installs nothing, so it cannot end vulnerable-until-reboot unless a reboot is pending with nothing installed |
| FixProperties.DryRunIgnoresPromptsAndApt | uaclient/cli/fix.py:661-748 | In a dry run the outcome does not depend on the root check, the prompts' answers or apt |
| FixProperties.AttachFailureStops | uaclient/cli/fix.py:718-733 | When the system is not attached and attaching fails, every source package is recorded as needing the service. The status becomes still-vulnerable and no later entry matters |
| FixProperties.ExpiredRenewalFailureStops | uaclient/cli/fix.py:734-748 | When the contract is expired and renewal fails, every source package is recorded with the expired-subscription reason, and the loop stops |
| FixProperties.AttachSuccessContinues | uaclient/cli/fix.py:718-748 | An attach step that attaches, renews, finds the contract valid, or runs in a dry run changes nothing |
| FixProperties.EnableStep | uaclient/cli/fix.py:768-788 | An unhandled service records every source package as not enabled, sets still-vulnerable and stops. A handled one changes nothing |
| FixProperties.AptUpgradeStep | uaclient/cli/fix.py:655-685 | With no binaries, only pkg_index advances. Without root outside a dry run, every source package is recorded and the run goes on. A dry run records and installs nothing |
| FixProperties.AptRunOutcome | uaclient/cli/fix.py:687-698 | A failed apt run sets still-vulnerable and records no package. A successful run adds its binaries to the installed set |
| FixProperties.WarningSteps | uaclient/cli/fix.py:599-642 | SecurityIssueNotFixed records each source package with its status message and advances pkg_index. PackageCannotBeInstalled records its one package. Both set still-vulnerable |
| FixProperties.NoOpSteps | uaclient/cli/fix.py:790-820 | A NOT_AFFECTED no-op assigns not-affected whatever the status was. The livepatch no-op changes nothing. The already-fixed no-op advances pkg_index |
| FixProperties.OnlyNotAffectedPlan | uaclient/cli/fix.py:790-798 | A plan holding only a NOT_AFFECTED no-op ends not-affected with nothing unfixed |
| FixProperties.EmptyUpgradePlan | uaclient/cli/fix.py:655-659 | One apt step with no binaries ends non-vulnerable with nothing unfixed, provided no reboot is pending |
| FixProperties.ExecuteInOrder | uaclient/cli/fix.py:598 | A plan in order executes as its listed entries do |
| FixProperties.FailedAttachRun | uaclient/cli/fix.py:718-733 | Over [attach, apt], a failed attach stops before the apt step |
| FixProperties.FailedAttachSkipsUpgrade | uaclient/cli/fix.py:718-733 | In that run, the result lists the attach step's two packages, still vulnerable, and nothing is installed |
| FixProperties.FailedUpgradeRun | uaclient/cli/fix.py:696-698 | Over [apt, NOT_AFFECTED no-op], a failed apt run followed by the no-op leaves not-affected |
| FixProperties.NotAffectedAfterFailedUpgrade | uaclient/cli/fix.py:790-798 | So the status is not monotone: such a plan returns not-affected with nothing unfixed |
| FixProperties.TwoWarningsRun | uaclient/cli/fix.py:599-642 | Two warnings about one package leave two records for it |
| FixProperties.UnfixedListKeepsDuplicates | uaclient/cli/fix.py:823-845 | The returned unfixed list is not deduplicated |
| FixProperties.StatusByTitleLastWins | uaclient/cli/fix.py:200-206 | Each title maps to the result of the last related plan with that title |
| FixProperties.RelatedFailureWitness | uaclient/cli/fix.py:214-237 | The failure flag is set exactly when some related title's recorded status needs a reboot or is still vulnerable |
| FixProperties.RelatedFailureDistinctTitles | uaclient/cli/fix.py:197-239 | With distinct titles, the flag is set exactly when some related plan, executed, needs a reboot or is still vulnerable |
| StableSort.SortedPositions | uaclient/cli/fix.py:598 | The positions are stably sorted by key, and each position occurs once |
| StableSort.StableOrderUnique | uaclient/cli/fix.py:598 | Any two stably sorted listings of the same positions are equal |
| Enable.DefaultEnableOptions | uaclient/api/u/pro/services/enable/v1.py:32-45 | The defaults are: no variant, enable required services, disable incompatible ones, not access-only |
| Enable.PostEnableMessages | uaclient/api/u/pro/services/enable/v1.py:142-146 | The result is no longer than the messaging, and holds exactly its string items |
| Enable.EnableService | uaclient/api/u/pro/services/enable/v1.py:78-165 | The result or exception, the calls made in order, and the lock file afterwards are those of `EnableSpec` |
| Enable.EnableAllowed | uaclient/api/u/pro/services/enable/v1.py:93-165 | The same, from the first snapshot on |
| Enable.EnableEntitlement | uaclient/api/u/pro/services/enable/v1.py:103-165 | The same, from the entitlement factory on |
| Enable.Host.Acquire | uaclient/api/u/pro/services/enable/v1.py:118-121 | Entering the spin lock records the acquisition, and the lock file names the endpoint's holder |
| Enable.Host.Release | uaclient/api/u/pro/services/enable/v1.py:118-126 | Leaving the `with` block records the release and empties the lock file |
| Enable.Host.ClearLockFile | uaclient/api/u/pro/services/enable/v1.py:127-129 | `clear_lock_file_if_present` records the clearing and empties the lock file, whoever named it |
| EnableProperties.PreconditionOrder | uaclient/api/u/pro/services/enable/v1.py:84-93 | The checks run in order: non-root, then unattached, then landscape. Each refusal makes no call and leaves the lock file alone. The first snapshot is taken exactly when all three pass |
| EnableProperties.AlreadyEnabled | uaclient/api/u/pro/services/enable/v1.py:93-101 | An enabled service gives the empty result after one snapshot, without touching the lock |
| EnableProperties.SuccessResult | uaclient/api/u/pro/services/enable/v1.py:140-165 | On success, `enabled` is exactly the services enabled afterwards but not before, and `disabled` the reverse. Both are sorted and without repeats, and disjoint. The reboot flag and messages are the entitlement's |
| EnableProperties.EnabledListIsCanonical | uaclient/api/u/pro/services/enable/v1.py:149-155 | Any sorted, repeat-free listing of that set equals `enabled` |
| EnableProperties.DisabledListIsCanonical | uaclient/api/u/pro/services/enable/v1.py:156-162 | The same for `disabled` |
| EnableProperties.FailureReason | uaclient/api/u/pro/services/enable/v1.py:131-138 | A failed enable raises EntitlementNotEnabledError with the fail reason's message, or the generic message without one. The lock file is empty afterwards |
| EnableProperties.ExceptionClearsLockFile | uaclient/api/u/pro/services/enable/v1.py:117-129 | An exception while taking the lock or inside it is passed on unchanged, after the lock file is cleared |
| EnableProperties.FailedAcquireClearsOtherHolder | uaclient/api/u/pro/services/enable/v1.py:117-129 | A failure to take the lock clears the file even when another holder names it |
| EnableProperties.TraceShapes | uaclient/api/u/pro/services/enable/v1.py:84-165 | Every run of `_enable` makes one of six listed call sequences; there are at most these six |
| EnableProperties.EnableRunsUnderLock | uaclient/api/u/pro/services/enable/v1.py:117-126 | `enable` runs at most once: after the lock is taken under "u.pro.services.enable.v1", with the option flags and api=True, and right before the release |
| EnableProperties.LockNotLeftHeld | uaclient/api/u/pro/services/enable/v1.py:117-129 | Afterwards the lock file is as it was or empty, and names the endpoint only if it did before |
| EnableProperties.PostEnableMessagesAppend | uaclient/api/u/pro/services/enable/v1.py:142-146 | The message filter distributes over concatenation |
| EnableProperties.PostEnableMessagesSingle | uaclient/api/u/pro/services/enable/v1.py:142-146 | It keeps a string item and drops any other |
| EnableProperties.PostEnableMessagesAllText | uaclient/api/u/pro/services/enable/v1.py:142-146 | On strings only, it returns them all, in order |
| EnableProperties.DefaultOptionsEnableCall | uaclient/api/u/pro/services/enable/v1.py:36-39 | With default options, the entitlement is built with variant "" and not access-only, and `enable` is asked to enable required and disable incompatible services |
| Lex.SortedDifference | uaclient/api/u/pro/services/enable/v1.py:149-162 | The result is sorted and repeat-free, and holds exactly the strings of `a` not in `b` |
| Lex.SortedSetUnique | uaclient/api/u/pro/services/enable/v1.py:149-162 | Two sorted, repeat-free lists with the same elements are equal |
| Log.RedactDictFields | uaclient/log.py:22-29 | The loop's dict equals `RedactEntries`: same keys in the same order, "token" mapped to "REDACTED" and every other value redacted |
| Log.RedactValue | uaclient/log.py:11-19 | A value keeps its kind: a string stays a string, a list a list of the same length, a dict a dict with the same keys in the same order. Every other value, tuples included, is returned unchanged |
| Log.FieldPairs | uaclient/log.py:78-82 | The pairs are each required field with its value, or None, looked up in the record, in order |
| Log.RequiredFieldsRecord | uaclient/log.py:78-82 | The ordered dict the loop fills is exactly those pairs |
| Log.AppendExtra | uaclient/log.py:84-85 | The values are the required fields' values, followed by the extra dict |
| Log.WithExtra | uaclient/log.py:88-98 | The result is the keyword arguments of a logging call holding only `extra`, which is the dict `{"extra": kw}` |
| Log.Format | uaclient/log.py:58-85 | The record's message and asctime are set, and the array is `FormatSpec` over the updated record and its extra dict |
| Log.RequiredFieldsDistinct | uaclient/log.py:49-56 | The six required fields are distinct, and none is "extra" |
| LogProperties.RedactedDictLookup | uaclient/log.py:22-29 | The redacted dict keeps the keys and their order. A lookup gives "REDACTED" for `token` and the redacted value for any other key |
| LogProperties.RedactList | uaclient/log.py:16-17 | A list keeps its length and order, with each element redacted |
| LogProperties.RedactScalars | uaclient/log.py:14-19 | A string goes through `redact_sensitive_logs`. Other values, tuples included, are returned unchanged |
| LogProperties.RedactFixpoint | uaclient/log.py:11-29 | Redaction leaves a value unchanged exactly when the value is clean |
| LogProperties.RedactedIsClean | uaclient/log.py:11-29 | With an idempotent string redaction, a redacted value is clean |
| LogProperties.RedactIdempotent | uaclient/log.py:11-29 | With an idempotent string redaction, redacting twice is redacting once |
| LogProperties.FormatOrder | uaclient/log.py:58-85 | The array has seven elements: the new asctime, levelname, name, funcName, lineno, the new message, then the extra dict |
| LogProperties.TimeAndMessageSet | uaclient/log.py:59-60 | After the two assignments, message and asctime read as set and every other attribute as before |
| LogProperties.FormatSpecShape | uaclient/log.py:78-85 | The array holds each required field's value in order, then the extra dict |
| LogProperties.ExtraOverrides | uaclient/log.py:73-75 | A key of the record's non-empty `extra` dict maps, in the extra dict, to its own value |
| LogProperties.MergeExtraOverrides | uaclient/log.py:74-75 | `update` with a non-empty dict: its keys take its values and the other keys keep theirs |
| LogProperties.ExcInfoChoice | uaclient/log.py:63-68 | Unless `extra` sets `exc_info`, it holds the formatted exception, or `exc_text` when that is empty or there is no exception |
| LogProperties.BaseExcInfo | uaclient/log.py:62-72 | The same, before `extra` is merged in |
| LogProperties.WithExtraReachesFormatter | uaclient/log.py:88-98 | `with_extra(**kw)` makes `kw` the record's `extra`, and each keyword reaches the extra dict with its value |
| Dicts.SetGet | uaclient/log.py:82 | After `d[k] = v`, `k` maps to `v` and every other key as before |
| Dicts.SetNewKey | uaclient/log.py:84 | A new key goes last |
| Dicts.UpdateGet | uaclient/log.py:75 | After `d.update(other)`, a key of `other` maps to its value there, and any other key keeps its value |
| Secrets.SecretManager.constructor | uaclient/secret_manager.py:5-6 | A new manager knows no secret |
| Secrets.SecretManager.AddSecret | uaclient/secret_manager.py:8-9 | The secret is appended, and the earlier secrets stay in order |
| Secrets.SecretManager.Secrets | uaclient/secret_manager.py:11-13 | The property gives the secrets in the order they were added |
| Secrets.SecretManager.ClearSecrets | uaclient/secret_manager.py:15-16 | The list is empty afterwards |
| Secrets.SecretManager.RedactSecrets | uaclient/secret_manager.py:18-24 | The loop's result is `RedactAll`: each secret replaced in turn, from the first added. The secrets are not modified |
| Secrets.ReplaceAll | uaclient/secret_manager.py:21-23 | One `re.sub` of an escaped secret. It has no contract of its own; the `SecretProperties` lemmas state what it does: a text without the secret is unchanged, if the secret occurs in the text the replacement occurs in the output, replacing a secret by itself is the identity, and for the empty secret the output grows by n+1 replacements, starts and ends with one, and has character i of the text at position i*(m+1)+m |
| SecretProperties.ReplaceAbsent | uaclient/secret_manager.py:21-23 | A text without the (non-empty) secret is unchanged |
| SecretProperties.ReplaceBySelf | uaclient/secret_manager.py:21-23 | Replacing a secret by itself changes nothing: the scan cuts the text into pieces and puts them back in order |
| SecretProperties.ReplacementAppears | uaclient/secret_manager.py:21-23 | If the secret occurs in the text, the replacement occurs in the output |
| SecretProperties.ReplaceWholeText | uaclient/secret_manager.py:21-23 | A text that is exactly the secret becomes the replacement |
| SecretProperties.EmptySecret | uaclient/secret_manager.py:21-23 | With the empty secret, the output is n+1 replacements longer than the text of length n, and starts and ends with the replacement |
| SecretProperties.EmptySecretPositions | uaclient/secret_manager.py:21-23 | With the empty secret, character i of the text is at position i*(m+1)+m of the output, m being the replacement's length |
| SecretProperties.RedactAppend | uaclient/secret_manager.py:20-23 | With one more secret, redaction is the old redaction followed by replacing the new secret |
| SecretProperties.RedactConcat | uaclient/secret_manager.py:20-23 | Redacting with `a + b` is redacting with `a`, then with `b` |
| SecretProperties.RedactNothingToHide | uaclient/secret_manager.py:18-24 | A text in which no non-empty secret occurs is returned unchanged |
| SecretProperties.AddThenRedact | uaclient/secret_manager.py:8-24 | After `add_secret(s)`, redaction replaces `s` in what the earlier secrets left |
| SecretProperties.ClearThenRedact | uaclient/secret_manager.py:15-24 | After `clear_secrets()`, redaction is the identity |

## Left out

- Enable.EnableService: exceptions from these calls are not modelled:
  - `_is_attached(cfg)` (line 87);
  - the two `_enabled_services_names(cfg)` snapshots (lines 93 and 140);
  - `entitlement.messaging.get(...)` (line 144);
  - `entitlement._check_for_reboot()` (line 163).

  `EnableEnv` gives these as plain values. Only the entitlement factory, taking the lock and `enable` can raise in the model. A run that gets past `enable` therefore always ends in `Success`. In the code, a failing second snapshot raises after the lock is released.
- Fix.ExecuteFixPlan: exceptions that end the run are not modelled. This covers `MagicAttachTokenError`, re-raised by `_perform_magic_attach` through `_prompt_for_attach`. It also covers any non-`UserFacingError` exception from `action_attach`, and exceptions from `action_enable` or `entitlement_factory`. `FixEnv` gives only success or failure answers, so the model's loop always completes and returns a status and an unfixed list.
- Printing is not modelled: headers, `textwrap` wrapping, colorised commands, the summary lines. `_format_packages_message` is modelled up to the text layout, as its labels, sorted names and status message.
- `action_fix`, argument parsing and the security-issue regex are not modelled.
- `cve_plan` and `usn_plan` are not modelled. The plans are inputs.
- The real effects are oracles, not modelled operations: `_prompt_for_attach`, `_prompt_for_new_token`, `_prompt_for_enable`, apt, `should_reboot`, notices, `get_contract_expiry_status` and the entitlement's status.
- `_handle_subscription_for_required_service` assumes the entitlement exists. The falsy-`ent` branch (line 487) is not modelled, because the factory is an oracle.
- `execute_fix_plan`'s dry-run message inside the expired-subscription branch (lines 735-736) is unreachable. `_check_subscription_is_expired` returns false in a dry run, so the model has no such branch.
- The enable endpoint's `SpinLock` internals (its waiting and retrying), event mode and the entitlement's internal behaviour are not modelled. Taking the lock either succeeds, writing the holder into the lock file, or raises. Leaving the lock empties the file.
- Logging's `json.dumps`, `formatTime`, `getMessage`, `formatException` and `formatStack` are not modelled. The last two are function parameters; `message` and `asctime` are inputs of `Log.Format`.
- `RedactionFilter` (uaclient/log.py:32-39) is not modelled. It only composes `redact_sensitive_logs` and `redact_dict_fields`, which are modelled, on a record's `msg` and `extra`.
- Dict keys are strings. Python dicts with other key types are not modelled.
- Logging's own rules are not modelled: the check for reserved attribute names inside `extra`, and how logging copies a record's attributes.
- `Secrets.SecretManager.Secrets`: the property returns the list object itself, so a caller can change it in place. The model returns its value, which does not capture that aliasing.
- `Fix.RelatedRuns`: its contract is kept to its length. The result of each run is stated by `Fix.RunRelatedPlan` and used by `FixProperties.RelatedFailureDistinctTitles`.
- features/ (the acceptance-test steps) and uaclient/jobs/eol_status.py are not part of this model.
- The model follows the code as written, in these behaviours:
  - the unfixed list is not deduplicated;
  - a failed apt run records no unfixed package;
  - a no-op NOT_AFFECTED step overwrites any earlier status;
  - a lock failure clears the lock file even when another holder wrote it;
  - related results are keyed by title, so a later same-titled USN replaces an earlier one in the summary.
