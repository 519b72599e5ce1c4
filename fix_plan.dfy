/** The fix plan that `pro fix` executes: the steps and warnings a plan
    lists for one CVE or USN, the status a run ends in, and the packages it
    leaves unfixed with the reason for each. */
module FixPlan {
  import opened Wrappers

  /** `FixStatus`: the outcome of fixing one security issue. */
  datatype FixStatus =
    | SystemNonVulnerable
    | SystemNotAffected
    | SystemVulnerableUntilReboot
    | SystemStillVulnerable

  /** The status of a no-op step: only `NOT_AFFECTED` has an effect. That
      status is always `NoOpNotAffected`; `NoOpOtherStatus` carries the value
      of any other status and never `NOT_AFFECTED`'s own value. */
  datatype NoOpStatus = NoOpNotAffected | NoOpOtherStatus(value: string)

  /** The plan steps (`FixPlanStep` subclasses). */
  datatype PlanStep =
    | AptUpgrade(order: int, sourcePackages: seq<string>, binaryPackages: seq<string>, pocket: string)
    | Attach(order: int, sourcePackages: seq<string>, requiredService: string)
    | Enable(order: int, sourcePackages: seq<string>, service: string)
    | NoOp(order: int, status: NoOpStatus)
    | NoOpLivepatchFix(order: int, patchVersion: string)
    | NoOpAlreadyFixed(order: int, sourcePackages: seq<string>, pocket: string)

  /** The plan warnings (`FixPlanWarning` subclasses). */
  datatype PlanWarning =
    | PackageCannotBeInstalled(order: int, sourcePackage: string, binaryPackage: string,
                               binaryPackageVersion: string, relatedSourcePackages: seq<string>,
                               pocket: string)
    | SecurityIssueNotFixed(order: int, sourcePackages: seq<string>, status: string)

  /** One element of `[*fix_plan.plan, *fix_plan.warnings]`. */
  datatype Entry = Step(step: PlanStep) | Warning(warning: PlanWarning)
  {
    function Order(): int
    {
      match this
      case Step(s) => s.order
      case Warning(w) => w.order
    }
  }

  /** `FixPlanResult`: the plan for one issue; `error` is set when no plan
      could be computed. */
  datatype FixPlanResult = FixPlanResult(
    title: string,
    description: string,
    affectedPackages: seq<string>,
    plan: seq<PlanStep>,
    warnings: seq<PlanWarning>,
    error: Option<string>)

  /** `FixPlanUSNResult`: the plan for a USN and for the USNs related to it. */
  datatype FixPlanUsnResult = FixPlanUsnResult(
    targetUsnPlan: FixPlanResult,
    relatedUsnsPlan: seq<FixPlanResult>)

  /** The message text a CVE status string maps to (`status_message`). */
  datatype StatusMessage =
    | CveStatusNeeded
    | CveStatusTriage
    | CveStatusPending
    | CveStatusIgnored
    | CveStatusDne
    | CveStatusNotAffected
    | FixReleaseStream(fixStream: string)
    | CveStatusUnknown(status: string)

  /** Why a package stays unfixed; each stands for one message template. */
  datatype UnfixedReason =
    | CannotInstallPackage(package: string, version: string)
    | FromCveStatus(message: StatusMessage)
    | AptNonRoot
    | ServiceRequired(service: string)
    | ServiceWithExpiredSubscription(service: string)
    | ServiceNotEnabled(service: string)

  /** `security.UnfixedPackage`. */
  datatype UnfixedPackage = UnfixedPackage(pkg: string, unfixedReason: UnfixedReason)
}
