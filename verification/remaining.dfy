/** The per-day remaining-points rule: whether an issue's story points still count
    as remaining work on a given day. */
module Remaining {
  import opened Wrappers

  /** The business rules: the statuses that count as remaining work, the name of the
      acceptance-testing status, and whether entering it closes the issue for good. */
  datatype Policy = Policy(tracked: seq<string>, uatName: string, uatPermanent: bool)

  /** The default configuration: three tracked statuses, "UAT", permanent. */
  const DefaultPolicy: Policy := Policy(["To Do", "In Progress", "Code Review"], "UAT", true)

  /** The issue had entered the acceptance-testing status on or before `day`. */
  predicate ReachedBy(hitUat: Option<int>, day: int)
  {
    hitUat.Some? && day >= hitUat.value
  }

  /** The issue's points count on `day`: its status is tracked, and it is neither past
      acceptance testing under the permanent rule nor sitting in acceptance testing
      after having reached it. */
  predicate Counts(p: Policy, hitUat: Option<int>, status: string, day: int)
  {
    status in p.tracked
    && !(ReachedBy(hitUat, day) && (p.uatPermanent || status == p.uatName))
  }

  /** The points an issue contributes on `day`, given its status that day and the first
      day it entered acceptance testing, following the source's branch structure. */
  function RemainingOn(p: Policy, sp: real, hitUat: Option<int>, status: string, day: int): (r: real)
    ensures r == 0.0 || r == sp
    ensures r == (if Counts(p, hitUat, status, day) then sp else 0.0)
    ensures p.uatPermanent && ReachedBy(hitUat, day) ==> r == 0.0
    ensures status !in p.tracked ==> r == 0.0
  {
    if hitUat.Some? && day >= hitUat.value && p.uatPermanent then 0.0
    else if hitUat.Some? && day >= hitUat.value && !p.uatPermanent then
      if status == p.uatName then 0.0
      else if status in p.tracked then sp else 0.0
    else if status in p.tracked then sp else 0.0
  }

  /** Under the permanent rule, once the issue has reached acceptance testing it
      contributes nothing on that day and every later one, whatever its status. */
  lemma PermanentUatStaysDone(p: Policy, sp: real, u: int, day: int, later: int, s1: string, s2: string)
    requires p.uatPermanent && u <= day <= later
    ensures RemainingOn(p, sp, Some(u), s1, day) == 0.0
    ensures RemainingOn(p, sp, Some(u), s2, later) == 0.0
  {
  }

  /** Without the permanent rule, a day after acceptance testing was reached is decided
      by that day's status alone: nothing while in acceptance testing, the points
      exactly when the status is tracked otherwise. */
  lemma NonPermanentFollowsStatus(p: Policy, sp: real, u: int, day: int, status: string)
    requires !p.uatPermanent && u <= day
    ensures status == p.uatName ==> RemainingOn(p, sp, Some(u), status, day) == 0.0
    ensures status != p.uatName ==> RemainingOn(p, sp, Some(u), status, day) == if status in p.tracked then sp else 0.0
  {
  }

  /** Before acceptance testing is reached, or when it never is, the points count
      exactly when the status is tracked, under either rule. */
  lemma BeforeUatFollowsTracking(p: Policy, sp: real, hitUat: Option<int>, day: int, status: string)
    requires !ReachedBy(hitUat, day)
    ensures RemainingOn(p, sp, hitUat, status, day) == if status in p.tracked then sp else 0.0
  {
  }
}
