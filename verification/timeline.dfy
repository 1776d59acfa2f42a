/** Status reconstruction: the status an issue held at the end of a given day,
    and the first day it entered a given status. */
module Timeline {
  import opened Wrappers
  import opened Changelog

  /** The source's scan with early exit: starting from `current`, take each event's
      target status while its day is on or before `day`, and stop at the first later one. */
  function WalkUntil(current: string, evs: seq<Event>, day: int): string
    decreases |evs|
  {
    if |evs| == 0 then current
    else if evs[0].date <= day then WalkUntil(evs[0].to, evs[1..], day)
    else current
  }

  /** The same scan without the early exit: every event is looked at, and those dated on
      or before `day` overwrite the current status. */
  function ScanAll(current: string, evs: seq<Event>, day: int): string
    decreases |evs|
  {
    if |evs| == 0 then current
    else ScanAll(if evs[0].date <= day then evs[0].to else current, evs[1..], day)
  }

  /** A scan that looks only at events after `day` keeps the status it started with. */
  lemma {:induction false} ScanAllAfter(current: string, evs: seq<Event>, day: int)
    requires forall i :: 0 <= i < |evs| ==> evs[i].date > day
    ensures ScanAll(current, evs, day) == current
    decreases |evs|
  {
    if |evs| > 0 {
      ScanAllAfter(current, evs[1..], day);
    }
  }

  /** On a sorted sequence the early exit changes nothing. */
  lemma {:induction false} EarlyExitIsHarmless(current: string, evs: seq<Event>, day: int)
    requires Sorted(evs)
    ensures WalkUntil(current, evs, day) == ScanAll(current, evs, day)
    decreases |evs|
  {
    if |evs| > 0 {
      if evs[0].date <= day {
        EarlyExitIsHarmless(evs[0].to, evs[1..], day);
      } else {
        ScanAllAfter(current, evs[1..], day);
      }
    }
  }

  /** On a sorted sequence whose event `k` is the last one dated on or before `day`, the
      scan yields that event's target status. */
  lemma {:induction false} WalkReachesLastApplicable(initial: string, evs: seq<Event>, day: int, k: int)
    requires Sorted(evs)
    requires 0 <= k < |evs| && evs[k].date <= day
    requires forall j :: k < j < |evs| ==> evs[j].date > day
    ensures WalkUntil(initial, evs, day) == evs[k].to
    decreases |evs|
  {
    assert evs[0].date <= evs[k].date;
    if k == 0 {
      if |evs| > 1 {
        assert evs[1..][0] == evs[1];
      }
    } else {
      forall j | k - 1 < j < |evs[1..]| ensures evs[1..][j].date > day {
        assert evs[1..][j] == evs[j + 1];
      }
      assert evs[1..][k - 1] == evs[k];
      WalkReachesLastApplicable(evs[0].to, evs[1..], day, k - 1);
    }
  }

  /** On a sorted sequence the scan yields the target status of the last event dated on or
      before `day`, and the starting status when there is none. */
  lemma WalkIsLastApplicable(initial: string, evs: seq<Event>, day: int)
    requires Sorted(evs)
    ensures (forall i :: 0 <= i < |evs| ==> evs[i].date > day) ==> WalkUntil(initial, evs, day) == initial
    ensures forall k :: 0 <= k < |evs| && evs[k].date <= day
                        && (forall j :: k < j < |evs| ==> evs[j].date > day)
                        ==> WalkUntil(initial, evs, day) == evs[k].to
  {
    forall k | 0 <= k < |evs| && evs[k].date <= day && (forall j :: k < j < |evs| ==> evs[j].date > day)
      ensures WalkUntil(initial, evs, day) == evs[k].to
    {
      WalkReachesLastApplicable(initial, evs, day, k);
    }
  }

  /** The status at the end of `day`: start from `initial` and apply, in order, every
      status transition of the changelog dated on or before that day. */
  function StatusOnDate(initial: string, hs: seq<History>, day: int): (r: string)
    ensures ExtractStatusChanges(hs) == [] ==> r == initial
  {
    WalkUntil(initial, ExtractStatusChanges(hs), day)
  }

  /** The status on a day is the starting status or the target of a transition dated on or before it. */
  lemma {:induction false} WalkResultOrigin(initial: string, evs: seq<Event>, day: int)
    ensures var r := WalkUntil(initial, evs, day);
            r == initial || exists k :: 0 <= k < |evs| && evs[k].date <= day && evs[k].to == r
    decreases |evs|
  {
    if |evs| > 0 && evs[0].date <= day {
      WalkResultOrigin(evs[0].to, evs[1..], day);
      var r := WalkUntil(initial, evs, day);
      if r != evs[0].to {
        var k :| 0 <= k < |evs[1..]| && evs[1..][k].date <= day && evs[1..][k].to == r;
        assert evs[k + 1] == evs[1..][k];
      }
    }
  }

  /** The day of the first event, in order, whose target status is `target`. */
  function FirstReach(evs: seq<Event>, target: string): (r: Option<int>)
    ensures r.None? <==> forall i :: 0 <= i < |evs| ==> evs[i].to != target
    ensures r.Some? ==> exists k :: 0 <= k < |evs| && evs[k].to == target && evs[k].date == r.value
                                    && forall j :: 0 <= j < k ==> evs[j].to != target
  {
    if |evs| == 0 then None
    else if evs[0].to == target then Some(evs[0].date)
    else
      var r := FirstReach(evs[1..], target);
      assert forall i :: 1 <= i < |evs| ==> evs[i] == evs[1..][i - 1];
      if r.Some? then
        var k :| 0 <= k < |evs[1..]| && evs[1..][k].to == target && evs[1..][k].date == r.value
                 && forall j :: 0 <= j < k ==> evs[1..][j].to != target;
        assert evs[k + 1] == evs[1..][k];
        assert forall j :: 0 <= j < k + 1 ==> evs[j].to != target by {
          forall j | 0 <= j < k + 1 ensures evs[j].to != target {
            if j > 0 {
              assert evs[j] == evs[1..][j - 1];
            }
          }
        }
        r
      else r
  }

  /** The first day the changelog shows the issue entering `target`, if it ever does. */
  function FirstDateReachingStatus(hs: seq<History>, target: string): (r: Option<int>)
    ensures r.None? <==> forall e :: e in ExtractStatusChanges(hs) ==> e.to != target
    ensures r.Some? ==>
              var evs := ExtractStatusChanges(hs);
              exists k :: 0 <= k < |evs| && evs[k].to == target && evs[k].date == r.value
                          && forall j :: 0 <= j < k ==> evs[j].to != target
  {
    FirstReach(ExtractStatusChanges(hs), target)
  }

  /** On a sorted sequence the first day reaching `target` is the earliest such day. */
  lemma FirstReachIsEarliest(evs: seq<Event>, target: string)
    requires Sorted(evs)
    requires FirstReach(evs, target).Some?
    ensures forall i :: 0 <= i < |evs| && evs[i].to == target ==> FirstReach(evs, target).value <= evs[i].date
  {
    var u := FirstReach(evs, target).value;
    var k :| 0 <= k < |evs| && evs[k].to == target && evs[k].date == u
             && forall j :: 0 <= j < k ==> evs[j].to != target;
    forall i | 0 <= i < |evs| && evs[i].to == target ensures u <= evs[i].date {
      assert k <= i;
    }
  }

  /** Before the first day the changelog reaches `target` (or on any day, if it never does),
      the reconstructed status is `target` only if the starting status already was. */
  lemma NotInTargetBeforeReaching(initial: string, evs: seq<Event>, target: string, day: int)
    requires Sorted(evs)
    requires FirstReach(evs, target).None? || day < FirstReach(evs, target).value
    requires initial != target
    ensures WalkUntil(initial, evs, day) != target
  {
    WalkResultOrigin(initial, evs, day);
    var r := WalkUntil(initial, evs, day);
    if r == target {
      var k :| 0 <= k < |evs| && evs[k].date <= day && evs[k].to == r;
      FirstReachIsEarliest(evs, target);
    }
  }

  /** The status on a day is the target of the last sorted status transition dated on or
      before it, or the starting status when no transition is that early. */
  lemma StatusOnDateIsLastApplicable(initial: string, hs: seq<History>, day: int)
    ensures var evs := ExtractStatusChanges(hs);
            && ((forall i :: 0 <= i < |evs| ==> evs[i].date > day) ==> StatusOnDate(initial, hs, day) == initial)
            && (forall k :: 0 <= k < |evs| && evs[k].date <= day
                           && (forall j :: k < j < |evs| ==> evs[j].date > day)
                           ==> StatusOnDate(initial, hs, day) == evs[k].to)
  {
    WalkIsLastApplicable(initial, ExtractStatusChanges(hs), day);
  }
}
