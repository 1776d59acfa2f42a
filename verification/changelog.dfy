/** Status-change extraction: raw changelog entries are filtered down to the
    items on the `status` field and stably sorted by calendar day. */
module Changelog {

  /** One field change inside a changelog entry. */
  datatype ChangeItem = ChangeItem(field: string, fromString: string, toString: string)

  /** A changelog entry: the day it was created (already a day number) and its field changes. */
  datatype History = History(created: int, items: seq<ChangeItem>)

  /** A status transition recorded on a calendar day. */
  datatype Event = Event(date: int, from: string, to: string)

  /** The field name whose changes are status transitions. */
  const StatusField: string := "status"

  /** The status events of one entry's items, in item order, all dated `when`. */
  function ItemEvents(when: int, items: seq<ChangeItem>): (r: seq<Event>)
    ensures |r| <= |items|
    ensures forall k :: 0 <= k < |r| ==> r[k].date == when
  {
    if |items| == 0 then []
    else
      (if items[0].field == StatusField
       then [Event(when, items[0].fromString, items[0].toString)] else [])
      + ItemEvents(when, items[1..])
  }

  /** All status events of the entries, entry by entry, before sorting. */
  function CollectStatusEvents(hs: seq<History>): seq<Event>
  {
    if |hs| == 0 then []
    else ItemEvents(hs[0].created, hs[0].items) + CollectStatusEvents(hs[1..])
  }

  /** The event built from a status item of an entry created on `when`. */
  function ToEvent(when: int, item: ChangeItem): Event
  {
    Event(when, item.fromString, item.toString)
  }

  /** An entry's events are exactly its status items, converted. */
  lemma {:induction false} ItemEventsMembers(when: int, items: seq<ChangeItem>, e: Event)
    ensures e in ItemEvents(when, items) <==>
              exists j :: 0 <= j < |items| && items[j].field == StatusField && e == ToEvent(when, items[j])
    decreases |items|
  {
    if |items| > 0 {
      ItemEventsMembers(when, items[1..], e);
      if e in ItemEvents(when, items[1..]) {
        var j :| 0 <= j < |items[1..]| && items[1..][j].field == StatusField && e == ToEvent(when, items[1..][j]);
        assert items[j + 1] == items[1..][j];
      }
      if exists j :: 0 <= j < |items| && items[j].field == StatusField && e == ToEvent(when, items[j]) {
        var j :| 0 <= j < |items| && items[j].field == StatusField && e == ToEvent(when, items[j]);
        if j > 0 {
          assert items[1..][j - 1] == items[j];
        }
      }
    }
  }

  /** The collected events are exactly the status items of all entries, each dated by its entry. */
  lemma {:induction false} CollectMembers(hs: seq<History>, e: Event)
    ensures e in CollectStatusEvents(hs) <==>
              exists i, j :: 0 <= i < |hs| && 0 <= j < |hs[i].items|
                             && hs[i].items[j].field == StatusField && e == ToEvent(hs[i].created, hs[i].items[j])
    decreases |hs|
  {
    if |hs| > 0 {
      CollectMembers(hs[1..], e);
      ItemEventsMembers(hs[0].created, hs[0].items, e);
      if e in CollectStatusEvents(hs[1..]) {
        var i, j :| 0 <= i < |hs[1..]| && 0 <= j < |hs[1..][i].items|
                    && hs[1..][i].items[j].field == StatusField && e == ToEvent(hs[1..][i].created, hs[1..][i].items[j]);
        assert hs[i + 1] == hs[1..][i];
      }
      if exists i, j :: 0 <= i < |hs| && 0 <= j < |hs[i].items|
                        && hs[i].items[j].field == StatusField && e == ToEvent(hs[i].created, hs[i].items[j]) {
        var i, j :| 0 <= i < |hs| && 0 <= j < |hs[i].items|
                    && hs[i].items[j].field == StatusField && e == ToEvent(hs[i].created, hs[i].items[j]);
        if i > 0 {
          assert hs[1..][i - 1] == hs[i];
        }
      }
    }
  }

  /** Collecting the items of two item lists one after the other concatenates their events. */
  lemma {:induction false} ItemEventsAppend(when: int, a: seq<ChangeItem>, b: seq<ChangeItem>)
    ensures ItemEvents(when, a + b) == ItemEvents(when, a) + ItemEvents(when, b)
    decreases |a|
  {
    if |a| == 0 {
      assert a + b == b;
    } else {
      assert (a + b)[1..] == a[1..] + b;
      ItemEventsAppend(when, a[1..], b);
    }
  }

  /** Collecting two runs of entries one after the other concatenates their events. */
  lemma {:induction false} CollectAppend(a: seq<History>, b: seq<History>)
    ensures CollectStatusEvents(a + b) == CollectStatusEvents(a) + CollectStatusEvents(b)
    decreases |a|
  {
    if |a| == 0 {
      assert a + b == b;
    } else {
      assert (a + b)[1..] == a[1..] + b;
      CollectAppend(a[1..], b);
    }
  }

  /** A single entry with a single item yields one event exactly when the item is on the status field. */
  lemma CollectSingleItem(when: int, item: ChangeItem)
    ensures CollectStatusEvents([History(when, [item])])
            == if item.field == StatusField then [Event(when, item.fromString, item.toString)] else []
  {
    assert [History(when, [item])][1..] == [];
    assert [item][1..] == [];
  }

  /** Dates never decrease along the sequence. */
  ghost predicate Sorted(evs: seq<Event>)
  {
    forall i, j :: 0 <= i < j < |evs| ==> evs[i].date <= evs[j].date
  }

  /** The subsequence of events dated `d`, in their order. */
  function OnDate(evs: seq<Event>, d: int): seq<Event>
  {
    if |evs| == 0 then []
    else (if evs[0].date == d then [evs[0]] else []) + OnDate(evs[1..], d)
  }

  lemma {:induction false} OnDateAppend(a: seq<Event>, b: seq<Event>, d: int)
    ensures OnDate(a + b, d) == OnDate(a, d) + OnDate(b, d)
    decreases |a|
  {
    if |a| == 0 {
      assert a + b == b;
    } else {
      assert (a + b)[1..] == a[1..] + b;
      OnDateAppend(a[1..], b, d);
    }
  }

  /** Inserts `e` before the first event dated on or after it, so that `e` precedes
      every event it ties with. */
  function InsertByDate(e: Event, evs: seq<Event>): (r: seq<Event>)
    ensures multiset(r) == multiset(evs) + multiset{e}
    decreases |evs|
  {
    if |evs| == 0 || e.date <= evs[0].date then [e] + evs
    else
      assert evs == [evs[0]] + evs[1..];
      [evs[0]] + InsertByDate(e, evs[1..])
  }

  /** No event of `evs` is dated before `b`. */
  ghost predicate DatedFrom(b: int, evs: seq<Event>)
  {
    forall k :: 0 <= k < |evs| ==> b <= evs[k].date
  }

  /** A sorted sequence stays sorted under a new first event dated no later than all of it. */
  lemma SortedCons(x: Event, evs: seq<Event>)
    requires Sorted(evs) && DatedFrom(x.date, evs)
    ensures Sorted([x] + evs)
  {
    var r := [x] + evs;
    forall i, j | 0 <= i < j < |r| ensures r[i].date <= r[j].date {
      if i > 0 {
        assert r[i] == evs[i - 1] && r[j] == evs[j - 1];
      } else {
        assert r[j] == evs[j - 1];
      }
    }
  }

  /** Inserting into a sorted sequence keeps it sorted. */
  lemma {:induction false} InsertByDateSorted(e: Event, evs: seq<Event>)
    requires Sorted(evs)
    ensures Sorted(InsertByDate(e, evs))
    decreases |evs|
  {
    if |evs| == 0 || e.date <= evs[0].date {
      SortedCons(e, evs);
    } else {
      var rest := InsertByDate(e, evs[1..]);
      InsertByDateSorted(e, evs[1..]);
      forall k | 0 <= k < |rest| ensures evs[0].date <= rest[k].date {
        assert rest[k] in multiset(rest);
        if rest[k] != e {
          assert rest[k] in multiset(evs[1..]);
          var m :| 0 <= m < |evs[1..]| && evs[1..][m] == rest[k];
          assert evs[m + 1] == rest[k];
        }
      }
      SortedCons(evs[0], rest);
    }
  }

  lemma OnDateCons(x: Event, s: seq<Event>, d: int)
    ensures OnDate([x] + s, d) == (if x.date == d then [x] else []) + OnDate(s, d)
  {
    assert ([x] + s)[1..] == s;
  }

  /** Inserting `e` adds it at the front of the events sharing its date and leaves every other date's events alone. */
  lemma {:induction false} InsertByDateOnDate(e: Event, evs: seq<Event>, d: int)
    ensures OnDate(InsertByDate(e, evs), d) == (if e.date == d then [e] else []) + OnDate(evs, d)
    decreases |evs|
  {
    if |evs| == 0 || e.date <= evs[0].date {
      OnDateCons(e, evs, d);
    } else {
      InsertByDateOnDate(e, evs[1..], d);
      InsertAfterHead(e, evs, d, InsertByDate(e, evs[1..]));
    }
  }

  lemma InsertAfterHead(e: Event, evs: seq<Event>, d: int, rest: seq<Event>)
    requires |evs| > 0 && evs[0].date < e.date
    requires OnDate(rest, d) == (if e.date == d then [e] else []) + OnDate(evs[1..], d)
    ensures OnDate([evs[0]] + rest, d) == (if e.date == d then [e] else []) + OnDate(evs, d)
  {
    OnDateCons(evs[0], rest, d);
  }

  /** Insertion sort by date, stable with respect to the original order. */
  function SortByDate(evs: seq<Event>): (r: seq<Event>)
    ensures Sorted(r)
    ensures multiset(r) == multiset(evs)
    decreases |evs|
  {
    if |evs| == 0 then []
    else
      var rest := SortByDate(evs[1..]);
      InsertByDateSorted(evs[0], rest);
      assert evs == [evs[0]] + evs[1..];
      InsertByDate(evs[0], rest)
  }

  /** Sorting keeps, for every day, the events of that day in their original order. */
  lemma {:induction false} SortByDateStable(evs: seq<Event>, d: int)
    ensures OnDate(SortByDate(evs), d) == OnDate(evs, d)
    decreases |evs|
  {
    if |evs| > 0 {
      SortByDateStable(evs[1..], d);
      InsertByDateOnDate(evs[0], SortByDate(evs[1..]), d);
    }
  }

  /** The status transitions of a changelog, sorted by day; same-day transitions keep their changelog order. */
  function ExtractStatusChanges(hs: seq<History>): (r: seq<Event>)
    ensures Sorted(r)
    ensures multiset(r) == multiset(CollectStatusEvents(hs))
    ensures forall d :: OnDate(r, d) == OnDate(CollectStatusEvents(hs), d)
  {
    var evs := CollectStatusEvents(hs);
    assert forall d :: OnDate(SortByDate(evs), d) == OnDate(evs, d) by {
      forall d ensures OnDate(SortByDate(evs), d) == OnDate(evs, d) {
        SortByDateStable(evs, d);
      }
    }
    SortByDate(evs)
  }

  /** In a sorted sequence no event is dated before the first one. */
  lemma {:induction false} OnDateBeforeFirst(evs: seq<Event>, d: int)
    requires Sorted(evs)
    requires |evs| > 0 && d < evs[0].date
    ensures OnDate(evs, d) == []
    decreases |evs|
  {
    if |evs| > 1 {
      OnDateBeforeFirst(evs[1..], d);
    }
  }

  /** Two sequences that agree day by day are both empty or both non-empty. */
  lemma AgreeEmpty(a: seq<Event>, b: seq<Event>)
    requires forall d :: OnDate(a, d) == OnDate(b, d)
    ensures |a| == 0 <==> |b| == 0
  {
    if |a| > 0 {
      assert OnDate(b, a[0].date) == OnDate(a, a[0].date) != [];
    }
    if |b| > 0 {
      assert OnDate(a, b[0].date) == OnDate(b, b[0].date) != [];
    }
  }

  /** Two sorted sequences that agree day by day start with the same event. */
  lemma AgreeHead(a: seq<Event>, b: seq<Event>)
    requires Sorted(a) && Sorted(b) && |a| > 0 && |b| > 0
    requires forall d :: OnDate(a, d) == OnDate(b, d)
    ensures a[0] == b[0]
  {
    var da, db := a[0].date, b[0].date;
    if da < db {
      OnDateBeforeFirst(b, da);
      assert false;
    } else if db < da {
      OnDateBeforeFirst(a, db);
      assert false;
    } else {
      assert OnDate(a, da)[0] == a[0];
      assert OnDate(b, da)[0] == b[0];
    }
  }

  /** Dropping a common first event keeps two sequences in day-by-day agreement. */
  lemma AgreeTail(a: seq<Event>, b: seq<Event>)
    requires |a| > 0 && |b| > 0 && a[0] == b[0]
    requires forall d :: OnDate(a, d) == OnDate(b, d)
    ensures forall d :: OnDate(a[1..], d) == OnDate(b[1..], d)
  {
    assert a == [a[0]] + a[1..];
    assert b == [a[0]] + b[1..];
    forall d ensures OnDate(a[1..], d) == OnDate(b[1..], d) {
      OnDateCons(a[0], a[1..], d);
      OnDateCons(a[0], b[1..], d);
      var hd := if a[0].date == d then [a[0]] else [];
      assert hd + OnDate(a[1..], d) == hd + OnDate(b[1..], d);
      assert OnDate(a[1..], d) == (hd + OnDate(a[1..], d))[|hd|..];
      assert OnDate(b[1..], d) == (hd + OnDate(b[1..], d))[|hd|..];
    }
  }

  /** Being sorted and agreeing day by day with a sequence determines a sequence
      completely: the sorted, stable arrangement of a changelog is unique. */
  lemma {:induction false} SortedStableUnique(a: seq<Event>, b: seq<Event>)
    requires Sorted(a) && Sorted(b)
    requires forall d :: OnDate(a, d) == OnDate(b, d)
    ensures a == b
    decreases |a|
  {
    AgreeEmpty(a, b);
    if |a| > 0 {
      AgreeHead(a, b);
      AgreeTail(a, b);
      SortedStableUnique(a[1..], b[1..]);
      assert a == [a[0]] + a[1..];
      assert b == [b[0]] + b[1..];
    }
  }

  /** Extraction is the one sorted, stable arrangement of the collected status events. */
  lemma ExtractIsTheStableSort(hs: seq<History>, s: seq<Event>)
    requires Sorted(s)
    requires forall d :: OnDate(s, d) == OnDate(CollectStatusEvents(hs), d)
    ensures s == ExtractStatusChanges(hs)
  {
    SortedStableUnique(s, ExtractStatusChanges(hs));
  }
}
