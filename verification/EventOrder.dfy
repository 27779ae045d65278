/** Funnel events in the order the drain reads them: by time, then by id. */
module EventOrder {

  /** The columns the drain orders and selects by; the others follow the id. */
  datatype Event = Event(occurredAt: int, id: nat)

  predicate Less(a: Event, b: Event) {
    a.occurredAt < b.occurredAt || (a.occurredAt == b.occurredAt && a.id < b.id)
  }

  predicate Ascending(s: seq<Event>) {
    forall i, j :: 0 <= i < j < |s| ==> Less(s[i], s[j])
  }

  predicate Least(e: Event, events: set<Event>) {
    e in events && forall x :: x in events && x != e ==> Less(e, x)
  }

  lemma {:induction false} LeastExists(events: set<Event>)
    requires events != {}
    ensures exists e :: Least(e, events)
  {
    var x :| x in events;
    if events == {x} {
      assert Least(x, events);
    } else {
      var rest := events - {x};
      assert events == rest + {x};
      assert {} + {x} == {x};
      LeastExists(rest);
      var m :| Least(m, rest);
      assert forall y :: y in events ==> y == x || y in rest;
      if Less(x, m) {
        assert Least(x, events);
      } else {
        assert Least(m, events);
      }
    }
  }

  /** `ORDER BY occurred_at, id` */
  ghost function Sorted(events: set<Event>): (s: seq<Event>)
    ensures |s| == |events|
  {
    if events == {} then []
    else
      LeastExists(events);
      var e :| Least(e, events);
      [e] + Sorted(events - {e})
  }

  lemma SortedStep(events: set<Event>, e: Event)
    requires Least(e, events)
    ensures Sorted(events) == [e] + Sorted(events - {e})
  {
  }

  lemma {:induction false} SortedIsSorted(events: set<Event>)
    ensures Ascending(Sorted(events))
    ensures forall e :: e in Sorted(events) <==> e in events
  {
    if events != {} {
      LeastExists(events);
      var e :| Least(e, events);
      SortedStep(events, e);
      SortedIsSorted(events - {e});
      hide Sorted;
      LeastFirst(e, events, Sorted(events - {e}));
    }
  }

  lemma LeastFirst(e: Event, events: set<Event>, rest: seq<Event>)
    requires Least(e, events) && Ascending(rest)
    requires forall x :: x in rest <==> x in events - {e}
    ensures Ascending([e] + rest)
    ensures forall x :: x in [e] + rest <==> x in events
  {
    assert forall j :: 0 <= j < |rest| ==> rest[j] in rest;
  }

  /** A list in order is what sorting its elements gives. */
  lemma {:induction false} AscendingIsSorted(s: seq<Event>, events: set<Event>)
    requires Ascending(s) && forall e :: e in s <==> e in events
    ensures s == Sorted(events)
  {
    if s == [] {
    } else {
      var e, rest := s[0], s[1..];
      assert forall x :: x in rest ==> Less(e, x) by {
        forall x | x in rest ensures Less(e, x) {
          var j :| 0 <= j < |rest| && rest[j] == x;
          assert x == s[j + 1];
        }
      }
      assert s == [e] + rest;
      assert Least(e, events);
      AscendingIsSorted(rest, events - {e});
      SortedStep(events, e);
    }
  }

  lemma InPrefix(s: seq<Event>, k: nat, j: nat)
    requires j < |s| && k <= |s|
    ensures j < k ==> s[j] in s[..k]
  {
    assert j < k ==> s[..k][j] == s[j];
  }

  lemma PrefixApart(s: seq<Event>, k: nat, i: nat)
    requires Ascending(s) && k <= i < |s|
    ensures s[i] !in s[..k]
  {
    assert forall j :: 0 <= j < k ==> Less(s[..k][j], s[i]);
  }

  /** What is left to read after the first `k` rows. */
  lemma SortedTail(events: set<Event>, k: nat, rest: set<Event>)
    requires k <= |events| && rest == set e | e in events && e !in Sorted(events)[..k]
    ensures Sorted(events)[k..] == Sorted(rest)
  {
    SortedIsSorted(events);
    hide Sorted;
    var s := Sorted(events);
    var tail := s[k..];
    assert forall i :: 0 <= i < |tail| ==> tail[i] == s[k + i];
    forall e ensures e in tail <==> e in rest { TailMembers(s, k, e); }
    AscendingIsSorted(tail, rest);
  }

  lemma TailMembers(s: seq<Event>, k: nat, e: Event)
    requires Ascending(s) && k <= |s|
    ensures e in s[k..] <==> e in s && e !in s[..k]
  {
    var tail := s[k..];
    if e in tail {
      var i :| 0 <= i < |tail| && tail[i] == e;
      assert s[k + i] == e;
      PrefixApart(s, k, k + i);
    }
    if e in s && e !in s[..k] {
      var j :| 0 <= j < |s| && s[j] == e;
      InPrefix(s, k, j);
      assert tail[j - k] == e;
    }
  }

  /** Rows after the first `k` are greater than each of them. */
  lemma LaterRowsGreater(events: set<Event>, k: nat, e: Event)
    requires 0 < k <= |events| && e in events && e !in Sorted(events)[..k]
    ensures Less(Sorted(events)[k - 1], e)
  {
    SortedIsSorted(events);
    var s := Sorted(events);
    var j :| 0 <= j < |s| && s[j] == e;
    InPrefix(s, k, j);
  }
}
