/** getEventRegistrationStats: the store groups an event's registrations by
    status; the service folds the groups into a per-status map and a total. */
module EventStats {

  import opened Wrappers
  import opened Store
  import EventService

  /** One row of the store's `groupBy(['status'])` answer. */
  datatype Group = Group(status: string, count: nat)

  datatype Stats = Stats(eventId: string, totalRegistrations: nat, byStatus: map<string, nat>)

  /** The first `reduce`: each group's count stored under its status. */
  function ByStatus(groups: seq<Group>): map<string, nat>
    decreases |groups|
  {
    if groups == [] then map[]
    else
      var last := groups[|groups| - 1];
      ByStatus(groups[..|groups| - 1])[last.status := last.count]
  }

  /** The second `reduce`: the sum of the counts. */
  function Total(groups: seq<Group>): nat
    decreases |groups|
  {
    if groups == [] then 0 else Total(groups[..|groups| - 1]) + groups[|groups| - 1].count
  }

  /** The registrations with a given status. */
  function CountStatus(rs: seq<Registration>, s: string): nat {
    if rs == [] then 0 else (if rs[0].status == s then 1 else 0) + CountStatus(rs[1..], s)
  }

  /** The registrations with any other status. */
  function Without(rs: seq<Registration>, s: string): (r: seq<Registration>)
    ensures |rs| == CountStatus(rs, s) + |r|
    ensures forall i :: 0 <= i < |r| ==> r[i] in rs && r[i].status != s
    ensures forall t :: t != s ==> CountStatus(r, t) == CountStatus(rs, t)
  {
    if rs == [] then []
    else
      var tail := Without(rs[1..], s);
      if rs[0].status == s then tail
      else assert ([rs[0]] + tail)[1..] == tail; [rs[0]] + tail
  }

  /** What the store's grouping promises about the registrations `rs` of
      the event: one group per status present, none twice, each with the
      number of registrations in that status. */
  predicate IsGrouping(groups: seq<Group>, rs: seq<Registration>) {
    && (forall i, j :: 0 <= i < j < |groups| ==> groups[i].status != groups[j].status)
    && (forall i :: 0 <= i < |groups| ==> groups[i].count == CountStatus(rs, groups[i].status) && groups[i].count > 0)
    && (forall k :: 0 <= k < |rs| ==> exists j :: 0 <= j < |groups| && groups[j].status == rs[k].status)
  }

  /** With distinct statuses, every group appears in the map with its own
      count, and the map has no other key. */
  lemma {:induction false} ByStatusSpec(groups: seq<Group>)
    requires forall i, j :: 0 <= i < j < |groups| ==> groups[i].status != groups[j].status
    ensures forall i :: 0 <= i < |groups| ==> groups[i].status in ByStatus(groups) && ByStatus(groups)[groups[i].status] == groups[i].count
    ensures forall s :: s in ByStatus(groups) ==> exists i :: 0 <= i < |groups| && groups[i].status == s
    decreases |groups|
  {
    if groups != [] {
      var init := groups[..|groups| - 1];
      ByStatusSpec(init);
      forall s | s in ByStatus(groups)
        ensures exists i :: 0 <= i < |groups| && groups[i].status == s
      {
        if s != groups[|groups| - 1].status {
          var i :| 0 <= i < |init| && init[i].status == s;
          assert groups[i].status == s;
        }
      }
    }
  }

  /** The total is the number of the event's registrations. */
  lemma {:induction false} TotalCountsAll(groups: seq<Group>, rs: seq<Registration>)
    requires IsGrouping(groups, rs)
    ensures Total(groups) == |rs|
    decreases |groups|
  {
    if groups == [] {
      if rs != [] {
        assert false;
      }
    } else {
      var g := groups[|groups| - 1];
      var init := groups[..|groups| - 1];
      var rest := Without(rs, g.status);
      forall k | 0 <= k < |rest|
        ensures exists j :: 0 <= j < |init| && init[j].status == rest[k].status
      {
        var x := rest[k];
        var m :| 0 <= m < |rs| && rs[m] == x;
        var j :| 0 <= j < |groups| && groups[j].status == rs[m].status;
        assert j < |init| && init[j] == groups[j];
      }
      forall i | 0 <= i < |init|
        ensures init[i].count == CountStatus(rest, init[i].status) && init[i].count > 0
      {
        assert init[i] == groups[i];
        assert groups[i].status != g.status;
      }
      assert IsGrouping(init, rest);
      TotalCountsAll(init, rest);
    }
  }

  /** The per-status map holds, for every status present, the number of
      registrations in it, and no other status. */
  lemma ByStatusCounts(groups: seq<Group>, rs: seq<Registration>)
    requires IsGrouping(groups, rs)
    ensures forall s :: s in ByStatus(groups) <==> exists k :: 0 <= k < |rs| && rs[k].status == s
    ensures forall s :: s in ByStatus(groups) ==> ByStatus(groups)[s] == CountStatus(rs, s)
  {
    ByStatusSpec(groups);
    forall s | s in ByStatus(groups)
      ensures exists k :: 0 <= k < |rs| && rs[k].status == s
    {
      var i :| 0 <= i < |groups| && groups[i].status == s;
      CountPositive(rs, s);
    }
  }

  lemma {:induction false} CountPositive(rs: seq<Registration>, s: string)
    requires CountStatus(rs, s) > 0
    ensures exists k :: 0 <= k < |rs| && rs[k].status == s
  {
    if rs[0].status != s {
      CountPositive(rs[1..], s);
      var k :| 0 <= k < |rs[1..]| && rs[1..][k].status == s;
      assert rs[k + 1].status == s;
    }
  }

  /** getEventRegistrationStats: 404 unless the caller created the event;
      otherwise the folded groups. */
  function GetEventRegistrationStats(events: map<string, Event>, eventId: string, creatorId: string, grouped: seq<Group>)
    : (r: Result<Stats>)
    ensures r.Fail? <==> !EventService.Owns(events, eventId, creatorId)
    ensures r.Fail? ==> r.error == EventService.EventNotFound
    ensures r.Ok? ==> r.value.eventId == eventId
  {
    if !EventService.Owns(events, eventId, creatorId) then Fail(EventService.EventNotFound)
    else Ok(Stats(eventId, Total(grouped), ByStatus(grouped)))
  }

  /** For a grouping of the event's registrations, the stats count every
      registration once, under its own status. `rs` stands for the rows the
      `groupBy` over `where: { eventId }` reads: the registrations in the
      store carrying that event id, in any order. */
  lemma StatsSummarise(events: map<string, Event>, eventId: string, creatorId: string, grouped: seq<Group>, rs: seq<Registration>)
    requires EventService.Owns(events, eventId, creatorId)
    requires IsGrouping(grouped, rs)
    ensures var st := GetEventRegistrationStats(events, eventId, creatorId, grouped).value;
      && st.totalRegistrations == |rs|
      && (forall s :: s in st.byStatus <==> exists k :: 0 <= k < |rs| && rs[k].status == s)
      && (forall s :: s in st.byStatus ==> st.byStatus[s] == CountStatus(rs, s))
  {
    TotalCountsAll(grouped, rs);
    ByStatusCounts(grouped, rs);
  }
}
