/**
 * The periodic sweep: it walks the directory status by status and page by page, and reconciles each
 * user in a transaction of their own.
 */
module RoleSweep {
  import opened Common
  import opened Evaluator
  import opened Reconciler

  const ALL_USER_STATUSES := ["pending", "active", "suspended", "deactivated"]
  const PAGE_SIZE: nat := 200

  datatype Refusal = Refusal(userId: UserId, roleId: RoleId, roleName: string, reason: Reason)

  datatype Report = Report(scanned: nat, changed: nat, refusals: seq<Refusal>, skipped: seq<UserId>)

  /** The users with one status, in username order: what the paged listing walks. */
  function WithStatus(w: World, order: seq<UserId>, status: string): (ids: seq<UserId>)
    ensures forall u :: u in ids <==> u in order && u in w.people && w.people[u].user.status == status
  {
    if order == [] then []
    else
      (if order[0] in w.people && w.people[order[0]].user.status == status then [order[0]] else [])
      + WithStatus(w, order[1..], status)
  }

  ghost predicate Distinct(ids: seq<UserId>) {
    forall i, j | 0 <= i < j < |ids| :: ids[i] != ids[j]
  }

  /** `order` lists every user once, and every user has one of the four statuses. */
  ghost predicate WellListed(w: World, order: seq<UserId>) {
    && Distinct(order)
    && (forall u :: u in order <==> u in w.people)
    && (forall u | u in w.people :: w.people[u].user.status in ALL_USER_STATUSES)
  }

  lemma {:induction false} WithStatusDistinct(w: World, order: seq<UserId>, status: string)
    requires Distinct(order)
    ensures Distinct(WithStatus(w, order, status))
  {
    if order != [] {
      WithStatusDistinct(w, order[1..], status);
      var rest := WithStatus(w, order[1..], status);
      forall i | 0 <= i < |rest| ensures rest[i] != order[0] {
        assert rest[i] in order[1..];
      }
    }
  }

  /** One user visited, with the outcome of their pass. */
  datatype Entry = Entry(userId: UserId, outcome: Outcome)

  /** The report after one more outcome: nothing an outcome says stops the count of the others. */
  function Noted(report: Report, userId: UserId, o: Outcome): Report {
    match o
    case NotFound(_) => report.(scanned := report.scanned + 1, skipped := report.skipped + [userId])
    case Refused(roleId, roleName, reason) =>
      report.(scanned := report.scanned + 1,
              refusals := report.refusals + [Refusal(userId, roleId, roleName, reason)])
    case Applied(_, _, _, _) =>
      report.(scanned := report.scanned + 1, changed := report.changed + if WritesSomething(o) then 1 else 0)
  }

  function ReportOf(log: seq<Entry>): Report {
    if log == [] then Report(0, 0, [], [])
    else Noted(ReportOf(log[..|log| - 1]), log[|log| - 1].userId, log[|log| - 1].outcome)
  }

  /** A sweep reports exactly the refusals and the skipped users of its log. */
  lemma {:induction false} ReportNamesEveryRefusal(log: seq<Entry>)
    ensures ReportOf(log).scanned == |log|
    ensures forall u :: u in ReportOf(log).skipped <==> exists e :: e in log && e.userId == u && e.outcome.NotFound?
    ensures forall r :: r in ReportOf(log).refusals <==>
      Entry(r.userId, Refused(r.roleId, r.roleName, r.reason)) in log
  {
    if log != [] {
      var most, last := log[..|log| - 1], log[|log| - 1];
      ReportNamesEveryRefusal(most);
      assert forall e :: e in log <==> e in most || e == last;
    }
  }

  ghost function Ids(log: seq<Entry>): seq<UserId> {
    seq(|log|, i requires 0 <= i < |log| => log[i].userId)
  }

  /** The user's rows went from `before` to `after` by one pass of their own. */
  ghost predicate PassedOnce(
    w: World, now: int, before: map<UserId, PersonRows>, after: map<UserId, PersonRows>, e: Entry)
  {
    IsPass(w, e.userId, None, now, RowsIn(before, e.userId), e.outcome, RowsIn(after, e.userId))
  }

  /** Where a sweep stands: everybody in the log is there once and has had one pass of their own over
      the rows they started with, and nobody else's rows have moved. */
  ghost predicate Swept(
    w: World, now: int, before: map<UserId, PersonRows>, after: map<UserId, PersonRows>, log: seq<Entry>)
  {
    && Distinct(Ids(log))
    && (forall i {:trigger PassedOnce(w, now, before, after, log[i])} | 0 <= i < |log| ::
          PassedOnce(w, now, before, after, log[i]))
    && (forall u | u !in Ids(log) :: RowsIn(after, u) == RowsIn(before, u))
  }

  /** One more pass extends the log. */
  lemma SweptOneMore(
    w: World, now: int, before: map<UserId, PersonRows>, mid: map<UserId, PersonRows>, after: map<UserId, PersonRows>,
    log: seq<Entry>, e: Entry)
    requires Swept(w, now, before, mid, log) && e.userId !in Ids(log)
    requires PassedOnce(w, now, mid, after, e)
    requires forall u | u != e.userId :: RowsIn(after, u) == RowsIn(mid, u)
    ensures Swept(w, now, before, after, log + [e])
  {
    var more := log + [e];
    assert Ids(more) == Ids(log) + [e.userId];
    forall i | 0 <= i < |more| ensures PassedOnce(w, now, before, after, more[i]) {
      if i < |log| {
        assert PassedOnce(w, now, before, mid, log[i]);
        assert Ids(log)[i] == log[i].userId;
      }
    }
  }

  lemma DistinctTail(done: seq<UserId>, tail: seq<UserId>)
    requires Distinct(done + tail)
    ensures Distinct(done) && Distinct(tail) && forall i | 0 <= i < |tail| :: tail[i] !in done
  {
    var all := done + tail;
    forall i, j | 0 <= i < |done| && 0 <= j < |tail| ensures done[i] != tail[j] {
      assert all[i] == done[i] && all[|done| + j] == tail[j];
    }
    forall i, j | 0 <= i < j < |tail| ensures tail[i] != tail[j] {
      assert all[|done| + i] == tail[i] && all[|done| + j] == tail[j];
    }
    forall i, j | 0 <= i < j < |done| ensures done[i] != done[j] {
      assert all[i] == done[i] && all[j] == done[j];
    }
  }

  /** One user, one transaction; a refusal or a missing row is noted and the sweep goes on. */
  method Visit(store: Store, userId: UserId, now: int, start: Report,
               ghost before: map<UserId, PersonRows>, ghost log: seq<Entry>)
    returns (report: Report, ghost e: Entry)
    requires Swept(store.world, now, before, store.rows, log) && userId !in Ids(log) && start == ReportOf(log)
    modifies store
    ensures Swept(store.world, now, before, store.rows, log + [e]) && report == ReportOf(log + [e])
    ensures e.userId == userId
  {
    ghost var mid := store.rows;
    var outcome := store.ReconcileUser(userId, None, now);
    e := Entry(userId, outcome);
    forall u | u != userId ensures RowsIn(store.rows, u) == RowsIn(mid, u) {
      assert store.RowsOf(u) == RowsIn(mid, u);
    }
    assert PassedOnce(store.world, now, mid, store.rows, e);
    SweptOneMore(store.world, now, before, mid, store.rows, log, e);
    assert (log + [e])[..|log|] == log;
    report := Noted(start, userId, outcome);
  }

  /** Visits the users of one page in turn. */
  method SweepPage(store: Store, page: seq<UserId>, now: int, start: Report,
                   ghost before: map<UserId, PersonRows>, ghost log: seq<Entry>)
    returns (report: Report, ghost more: seq<Entry>)
    requires Distinct(Ids(log) + page) && Swept(store.world, now, before, store.rows, log) && start == ReportOf(log)
    modifies store
    ensures Swept(store.world, now, before, store.rows, more) && report == ReportOf(more)
    ensures Ids(more) == Ids(log) + page
  {
    report, more := start, log;
    for i := 0 to |page|
      invariant Swept(store.world, now, before, store.rows, more) && report == ReportOf(more)
      invariant Ids(more) == Ids(log) + page[..i]
    {
      assert Ids(log) + page == Ids(more) + page[i..];
      DistinctTail(Ids(more), page[i..]);
      assert page[i..][0] == page[i];
      ghost var e;
      report, e := Visit(store, page[i], now, report, before, more);
      assert Ids(more + [e]) == Ids(more) + [e.userId];
      more := more + [e];
    }
  }

  /** The listings of the first `n` statuses, one after the other. */
  ghost function Listed(w: World, order: seq<UserId>, n: nat): seq<UserId>
    requires n <= |ALL_USER_STATUSES|
  {
    if n == 0 then [] else Listed(w, order, n - 1) + WithStatus(w, order, ALL_USER_STATUSES[n - 1])
  }

  lemma {:induction false} ListedHas(w: World, order: seq<UserId>, n: nat, u: UserId)
    requires n <= |ALL_USER_STATUSES| && WellListed(w, order)
    ensures u in Listed(w, order, n) <==> u in w.people && w.people[u].user.status in ALL_USER_STATUSES[..n]
  {
    if n > 0 {
      ListedHas(w, order, n - 1, u);
      assert ALL_USER_STATUSES[..n] == ALL_USER_STATUSES[..n - 1] + [ALL_USER_STATUSES[n - 1]];
    }
  }

  lemma StatusesDistinct(n: nat)
    requires n < |ALL_USER_STATUSES|
    ensures ALL_USER_STATUSES[n] !in ALL_USER_STATUSES[..n]
  {
    assert "pending"[0] == 'p' && "active"[0] == 'a' && "suspended"[0] == 's' && "deactivated"[0] == 'd';
  }

  lemma {:induction false} ListedDistinct(w: World, order: seq<UserId>, n: nat)
    requires n <= |ALL_USER_STATUSES| && WellListed(w, order)
    ensures Distinct(Listed(w, order, n))
  {
    if n > 0 {
      ListedDistinct(w, order, n - 1);
      WithStatusDistinct(w, order, ALL_USER_STATUSES[n - 1]);
      StatusesDistinct(n - 1);
      var before, page := Listed(w, order, n - 1), WithStatus(w, order, ALL_USER_STATUSES[n - 1]);
      forall i, j | 0 <= i < |before| && 0 <= j < |page| ensures before[i] != page[j] {
        assert before[i] in before && page[j] in page;
        ListedHas(w, order, n - 1, before[i]);
      }
    }
  }

  /** All the pages of one status. */
  method SweepStatus(store: Store, users: seq<UserId>, now: int, start: Report,
                     ghost before: map<UserId, PersonRows>, ghost log: seq<Entry>)
    returns (report: Report, ghost more: seq<Entry>)
    requires Distinct(Ids(log) + users) && Swept(store.world, now, before, store.rows, log) && start == ReportOf(log)
    modifies store
    ensures Swept(store.world, now, before, store.rows, more) && report == ReportOf(more)
    ensures Ids(more) == Ids(log) + users
  {
    report, more := start, log;
    var offset := 0;
    while true
      invariant offset <= |users|
      invariant Swept(store.world, now, before, store.rows, more) && report == ReportOf(more)
      invariant Ids(more) == Ids(log) + users[..offset]
      decreases |users| - offset
    {
      var page := Page(users, PAGE_SIZE, offset);
      if page == [] {
        break;
      }
      assert users[..offset] + page == users[..offset + |page|];
      assert Ids(log) + users == (Ids(more) + page) + users[offset + |page|..];
      DistinctTail(Ids(more) + page, users[offset + |page|..]);
      report, more := SweepPage(store, page, now, report, before, more);
      if |page| < PAGE_SIZE {
        offset := offset + |page|;
        break;
      }
      offset := offset + PAGE_SIZE;
    }
    assert users[..offset] == users;
  }

  /** The whole sweep gives every user of the directory exactly one pass, whatever the page boundaries
      and whatever the others' outcomes. */
  method Sweep(store: Store, now: int) returns (report: Report, ghost log: seq<Entry>)
    requires WellListed(store.world, store.order)
    modifies store
    ensures Swept(store.world, now, old(store.rows), store.rows, log) && report == ReportOf(log)
    ensures forall u :: u in Ids(log) <==> u in store.world.people
    ensures report.scanned == |store.order|
  {
    ghost var before := store.rows;
    report, log := Report(0, 0, [], []), [];
    for n := 0 to |ALL_USER_STATUSES|
      invariant Swept(store.world, now, before, store.rows, log) && report == ReportOf(log)
      invariant Ids(log) == Listed(store.world, store.order, n)
    {
      ListedDistinct(store.world, store.order, n + 1);
      var users := WithStatus(store.world, store.order, ALL_USER_STATUSES[n]);
      report, log := SweepStatus(store, users, now, report, before, log);
    }
    EverybodyOnce(store.world, store.order, log);
    ReportNamesEveryRefusal(log);
  }

  lemma EverybodyOnce(w: World, order: seq<UserId>, log: seq<Entry>)
    requires WellListed(w, order) && Ids(log) == Listed(w, order, |ALL_USER_STATUSES|)
    ensures forall u :: u in Ids(log) <==> u in w.people
    ensures |log| == |order|
  {
    assert ALL_USER_STATUSES[..|ALL_USER_STATUSES|] == ALL_USER_STATUSES;
    forall u ensures u in Ids(log) <==> u in w.people {
      ListedHas(w, order, |ALL_USER_STATUSES|, u);
    }
    ListedDistinct(w, order, |ALL_USER_STATUSES|);
    CountDistinct(Ids(log));
    CountDistinct(order);
    assert (set u | u in Ids(log)) == (set u | u in order);
  }

  lemma {:induction false} CountDistinct(a: seq<UserId>)
    requires Distinct(a)
    ensures |set u | u in a| == |a|
  {
    if a != [] {
      CountDistinct(a[1..]);
      assert (set u | u in a) == {a[0]} + set u | u in a[1..];
    }
  }
}
