/**
 * The walk over everybody who carries an attribute, a page at a time. Each page is a query of its own, so
 * what others commit in between is seen by the later pages.
 */
module MigrationWalk {
  import opened Common

  type UserId = string
  type Key = string

  const PAGE_SIZE: nat := 200

  datatype Holder = Holder(userId: UserId, value: Json)

  datatype Row = Row(id: UserId, attributes: map<Key, Json>)

  /** The users table in the order of its primary key. */
  ghost predicate InIdOrder(rank: UserId -> int, table: seq<Row>) {
    forall i, j | 0 <= i < j < |table| :: rank(table[i].id) < rank(table[j].id)
  }

  /** A row, if it carries the key and follows `after`. */
  function MatchingRow(rank: UserId -> int, row: Row, key: Key, after: Option<UserId>): seq<Holder> {
    if key in row.attributes && (after.None? || rank(row.id) > rank(after.value))
    then [Holder(row.id, row.attributes[key])] else []
  }

  /** The rows a page query selects before its LIMIT: those that carry the key and follow `after`. */
  function Matching(rank: UserId -> int, table: seq<Row>, key: Key, after: Option<UserId>): seq<Holder> {
    if table == [] then [] else MatchingRow(rank, table[0], key, after) + Matching(rank, table[1..], key, after)
  }

  /** Every holder, in id order. */
  function Holders(table: seq<Row>, key: Key): seq<Holder> {
    if table == [] then []
    else
      (if key in table[0].attributes then [Holder(table[0].id, table[0].attributes[key])] else [])
      + Holders(table[1..], key)
  }

  lemma {:induction false} NobodySkipped(rank: UserId -> int, table: seq<Row>, key: Key, after: Option<UserId>)
    requires forall r | r in table :: after.None? || rank(r.id) > rank(after.value)
    ensures Matching(rank, table, key, after) == Holders(table, key)
  {
    if table != [] {
      NobodySkipped(rank, table[1..], key, after);
    }
  }

  lemma TailInOrder(rank: UserId -> int, table: seq<Row>)
    requires InIdOrder(rank, table) && table != []
    ensures InIdOrder(rank, table[1..]) && forall r | r in table[1..] :: rank(table[0].id) < rank(r.id)
  {
  }

  lemma {:induction false} LaterThan(rank: UserId -> int, table: seq<Row>, key: Key, after: Option<UserId>, low: UserId)
    requires forall r | r in table :: rank(low) < rank(r.id)
    ensures forall h | h in Matching(rank, table, key, after) :: rank(low) < rank(h.userId)
  {
    if table != [] {
      LaterThan(rank, table[1..], key, after, low);
    }
  }

  lemma BehindFirst(here: seq<Holder>, rest: seq<Holder>, k: nat)
    requires |here| < k <= |here| + |rest|
    ensures (here + rest)[k - 1] == rest[k - |here| - 1] && (here + rest)[k..] == rest[k - |here|..]
  {
  }

  lemma AnyTailResumes(rank: UserId -> int, table: seq<Row>, key: Key, after: Option<UserId>)
    requires InIdOrder(rank, table) && table != [] && MatchingRow(rank, table[0], key, after) != []
    ensures Matching(rank, table[1..], key, Some(table[0].id)) == Matching(rank, table[1..], key, after)
  {
    TailInOrder(rank, table);
    NobodySkipped(rank, table[1..], key, after);
    NobodySkipped(rank, table[1..], key, Some(table[0].id));
  }

  /** A query that resumes at a later row starts with the tail of the table. */
  lemma HeadIsBehind(rank: UserId -> int, table: seq<Row>, key: Key, h: Holder, after: Option<UserId>)
    requires InIdOrder(rank, table) && table != [] && h in Matching(rank, table[1..], key, after)
    ensures Matching(rank, table, key, Some(h.userId)) == Matching(rank, table[1..], key, Some(h.userId))
  {
    TailInOrder(rank, table);
    LaterThan(rank, table[1..], key, after, table[0].id);
    assert MatchingRow(rank, table[0], key, Some(h.userId)) == [];
  }

  /** Asking for what follows the `k`-th match gives the matches after it. */
  lemma {:induction false} KeysetResumes(
    rank: UserId -> int, table: seq<Row>, key: Key, after: Option<UserId>, k: nat)
    requires InIdOrder(rank, table) && 0 < k <= |Matching(rank, table, key, after)|
    ensures var m := Matching(rank, table, key, after);
      Matching(rank, table, key, Some(m[k - 1].userId)) == m[k..]
  {
    var here, rest := MatchingRow(rank, table[0], key, after), Matching(rank, table[1..], key, after);
    if here != [] && k == 1 {
      AnyTailResumes(rank, table, key, after);
      assert (here + rest)[1..] == rest;
    } else {
      var j := k - |here|;
      TailInOrder(rank, table);
      KeysetResumes(rank, table[1..], key, after, j);
      BehindFirst(here, rest, k);
      HeadIsBehind(rank, table, key, rest[j - 1], after);
    }
  }

  // ---------------------------------------------------------------- pages

  /** LIMIT. */
  function FirstRows(rows: seq<Holder>, limit: nat): (page: seq<Holder>)
    ensures page <= rows && |page| <= limit && (|page| < limit ==> page == rows)
  {
    if |rows| <= limit then rows else rows[..limit]
  }

  /** What the `n`-th page query selects before its LIMIT, given the last id of the page before. */
  type Query = (nat, Option<UserId>) -> seq<Holder>

  predicate Follows(rank: UserId -> int, after: Option<UserId>, h: Holder) {
    after.Some? ==> rank(h.userId) > rank(after.value)
  }

  ghost predicate Ascend(rank: UserId -> int, holders: seq<Holder>) {
    forall i, j | 0 <= i < j < |holders| :: rank(holders[i].userId) < rank(holders[j].userId)
  }

  /** After a full page the next query selects fewer rows. */
  ghost predicate Shrinks(q: Query, pageSize: nat, n: nat, after: Option<UserId>)
    requires pageSize > 0
  {
    |q(n, after)| >= pageSize ==> |q(n + 1, Some(q(n, after)[pageSize - 1].userId))| < |q(n, after)|
  }

  ghost predicate Answer(rank: UserId -> int, after: Option<UserId>, rows: seq<Holder>) {
    Ascend(rank, rows) && forall h | h in rows :: Follows(rank, after, h)
  }

  /** The queries answer in id order with what follows; from the `quiet`-th on nobody writes any more. */
  ghost predicate Paged(rank: UserId -> int, q: Query, quiet: nat, pageSize: nat) {
    && pageSize > 0
    && (forall n, after {:trigger q(n, after)} :: Answer(rank, after, q(n, after)))
    && (forall n: nat, after {:trigger Shrinks(q, pageSize, n, after)} | n >= quiet :: Shrinks(q, pageSize, n, after))
  }

  /** What a walk yields from its `n`-th page on: the page, and what follows its last id on the later ones. */
  ghost function Walked(rank: UserId -> int, q: Query, quiet: nat, pageSize: nat, n: nat, after: Option<UserId>)
    : seq<Holder>
    requires Paged(rank, q, quiet, pageSize)
    decreases if n < quiet then quiet - n else 0, |q(n, after)|
  {
    var page := FirstRows(q(n, after), pageSize);
    if |page| < pageSize then page
    else
      assert Shrinks(q, pageSize, n, after) || n < quiet;
      page + Walked(rank, q, quiet, pageSize, n + 1, Some(page[|page| - 1].userId))
  }

  /** One page of a walk: it comes first, and after a full one there is less to come. */
  lemma OnePage(rank: UserId -> int, q: Query, quiet: nat, pageSize: nat, n: nat, after: Option<UserId>)
    returns (rest: seq<Holder>)
    requires Paged(rank, q, quiet, pageSize)
    ensures Walked(rank, q, quiet, pageSize, n, after) == FirstRows(q(n, after), pageSize) + rest
    ensures |q(n, after)| < pageSize ==> rest == []
    ensures |q(n, after)| >= pageSize ==>
      var next := Some(q(n, after)[pageSize - 1].userId);
      rest == Walked(rank, q, quiet, pageSize, n + 1, next) && (n < quiet || |q(n + 1, next)| < |q(n, after)|)
  {
    assert Shrinks(q, pageSize, n, after) || n < quiet;
    var rows := q(n, after);
    if |rows| >= pageSize {
      rest := Walked(rank, q, quiet, pageSize, n + 1, Some(rows[pageSize - 1].userId));
      assert FirstRows(rows, pageSize)[pageSize - 1] == rows[pageSize - 1];
    } else {
      rest := [];
    }
  }

  /** Reads one page; `next` is its last id if the page was full. */
  method TakePage(
    ghost rank: UserId -> int, q: Query, ghost quiet: nat, pageSize: nat, n: nat, lastId: Option<UserId>, holders: seq<Holder>)
    returns (collected: seq<Holder>, next: Option<UserId>)
    requires Paged(rank, q, quiet, pageSize)
    ensures next.None? ==> collected == holders + Walked(rank, q, quiet, pageSize, n, lastId)
    ensures next.Some? ==>
      && collected + Walked(rank, q, quiet, pageSize, n + 1, next) == holders + Walked(rank, q, quiet, pageSize, n, lastId)
      && (n < quiet || |q(n + 1, next)| < |q(n, lastId)|)
  {
    ghost var rest := OnePage(rank, q, quiet, pageSize, n, lastId);
    var page := FirstRows(q(n, lastId), pageSize);
    Regroup(holders, page, rest);
    collected := holders + page;
    next := if |page| < pageSize then None else Some(page[|page| - 1].userId);
  }

  /** The keyset walk: each page resumes behind the last id of the one before, until a page is short. */
  method WalkHolders(ghost rank: UserId -> int, q: Query, ghost quiet: nat, pageSize: nat) returns (holders: seq<Holder>)
    requires Paged(rank, q, quiet, pageSize)
    ensures holders == Walked(rank, q, quiet, pageSize, 0, None)
  {
    holders := [];
    var lastId: Option<UserId> := None;
    var n: nat := 0;
    while true
      invariant holders + Walked(rank, q, quiet, pageSize, n, lastId) == Walked(rank, q, quiet, pageSize, 0, None)
      decreases if n < quiet then quiet - n else 0, |q(n, lastId)|
    {
      var next;
      holders, next := TakePage(rank, q, quiet, pageSize, n, lastId, holders);
      if next.None? {
        return;
      }
      lastId, n := next, n + 1;
    }
  }

  lemma Regroup<T>(a: seq<T>, b: seq<T>, c: seq<T>)
    ensures a + (b + c) == (a + b) + c
  {
  }

  /** Whatever changes while the walk goes on, ids ascend, so nobody is yielded twice. */
  lemma {:induction false} WalkAscends(
    rank: UserId -> int, q: Query, quiet: nat, pageSize: nat, n: nat, after: Option<UserId>)
    requires Paged(rank, q, quiet, pageSize)
    ensures Answer(rank, after, Walked(rank, q, quiet, pageSize, n, after))
    decreases if n < quiet then quiet - n else 0, |q(n, after)|
  {
    var page := FirstRows(q(n, after), pageSize);
    PageAnswers(rank, after, q(n, after), pageSize);
    if |page| >= pageSize {
      assert Shrinks(q, pageSize, n, after) || n < quiet;
      var last := page[|page| - 1].userId;
      WalkAscends(rank, q, quiet, pageSize, n + 1, Some(last));
      AnswersConcat(rank, after, page, Walked(rank, q, quiet, pageSize, n + 1, Some(last)));
    }
  }

  /** After a full page the next query selects exactly the rest. */
  ghost predicate Continues(q: Query, pageSize: nat, n: nat, after: Option<UserId>)
    requires pageSize > 0
  {
    |q(n, after)| >= pageSize ==> q(n + 1, Some(q(n, after)[pageSize - 1].userId)) == q(n, after)[pageSize..]
  }

  lemma {:induction false} WalkOfContinuing(
    rank: UserId -> int, q: Query, quiet: nat, pageSize: nat, n: nat, after: Option<UserId>)
    requires Paged(rank, q, quiet, pageSize)
    requires forall m: nat, resumed {:trigger Continues(q, pageSize, m, resumed)} :: Continues(q, pageSize, m, resumed)
    ensures Walked(rank, q, quiet, pageSize, n, after) == q(n, after)
    decreases |q(n, after)|
  {
    var rows := q(n, after);
    var rest := OnePage(rank, q, quiet, pageSize, n, after);
    assert Continues(q, pageSize, n, after);
    if |rows| >= pageSize {
      WalkOfContinuing(rank, q, quiet, pageSize, n + 1, Some(rows[pageSize - 1].userId));
      PageAndRest(rows, pageSize);
    }
  }

  lemma PageAndRest(rows: seq<Holder>, limit: nat)
    requires |rows| >= limit
    ensures FirstRows(rows, limit) + rows[limit..] == rows
  {
  }

  lemma PageAnswers(rank: UserId -> int, after: Option<UserId>, rows: seq<Holder>, pageSize: nat)
    requires Answer(rank, after, rows)
    ensures Answer(rank, after, FirstRows(rows, pageSize))
  {
    var page := FirstRows(rows, pageSize);
    assert forall h | h in page :: h in rows;
  }

  lemma AnswersConcat(rank: UserId -> int, after: Option<UserId>, page: seq<Holder>, rest: seq<Holder>)
    requires page != [] && Answer(rank, after, page) && Answer(rank, Some(page[|page| - 1].userId), rest)
    ensures Answer(rank, after, page + rest)
  {
    var last := page[|page| - 1];
    assert last in page;
    forall i, j | 0 <= i < j < |page + rest| ensures rank((page + rest)[i].userId) < rank((page + rest)[j].userId) {
      if i < |page| <= j {
        assert rest[j - |page|] in rest;
        assert rank(page[i].userId) <= rank(last.userId);
      }
    }
  }

  /** And everybody who is yielded was in the answer to some query. */
  lemma {:induction false} WalkSawRow(
    rank: UserId -> int, q: Query, quiet: nat, pageSize: nat, n: nat, after: Option<UserId>, h: Holder)
    returns (m: nat, resumed: Option<UserId>)
    requires Paged(rank, q, quiet, pageSize) && h in Walked(rank, q, quiet, pageSize, n, after)
    ensures m >= n && h in q(m, resumed)
    decreases if n < quiet then quiet - n else 0, |q(n, after)|
  {
    var page := FirstRows(q(n, after), pageSize);
    if h in page {
      m, resumed := n, after;
    } else {
      assert Shrinks(q, pageSize, n, after) || n < quiet;
      m, resumed := WalkSawRow(rank, q, quiet, pageSize, n + 1, Some(page[|page| - 1].userId), h);
    }
  }

  predicate Selects(rank: UserId -> int, q: Query, h: Holder, n: nat, after: Option<UserId>) {
    Follows(rank, after, h) ==> h in q(n, after)
  }

  /** Somebody whom every query selects that resumes before them is yielded, whatever happens to others. */
  lemma {:induction false} WalkSeesTheSteady(
    rank: UserId -> int, q: Query, quiet: nat, pageSize: nat, n: nat, after: Option<UserId>, h: Holder)
    requires Paged(rank, q, quiet, pageSize) && Follows(rank, after, h)
    requires forall m: nat, resumed {:trigger Selects(rank, q, h, m, resumed)} :: Selects(rank, q, h, m, resumed)
    ensures h in Walked(rank, q, quiet, pageSize, n, after)
    decreases if n < quiet then quiet - n else 0, |q(n, after)|
  {
    var page := FirstRows(q(n, after), pageSize);
    assert Selects(rank, q, h, n, after);
    if h !in page {
      BehindThePage(rank, after, q(n, after), pageSize, h);
      assert Shrinks(q, pageSize, n, after) || n < quiet;
      WalkSeesTheSteady(rank, q, quiet, pageSize, n + 1, Some(page[|page| - 1].userId), h);
    }
  }

  lemma BehindThePage(rank: UserId -> int, after: Option<UserId>, rows: seq<Holder>, pageSize: nat, h: Holder)
    requires Answer(rank, after, rows) && pageSize > 0 && h in rows && h !in FirstRows(rows, pageSize)
    ensures |FirstRows(rows, pageSize)| == pageSize && Follows(rank, Some(rows[pageSize - 1].userId), h)
  {
    var i :| 0 <= i < |rows| && rows[i] == h;
    assert forall k | 0 <= k < |FirstRows(rows, pageSize)| :: FirstRows(rows, pageSize)[k] == rows[k];
  }

  // ---------------------------------------------------------------- over tables that change

  /** What the `n`-th page query sees. Each page is a statement of its own and sees what others have
      committed by then; `views` lists the tables seen until nothing changes any more. */
  function View(views: seq<seq<Row>>, n: nat): seq<Row> {
    if views == [] then [] else if n < |views| then views[n] else views[|views| - 1]
  }

  ghost predicate AllInIdOrder(rank: UserId -> int, views: seq<seq<Row>>) {
    forall n | 0 <= n < |views| :: InIdOrder(rank, views[n])
  }

  function Queries(rank: UserId -> int, views: seq<seq<Row>>, key: Key): Query {
    (n: nat, after: Option<UserId>) => Matching(rank, View(views, n), key, after)
  }

  lemma {:induction false} MatchingMeaning(rank: UserId -> int, table: seq<Row>, key: Key, after: Option<UserId>)
    requires InIdOrder(rank, table)
    ensures var hs := Matching(rank, table, key, after);
      && (forall i, j | 0 <= i < j < |hs| :: rank(hs[i].userId) < rank(hs[j].userId))
      && (forall h :: h in hs <==> (after.Some? ==> rank(h.userId) > rank(after.value)) && HasRow(table, key, h))
  {
    if table != [] {
      var rest := Matching(rank, table[1..], key, after);
      TailInOrder(rank, table);
      MatchingMeaning(rank, table[1..], key, after);
      LaterThan(rank, table[1..], key, after, table[0].id);
      assert forall r :: r in table <==> r == table[0] || r in table[1..];
    }
  }

  /** The table has this user with this value under the key. */
  ghost predicate HasRow(table: seq<Row>, key: Key, h: Holder) {
    exists r :: r in table && r.id == h.userId && key in r.attributes && r.attributes[key] == h.value
  }

  lemma QueriesArePaged(rank: UserId -> int, views: seq<seq<Row>>, key: Key, pageSize: nat)
    requires AllInIdOrder(rank, views) && pageSize > 0
    ensures Paged(rank, Queries(rank, views, key), |views|, pageSize)
  {
    var q := Queries(rank, views, key);
    forall n: nat, after ensures Answer(rank, after, q(n, after)) {
      MatchingMeaning(rank, View(views, n), key, after);
    }
    forall n: nat, after | n >= |views| ensures Shrinks(q, pageSize, n, after) {
      assert View(views, n + 1) == View(views, n);
      assert q(n, after) == Matching(rank, View(views, n), key, after);
      if |q(n, after)| >= pageSize {
        KeysetResumes(rank, View(views, n), key, after, pageSize);
      }
    }
  }

  /** Everybody whom the walk over these tables yields, in order. */
  ghost function HoldersSeen(rank: UserId -> int, views: seq<seq<Row>>, key: Key): seq<Holder>
    requires AllInIdOrder(rank, views)
  {
    QueriesArePaged(rank, views, key, PAGE_SIZE);
    Walked(rank, Queries(rank, views, key), |views|, PAGE_SIZE, 0, None)
  }

  /** Nobody is seen twice, and everybody seen was there, with that value, when their page was read. */
  lemma SeenMeaning(rank: UserId -> int, views: seq<seq<Row>>, key: Key)
    requires AllInIdOrder(rank, views)
    ensures Ascend(rank, HoldersSeen(rank, views, key))
    ensures forall h | h in HoldersSeen(rank, views, key) :: exists n: nat :: HasRow(View(views, n), key, h)
  {
    var q := Queries(rank, views, key);
    QueriesArePaged(rank, views, key, PAGE_SIZE);
    WalkAscends(rank, q, |views|, PAGE_SIZE, 0, None);
    forall h | h in HoldersSeen(rank, views, key) ensures exists n: nat :: HasRow(View(views, n), key, h) {
      var m, resumed := WalkSawRow(rank, q, |views|, PAGE_SIZE, 0, None, h);
      MatchingMeaning(rank, View(views, m), key, resumed);
    }
  }

  /** Somebody who holds the same value in every view is seen. */
  lemma SteadyIsSeen(rank: UserId -> int, views: seq<seq<Row>>, key: Key, h: Holder)
    requires AllInIdOrder(rank, views) && views != [] && forall i | 0 <= i < |views| :: HasRow(views[i], key, h)
    ensures h in HoldersSeen(rank, views, key)
  {
    var q := Queries(rank, views, key);
    QueriesArePaged(rank, views, key, PAGE_SIZE);
    forall m: nat, resumed ensures Selects(rank, q, h, m, resumed) {
      MatchingMeaning(rank, View(views, m), key, resumed);
    }
    WalkSeesTheSteady(rank, q, |views|, PAGE_SIZE, 0, None, h);
  }

  /** Over a table that does not change, the walk yields every holder once, in id order, whatever the page
      size. */
  lemma StillWalkYieldsHolders(rank: UserId -> int, table: seq<Row>, key: Key, pageSize: nat)
    requires InIdOrder(rank, table) && pageSize > 0
    ensures Paged(rank, Queries(rank, [table], key), 1, pageSize)
    ensures Walked(rank, Queries(rank, [table], key), 1, pageSize, 0, None) == Holders(table, key)
  {
    var q := Queries(rank, [table], key);
    QueriesArePaged(rank, [table], key, pageSize);
    forall n: nat, after ensures Continues(q, pageSize, n, after) {
      assert View([table], n) == table && View([table], n + 1) == table;
      assert q(n, after) == Matching(rank, table, key, after);
      if |q(n, after)| >= pageSize {
        KeysetResumes(rank, table, key, after, pageSize);
      }
    }
    WalkOfContinuing(rank, q, 1, pageSize, 0, None);
    assert View([table], 0) == table;
    assert q(0, None) == Matching(rank, table, key, None);
    NobodySkipped(rank, table, key, None);
  }

  lemma HoldersAscend(rank: UserId -> int, table: seq<Row>, key: Key)
    requires InIdOrder(rank, table)
    ensures var hs := Holders(table, key);
      && (forall i, j | 0 <= i < j < |hs| :: rank(hs[i].userId) < rank(hs[j].userId))
      && (forall h :: h in hs <==> exists r :: r in table && r.id == h.userId && key in r.attributes && r.attributes[key] == h.value)
  {
    NobodySkipped(rank, table, key, None);
    MatchingMeaning(rank, table, key, None);
    forall h
      ensures h in Holders(table, key) <==>
        exists r :: r in table && r.id == h.userId && key in r.attributes && r.attributes[key] == h.value
    {
      assert h in Matching(rank, table, key, None) <==> HasRow(table, key, h);
    }
  }
}
