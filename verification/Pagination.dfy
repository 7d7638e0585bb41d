/** The hub client's page-by-page listing, over the store's listing of apps by id. */
module Pagination {
  import opened Ledger
  import opened LedgerRuns
  import opened ModularArithmetic
  import opened Wrappers

  type Row = (Id, App)

  /** SELECT ... ORDER BY id ASC, over the keys below n. */
  function RowsBelow(apps: map<Id, App>, n: Id): (rows: seq<Row>)
    ensures |rows| <= n
  {
    if n == 0 then []
    else if n - 1 in apps then RowsBelow(apps, n - 1) + [(n - 1, apps[n - 1])]
    else RowsBelow(apps, n - 1)
  }

  function Rows(db: Db): seq<Row> {
    RowsBelow(db.apps, db.nextApp)
  }

  function Keys(rows: seq<Row>): (ids: seq<Id>)
    ensures |ids| == |rows|
    ensures forall i :: 0 <= i < |rows| ==> ids[i] == rows[i].0
  {
    seq(|rows|, i requires 0 <= i < |rows| => rows[i].0)
  }

  /** The listing holds every app once, in the order of the ids. */
  lemma {:induction false} RowsComplete(apps: map<Id, App>, n: Id)
    ensures forall i :: 0 <= i < |RowsBelow(apps, n)| ==>
      var (a, app) := RowsBelow(apps, n)[i]; a < n && a in apps && apps[a] == app
    ensures forall i, j :: 0 <= i < j < |RowsBelow(apps, n)| ==> RowsBelow(apps, n)[i].0 < RowsBelow(apps, n)[j].0
    ensures forall a :: a in apps && a < n ==> (a, apps[a]) in RowsBelow(apps, n)
  {
    if n > 0 {
      RowsComplete(apps, n - 1);
      if n - 1 in apps {
        var rows := RowsBelow(apps, n - 1);
        assert (rows + [(n - 1, apps[n - 1])])[|rows|] == (n - 1, apps[n - 1]);
        forall a | a in apps && a < n ensures (a, apps[a]) in rows + [(n - 1, apps[n - 1])] {
        }
      }
    }
  }

  /** LIMIT and OFFSET, and COUNT(*) beside them. */
  function ListApps(db: Db, limit: nat, offset: nat): (page: (seq<Row>, nat))
    ensures page.1 == |Rows(db)|
  {
    var rows := Rows(db);
    var end := if offset + limit <= |rows| then offset + limit else |rows|;
    (if offset <= |rows| then rows[offset..end] else [], |rows|)
  }

  /** When the client asks for no further page: by the total where the server reports one, else by a
      page that is not full. */
  predicate Finished(total: Option<nat>, collected: nat, items: nat, pageSize: nat) {
    match total
    case Some(n) => collected >= n
    case None => items < pageSize
  }

  /** Each row is as it stood when its page was read. */
  ghost predicate AsRead(world: nat -> Db, pageSize: nat, results: seq<Row>)
    requires pageSize >= 1
  {
    forall i :: 0 <= i < |results| ==>
      i < |Rows(world(i / pageSize))| && results[i] == Rows(world(i / pageSize))[i]
  }

  /** Request k was answered with a full page and was not the last. */
  ghost predicate WentOn(world: nat -> Db, counts: bool, pageSize: nat, k: nat) {
    && (k + 1) * pageSize <= |Rows(world(k))|
    && (counts ==> (k + 1) * pageSize < |Rows(world(k))|)
  }

  /** What the loop collects when request k meets the store in state world(k): the rows of every page as they
      stood when it was read, up to the first page that reaches the reported total or, where none is reported, is
      not full. */
  ghost predicate Collected(world: nat -> Db, counts: bool, pageSize: nat, requests: nat, results: seq<Row>)
    requires pageSize >= 1
  {
    && requests >= 1
    && var read := (requests - 1) * pageSize;
    && (forall k :: 0 <= k < requests - 1 ==> WentOn(world, counts, pageSize, k))
    && AsRead(world, pageSize, results)
    && read <= |results| <= read + pageSize
    && (|results| < read + pageSize ==> |results| >= |Rows(world(requests - 1))|)
    && if counts then |results| >= |Rows(world(requests - 1))| else |results| < read + pageSize
  }

  /** Whatever happens to the store between the requests, as long as there are never more than bound apps,
      the loop ends. */
  method Paginate(world: nat -> Db, counts: bool, pageSize: nat, ghost bound: nat)
      returns (results: seq<Row>, requests: nat)
    requires pageSize >= 1
    requires forall k: nat :: |Rows(world(k))| <= bound
    ensures Collected(world, counts, pageSize, requests, results)
    ensures (forall k: nat :: world(k) == world(0)) ==> results == Rows(world(0))
  {
    hide Rows, AsRead, WentOn;
    var request, offset := 0, 0;
    results := [];
    NothingRead(world, pageSize);
    while true
      invariant offset == request * pageSize && |results| == offset
      invariant forall k :: 0 <= k < request ==> WentOn(world, counts, pageSize, k)
      invariant AsRead(world, pageSize, results)
      decreases bound - offset
    {
      var (items, n) := ListApps(world(request), pageSize, offset);
      var total := if counts then Some(n) else None;
      PageRead(world, pageSize, request, results, items);
      results := results + items;
      assert |Rows(world(request))| <= bound;
      if Finished(total, |results|, |items|, pageSize) {
        break;
      }
      FullPage(world, counts, pageSize, request);
      offset := offset + pageSize;
      request := request + 1;
    }
    requests := request + 1;
    if forall k: nat :: world(k) == world(0) {
      EndOfListing(world, counts, pageSize, requests, results);
      SameRows(world, pageSize, results);
    }
  }

  lemma NothingRead(world: nat -> Db, pageSize: nat)
    requires pageSize >= 1
    ensures AsRead(world, pageSize, [])
  {
  }

  lemma ReadAt(world: nat -> Db, pageSize: nat, results: seq<Row>, i: nat)
    requires pageSize >= 1 && AsRead(world, pageSize, results) && i < |results|
    ensures i < |Rows(world(i / pageSize))| && results[i] == Rows(world(i / pageSize))[i]
  {
    hide Rows;
  }

  lemma FullPage(world: nat -> Db, counts: bool, pageSize: nat, k: nat)
    requires k * pageSize + pageSize <= |Rows(world(k))|
    requires counts ==> k * pageSize + pageSize < |Rows(world(k))|
    ensures WentOn(world, counts, pageSize, k) && (k + 1) * pageSize == k * pageSize + pageSize
  {
    hide Rows;
  }

  lemma PageRead(world: nat -> Db, pageSize: nat, k: nat, results: seq<Row>, items: seq<Row>)
    requires pageSize >= 1
    requires AsRead(world, pageSize, results) && |results| == k * pageSize && |items| <= pageSize
    requires items == [] || (|results| + |items| <= |Rows(world(k))|
                             && items == Rows(world(k))[|results|..|results| + |items|])
    ensures AsRead(world, pageSize, results + items)
  {
    hide Rows;
    forall i | |results| <= i < |results + items| ensures i / pageSize == k {
      PageOf(k, pageSize, i);
    }
  }

  /** The last page leaves nothing of the last state unread. */
  lemma EndOfListing(world: nat -> Db, counts: bool, pageSize: nat, requests: nat, results: seq<Row>)
    requires pageSize >= 1 && Collected(world, counts, pageSize, requests, results)
    ensures |Rows(world(requests - 1))| <= |results|
    ensures |results| > (requests - 1) * pageSize ==> |results| == |Rows(world(requests - 1))|
  {
    hide Rows, WentOn;
    if |results| > (requests - 1) * pageSize {
      PageOf(requests - 1, pageSize, |results| - 1);
    }
  }

  lemma SameRows(world: nat -> Db, pageSize: nat, results: seq<Row>)
    requires pageSize >= 1
    requires AsRead(world, pageSize, results)
    requires forall k: nat :: world(k) == world(0)
    requires |results| >= |Rows(world(0))|
    ensures results == Rows(world(0))
  {
    hide Rows;
    forall i | 0 <= i < |results| ensures i < |Rows(world(0))| && results[i] == Rows(world(0))[i] {
      assert world(i / pageSize) == world(0);
    }
    if results != [] {
      ReadAt(world, pageSize, results, |results| - 1);
    }
  }

  lemma PageOf(k: nat, pageSize: nat, i: nat)
    requires pageSize >= 1
    requires k * pageSize <= i < k * pageSize + pageSize
    ensures i / pageSize == k
  {
    DivisionIsUnique(pageSize, k, i - k * pageSize, i / pageSize, i % pageSize);
  }

  // ---- How a listing changes over a run ---------------------------------------------------------

  /** Keys are not used again. */
  ghost predicate Later(db: Db, db': Db) {
    db'.nextApp >= db.nextApp && forall a :: a in db'.apps && a < db.nextApp ==> a in db.apps
  }

  lemma StepLater(db: Db, op: Op)
    requires WellFormed(db)
    ensures Later(db, Perform(db, op))
  {
    hide Perform;
    CountersGrow(db, op);
    forall a | a in Perform(db, op).apps && a !in db.apps ensures a == db.nextApp {
      OldAppsOnly(db, op, a);
    }
  }

  lemma {:induction false} RunLater(ops: seq<Op>, i: nat, j: nat)
    requires i <= j <= |ops|
    ensures Later(After(ops[..i]).db, After(ops[..j]).db)
    decreases j
  {
    if i < j {
      hide Perform, Later;
      RunLater(ops, i, j - 1);
      OneMore(ops, j - 1);
      RunWellFormed(ops[..j - 1]);
      StepLater(After(ops[..j - 1]).db, ops[j - 1]);
      LaterTwice(After(ops[..i]).db, After(ops[..j - 1]).db, After(ops[..j]).db);
    }
  }

  lemma LaterTwice(db0: Db, db1: Db, db2: Db)
    requires Later(db0, db1) && Later(db1, db2)
    ensures Later(db0, db2)
  {
  }

  lemma OneMore(ops: seq<Op>, n: nat)
    requires n < |ops|
    ensures After(ops[..n + 1]).db == Perform(After(ops[..n]).db, ops[n])
  {
    hide After, Perform;
    assert ops[..n + 1] == ops[..n] + [ops[n]];
    Extend(ops[..n], ops[n]);
  }

  lemma {:induction false} RunWellFormed(ops: seq<Op>)
    ensures WellFormed(After(ops).db)
    decreases |ops|
  {
    hide Perform;
    if ops != [] {
      RunWellFormed(ops[..|ops| - 1]);
      WellFormedKept(After(ops[..|ops| - 1]).db, ops[|ops| - 1]);
    }
  }

  /** Operation k of the run deletes app a. */
  predicate Deletes(ops: seq<Op>, k: nat, a: Id)
    requires k < |ops|
  {
    var apps := After(ops[..k]).db.apps;
    ops[k].OpDelete? && a in apps && apps[a].appPubkey == ops[k].appPubkey
  }

  predicate DeletedBetween(ops: seq<Op>, i: nat, j: nat, a: Id) {
    exists k :: i <= k < j && k < |ops| && Deletes(ops, k, a)
  }

  lemma StepDeletes(db: Db, op: Op, a: Id)
    requires a in db.apps
    ensures a !in Perform(db, op).apps <==> op.OpDelete? && op.appPubkey == db.apps[a].appPubkey
  {
    hide LatestIncoming, Sum, InternalInvoice, Creditable, WithinBudget;
  }

  /** An app is still there unless it was deleted since. */
  lemma {:induction false} StillThereIff(ops: seq<Op>, i: nat, j: nat, a: Id)
    requires i <= j <= |ops| && a in After(ops[..i]).db.apps
    ensures a in After(ops[..j]).db.apps <==> !DeletedBetween(ops, i, j, a)
    decreases j
  {
    hide After, Deletes;
    if i < j {
      StillThereIff(ops, i, j - 1, a);
      DeletedLast(ops, i, j, a);
      hide DeletedBetween;
      DeletedNow(ops, i, j, a);
    }
  }

  lemma DeletedLast(ops: seq<Op>, i: nat, j: nat, a: Id)
    requires i < j <= |ops|
    ensures DeletedBetween(ops, i, j, a) <==> DeletedBetween(ops, i, j - 1, a) || Deletes(ops, j - 1, a)
  {
    hide Deletes;
  }

  lemma DeletedNow(ops: seq<Op>, i: nat, j: nat, a: Id)
    requires i < j <= |ops| && a in After(ops[..i]).db.apps
    ensures a in After(ops[..j]).db.apps <==> a in After(ops[..j - 1]).db.apps && !Deletes(ops, j - 1, a)
  {
    hide After, Perform;
    OneMore(ops, j - 1);
    RunWellFormed(ops[..i]);
    RunLater(ops, i, j - 1);
    RunLater(ops, j - 1, j);
    var db := After(ops[..j - 1]).db;
    if a in db.apps { StepDeletes(db, ops[j - 1], a); }
  }

  lemma {:induction false} SameKeys(apps: map<Id, App>, apps': map<Id, App>, n: Id)
    requires forall a :: 0 <= a < n ==> (a in apps <==> a in apps')
    ensures Keys(RowsBelow(apps, n)) == Keys(RowsBelow(apps', n))
  {
    if n > 0 { SameKeys(apps, apps', n - 1); }
  }

  lemma {:induction false} BelowIsPrefix(apps: map<Id, App>, m: Id, n: Id)
    requires m <= n
    ensures RowsBelow(apps, m) <= RowsBelow(apps, n)
  {
    if m < n { BelowIsPrefix(apps, m, n - 1); }
  }

  /** The listing up to its m-th row is the listing of the keys up to that row's. */
  lemma {:induction false} FirstRows(apps: map<Id, App>, n: Id, m: nat)
    requires 0 < m <= |RowsBelow(apps, n)|
    ensures var v := RowsBelow(apps, n)[m - 1].0; v < n && RowsBelow(apps, v + 1) == RowsBelow(apps, n)[..m]
  {
    var rows := RowsBelow(apps, n);
    if n - 1 in apps && m == |rows| {
      assert rows[..m] == rows;
    } else {
      FirstRows(apps, n - 1, m);
    }
  }

  /** As long as none of the first m apps is deleted, they stay the first m. */
  lemma FirstRowsKept(db: Db, db': Db, m: nat)
    requires Later(db, db') && m <= |Rows(db)| && forall i :: 0 <= i < m ==> Rows(db)[i].0 in db'.apps
    ensures m <= |Rows(db')| && Keys(Rows(db')[..m]) == Keys(Rows(db)[..m])
  {
    hide RowsBelow;
    if m > 0 {
      FirstRows(db.apps, db.nextApp, m);
      var v := Rows(db)[m - 1].0;
      RowsComplete(db.apps, v + 1);
      SameKeys(db.apps, db'.apps, v + 1);
      BelowIsPrefix(db'.apps, v + 1, db'.nextApp);
      assert |RowsBelow(db'.apps, v + 1)| == m;
      assert Rows(db')[..m] == RowsBelow(db'.apps, v + 1);
    }
  }

  // ---- What the client gets ---------------------------------------------------------------------

  /** The states the requests meet are taken from a run, in order. */
  ghost predicate TakenFrom(world: nat -> Db, ops: seq<Op>, cut: nat -> nat) {
    && (forall k: nat :: cut(k) <= |ops| && world(k) == After(ops[..cut(k)]).db)
    && (forall i: nat, j: nat :: i <= j ==> cut(i) <= cut(j))
  }

  /** The first n rows read begin the listing that request k meets. */
  ghost predicate Begins(world: nat -> Db, results: seq<Row>, k: nat, n: nat) {
    n <= |results| && n <= |Rows(world(k))| && Keys(Rows(world(k))[..n]) == Keys(results[..n])
  }

  /** While everything read is still there at the end, what was read before request k begins the listing
      that request k meets. */
  lemma {:induction false} ReadSoFar(world: nat -> Db, ops: seq<Op>, cut: nat -> nat, counts: bool, pageSize: nat,
                                     requests: nat, results: seq<Row>, k: nat)
    requires pageSize >= 1 && TakenFrom(world, ops, cut) && Collected(world, counts, pageSize, requests, results)
    requires forall i :: 0 <= i < |results| ==> results[i].0 in world(requests - 1).apps
    requires k < requests
    ensures Begins(world, results, k, k * pageSize)
  {
    hide *;
    if k == 0 {
      NothingReadYet(world, results);
      assert k * pageSize == 0;
    } else {
      ReadSoFar(world, ops, cut, counts, pageSize, requests, results, k - 1);
      PageAdded(world, counts, pageSize, requests, results, k - 1);
      SurvivorsMeet(world, ops, cut, requests, results, k - 1, k * pageSize);
    }
  }

  lemma NothingReadYet(world: nat -> Db, results: seq<Row>)
    ensures Begins(world, results, 0, 0)
  {
  }

  lemma PageAdded(world: nat -> Db, counts: bool, pageSize: nat, requests: nat, results: seq<Row>, k: nat)
    requires pageSize >= 1 && Collected(world, counts, pageSize, requests, results) && k + 1 < requests
    requires Begins(world, results, k, k * pageSize)
    ensures Begins(world, results, k, (k + 1) * pageSize)
  {
    hide Rows;
    assert WentOn(world, counts, pageSize, k);
    assert (k + 1) * pageSize == k * pageSize + pageSize;
    Multiples(k + 1, requests - 1, pageSize);
    var m, n := k * pageSize, (k + 1) * pageSize;
    forall i | 0 <= i < n ensures Rows(world(k))[i].0 == results[i].0 {
      if i < m {
        assert Keys(Rows(world(k))[..m])[i] == Keys(results[..m])[i];
      } else {
        PageOf(k, pageSize, i);
      }
    }
  }

  lemma Multiples(i: nat, j: nat, pageSize: nat)
    requires i <= j
    ensures i * pageSize <= j * pageSize
  {
  }

  lemma SurvivorsMeet(world: nat -> Db, ops: seq<Op>, cut: nat -> nat, requests: nat, results: seq<Row>, k: nat, n: nat)
    requires TakenFrom(world, ops, cut) && k + 1 < requests
    requires forall i :: 0 <= i < |results| ==> results[i].0 in world(requests - 1).apps
    requires Begins(world, results, k, n)
    ensures Begins(world, results, k + 1, n)
  {
    hide After;
    RunLater(ops, cut(k), cut(k + 1));
    RunLater(ops, cut(k + 1), cut(requests - 1));
    RowsComplete(world(k).apps, world(k).nextApp);
    forall i | 0 <= i < n ensures Rows(world(k))[i].0 in world(k + 1).apps {
      assert Keys(Rows(world(k))[..n])[i] == Keys(results[..n])[i];
    }
    hide RowsBelow;
    FirstRowsKept(world(k), world(k + 1), n);
  }

  /** Of the apps read, none was deleted between the request that read it and the last one. */
  predicate ReadAppsKept(ops: seq<Op>, cut: nat -> nat, pageSize: nat, requests: nat, results: seq<Row>)
    requires pageSize >= 1 && requests >= 1
  {
    forall i :: 0 <= i < |results| ==>
      !DeletedBetween(ops, cut(i / pageSize), cut(requests - 1), results[i].0)
  }

  /** The client's listing is that of the state its last request met exactly when no app it had read was
      deleted before that request. */
  lemma ListingIff(world: nat -> Db, ops: seq<Op>, cut: nat -> nat, counts: bool, pageSize: nat, requests: nat,
                   results: seq<Row>)
    requires pageSize >= 1 && TakenFrom(world, ops, cut) && Collected(world, counts, pageSize, requests, results)
    ensures Keys(results) == Keys(Rows(world(requests - 1))) <==>
            ReadAppsKept(ops, cut, pageSize, requests, results)
  {
    hide After, Rows, WentOn, DeletedBetween;
    var last := world(requests - 1);
    forall i | 0 <= i < |results|
      ensures results[i].0 in last.apps <==> !DeletedBetween(ops, cut(i / pageSize), cut(requests - 1), results[i].0)
    {
      ReadThen(world, pageSize, results, i);
      PageIndex(pageSize, requests, |results|, i);
      StillThereIff(ops, cut(i / pageSize), cut(requests - 1), results[i].0);
    }
    KeysIff(world, ops, cut, counts, pageSize, requests, results);
  }

  lemma ReadThen(world: nat -> Db, pageSize: nat, results: seq<Row>, i: nat)
    requires pageSize >= 1 && AsRead(world, pageSize, results) && i < |results|
    ensures results[i].0 in world(i / pageSize).apps
  {
    RowsComplete(world(i / pageSize).apps, world(i / pageSize).nextApp);
  }

  lemma PageIndex(pageSize: nat, requests: nat, length: nat, i: nat)
    requires pageSize >= 1 && requests >= 1 && length <= (requests - 1) * pageSize + pageSize && i < length
    ensures 0 <= i / pageSize <= requests - 1
  {
    var q := i / pageSize;
    assert q * pageSize <= i && requests * pageSize == (requests - 1) * pageSize + pageSize;
    if q >= requests { Multiples(requests, q, pageSize); }
  }

  lemma KeysIff(world: nat -> Db, ops: seq<Op>, cut: nat -> nat, counts: bool, pageSize: nat, requests: nat,
                results: seq<Row>)
    requires pageSize >= 1 && TakenFrom(world, ops, cut) && Collected(world, counts, pageSize, requests, results)
    ensures Keys(results) == Keys(Rows(world(requests - 1))) <==>
            forall i :: 0 <= i < |results| ==> results[i].0 in world(requests - 1).apps
  {
    hide TakenFrom, WentOn;
    var last := world(requests - 1);
    RowsComplete(last.apps, last.nextApp);
    hide RowsBelow;
    if Keys(results) == Keys(Rows(last)) {
      assert forall i :: 0 <= i < |results| ==> results[i].0 == Keys(results)[i] == Rows(last)[i].0;
    }
    if forall i :: 0 <= i < |results| ==> results[i].0 in last.apps {
      hide Rows;
      var m := (requests - 1) * pageSize;
      ReadSoFar(world, ops, cut, counts, pageSize, requests, results, requests - 1);
      EndOfListing(world, counts, pageSize, requests, results);
      forall i | 0 <= i < |results| ensures results[i].0 == Rows(last)[i].0 {
        if i < m {
          assert Keys(Rows(last)[..m])[i] == Keys(results[..m])[i];
        } else {
          PageOf(requests - 1, pageSize, i);
        }
      }
    }
  }

  /** Over any stretch of a run without a delete, the listing of every earlier state begins that of
      every later one. */
  lemma RunGrows(ops: seq<Op>, i: nat, j: nat)
    requires i <= j <= |ops|
    requires forall k :: i <= k < j ==> !ops[k].OpDelete?
    ensures Keys(Rows(After(ops[..i]).db)) <= Keys(Rows(After(ops[..j]).db))
  {
    hide After, RowsBelow;
    var db, db' := After(ops[..i]).db, After(ops[..j]).db;
    RunLater(ops, i, j);
    RowsComplete(db.apps, db.nextApp);
    forall k | 0 <= k < |Rows(db)| ensures Rows(db)[k].0 in db'.apps {
      StillThereIff(ops, i, j, Rows(db)[k].0);
    }
    FirstRowsKept(db, db', |Rows(db)|);
    assert Rows(db)[..|Rows(db)|] == Rows(db);
    assert Keys(Rows(db')[..|Rows(db)|]) == Keys(Rows(db'))[..|Rows(db)|];
  }

  // ---- An app is missed -------------------------------------------------------------------------

  const CREATE_A := OpCreate("a", "u", 0, [])
  const CREATE_B := OpCreate("b", "v", 0, [])

  /** Two apps are created; the first is deleted between the first request and the second. */
  function Deletion(): seq<Op> {
    [CREATE_A] + [CREATE_B] + [OpDelete("a")]
  }

  function Cut(k: nat): nat {
    if k == 0 then 2 else 3
  }

  function Meanwhile(k: nat): Db {
    After(Deletion()[..Cut(k)]).db
  }

  lemma DeletionStates()
    ensures Legal(Deletion())
    ensures Meanwhile(0).apps == map[1 := App("a", "u", 0, 0, []), 2 := App("b", "v", 0, 0, [])]
    ensures Meanwhile(0).nextApp == 3
    ensures forall k: nat :: k >= 1 ==> Meanwhile(k).apps == map[2 := App("b", "v", 0, 0, [])] && Meanwhile(k).nextApp == 3
  {
    hide After, Legal, Step;
    var one, two := [CREATE_A], [CREATE_A] + [CREATE_B];
    FirstCreated();
    SecondCreated(After(one));
    Extend(one, CREATE_B);
    FirstDeleted(After(two));
    Extend(two, OpDelete("a"));
    assert Deletion()[..2] == two && Deletion()[..3] == Deletion();
  }

  lemma FirstCreated()
    ensures Legal([CREATE_A]) && After([CREATE_A]).db.nextApp == 2
    ensures After([CREATE_A]).db.apps == map[1 := App("a", "u", 0, 0, [])]
  {
    var none: seq<Op> := [];
    Extend(none, CREATE_A);
    assert none + [CREATE_A] == [CREATE_A];
  }

  lemma SecondCreated(s: State)
    requires s.db.nextApp == 2 && s.db.apps == map[1 := App("a", "u", 0, 0, [])]
    ensures var db := Step(s, CREATE_B).db;
      db.nextApp == 3 && db.apps == map[1 := App("a", "u", 0, 0, []), 2 := App("b", "v", 0, 0, [])]
  {
  }

  lemma FirstDeleted(s: State)
    requires s.db.apps == map[1 := App("a", "u", 0, 0, []), 2 := App("b", "v", 0, 0, [])]
    ensures var db := Step(s, OpDelete("a")).db;
      db.nextApp == s.db.nextApp && db.apps == map[2 := App("b", "v", 0, 0, [])]
  {
  }

  /** With pages of one the client reads the first app and stops at the empty second page: it never sees
      the second app, which was there throughout. */
  lemma DeletedAppHidesAnother(counts: bool, requests: nat, results: seq<Row>)
    requires Collected(Meanwhile, counts, 1, requests, results)
    ensures TakenFrom(Meanwhile, Deletion(), Cut) && Legal(Deletion())
    ensures requests == 2 && Keys(results) == [1] && Keys(Rows(Meanwhile(1))) == [2]
    ensures forall k: nat :: 2 in Meanwhile(k).apps
  {
    DeletionStates();
    hide After, Legal;
    assert TakenFrom(Meanwhile, Deletion(), Cut);
    hide Deletion, Meanwhile;
    TwoRows(Meanwhile(0).apps);
    OneRow(Meanwhile(1).apps);
    hide RowsBelow;
    assert WentOn(Meanwhile, counts, 1, 0);
    assert requests >= 3 ==> WentOn(Meanwhile, counts, 1, 1);
    if |results| > 1 { ReadAt(Meanwhile, 1, results, 1); }
  }

  lemma TwoRows(apps: map<Id, App>)
    requires apps.Keys == {1, 2}
    ensures RowsBelow(apps, 3) == [(1, apps[1]), (2, apps[2])]
  {
    assert RowsBelow(apps, 1) == [];
    assert RowsBelow(apps, 2) == [(1, apps[1])];
  }

  lemma OneRow(apps: map<Id, App>)
    requires apps.Keys == {2}
    ensures RowsBelow(apps, 3) == [(2, apps[2])]
  {
    assert RowsBelow(apps, 1) == [];
    assert RowsBelow(apps, 2) == [];
  }
}
