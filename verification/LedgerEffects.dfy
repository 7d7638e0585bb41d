/** What each ledger operation does, said outright: when it is refused, which balances move and by how
    much, which rows appear or change, and that nothing else does. */
module LedgerEffects {
  import opened Wrappers
  import opened Ledger
  import opened LedgerRuns

  /** No app came or went, and only balances changed: that of b by change(b). */
  ghost predicate Moved(db: Db, db': Db, change: Id -> int) {
    && db'.nextApp == db.nextApp && db'.apps.Keys == db.apps.Keys
    && forall b :: b in db.apps ==> db'.apps[b] == db.apps[b].(balance := db.apps[b].balance + change(b))
  }

  /** One row was added, under the next key. */
  ghost predicate Added(db: Db, db': Db, row: Tx) {
    db'.nextTx == db.nextTx + 1 && db'.txs == db.txs[db.nextTx := row]
  }

  lemma MovesOne(db: Db, a: Id, delta: int)
    requires a in db.apps
    ensures var db' := AddBalance(db, a, delta);
      Moved(db, db', b => if b == a then delta else 0) && db'.apps.Keys == db.apps.Keys
      && db'.txs == db.txs && db'.nextTx == db.nextTx
  {
  }

  lemma MovesTwice(db: Db, db1: Db, db2: Db, f: Id -> int, g: Id -> int, h: Id -> int)
    requires Moved(db, db1, f) && Moved(db1, db2, g) && forall b :: f(b) + g(b) == h(b)
    ensures Moved(db, db2, h)
  {
  }

  lemma CreditMoves(db: Db, id: Id, amount: int, preimage: string)
    requires id in db.txs && db.txs[id].app in db.apps
    ensures var db', tx := Credit(db, id, amount, preimage), db.txs[id];
      && Moved(db, db', b => if b == tx.app then amount else 0)
      && db'.nextTx == db.nextTx
      && db'.txs == db.txs[id := tx.(state := Settled, amount := amount, preimage := preimage)]
  {
    hide AddBalance;
    MovesOne(db, db.txs[id].app, amount);
  }

  // ---- Invoices ------------------------------------------------------------------------

  lemma RecordExactly(db: Db, a: Id, hash: string, amount: int)
    ensures var op := OpRecord(a, hash, amount);
      && (Outcome(db, op) == Err(NotFound) <==> a !in db.apps)
      && (a in db.apps ==>
           Perform(db, op).apps == db.apps && Perform(db, op).nextApp == db.nextApp
           && Added(db, Perform(db, op), Tx(a, Incoming, Pending, amount, 0, 0, hash, "")))
  {
  }

  /** id is the latest invoice with this hash. */
  ghost predicate Latest(db: Db, hash: string, id: Id) {
    IsInvoice(db, id, hash) && forall j: Id :: IsInvoice(db, j, hash) ==> j <= id
  }

  /** From db to db' the latest invoice with the hash, unless settled before, is settled at the amount given,
      or else at the amount recorded, with the preimage given if there is one; its wallet is richer by
      that amount; nothing else changes. */
  ghost predicate Settles(db: Db, db': Db, hash: string, amount: Option<int>, preimage: string) {
    && ((forall id: Id :: !IsInvoice(db, id, hash)) ==> db' == db)
    && forall id: Id :: Latest(db, hash, id) ==>
         if db.txs[id].state == Settled then db' == db
         else
           var tx := db.txs[id];
           var paid := if amount.Some? then amount.value else tx.amount;
           && Moved(db, db', b => if b == tx.app then paid else 0)
           && db'.nextTx == db.nextTx
           && db'.txs == db.txs[id := Tx(tx.app, Incoming, Settled, paid, tx.feesPaid, tx.feeReserve, hash,
                                         if preimage == "" then tx.preimage else preimage)]
  }

  lemma LatestIff(db: Db, hash: string, id: Id)
    requires WellFormed(db)
    ensures LatestIncoming(db.txs, hash, false, db.nextTx) == Some(id) <==> Latest(db, hash, id)
    ensures LatestIncoming(db.txs, hash, false, db.nextTx) == None <==> forall j: Id :: !IsInvoice(db, j, hash)
  {
    assert forall j :: j in db.txs ==> j < db.nextTx;
    hide WellFormed, LatestIncoming;
    assert forall j: Id :: IsInvoice(db, j, hash) ==> IsIncoming(db.txs[j], hash, false);
    var r := LatestIncoming(db.txs, hash, false, db.nextTx);
    if r.Some? { assert IsInvoice(db, r.value, hash); }
  }

  lemma SettleExactly(db: Db, hash: string, amount: Option<int>, preimage: string)
    requires WellFormed(db)
    ensures Settles(db, Perform(db, OpSettle(hash, amount, preimage)), hash, amount, preimage)
  {
    hide WellFormed, LatestIncoming, Credit, Moved, Settles;
    var r := LatestIncoming(db.txs, hash, false, db.nextTx);
    match r
    case None =>
      LatestIff(db, hash, 0);
      NothingSettled(db, hash, amount, preimage);
    case Some(id) =>
      LatestIff(db, hash, id);
      AppOfRow(db, id);
      if db.txs[id].state == Settled {
        SettledBefore(db, hash, amount, preimage, id);
      } else {
        CreditMoves(db, id, if amount.Some? then amount.value else db.txs[id].amount,
                    if preimage == "" then db.txs[id].preimage else preimage);
        SettledNow(db, Perform(db, OpSettle(hash, amount, preimage)), hash, amount, preimage, id);
      }
  }

  lemma AppOfRow(db: Db, id: Id)
    requires WellFormed(db) && id in db.txs
    ensures db.txs[id].app in db.apps
  {
  }

  lemma NothingSettled(db: Db, hash: string, amount: Option<int>, preimage: string)
    requires forall j: Id :: !IsInvoice(db, j, hash)
    ensures Settles(db, db, hash, amount, preimage)
  {
  }

  lemma SettledBefore(db: Db, hash: string, amount: Option<int>, preimage: string, id: Id)
    requires Latest(db, hash, id) && db.txs[id].state == Settled
    ensures Settles(db, db, hash, amount, preimage)
  {
    hide Moved;
  }

  lemma SettledNow(db: Db, db': Db, hash: string, amount: Option<int>, preimage: string, id: Id)
    requires Latest(db, hash, id) && db.txs[id].state != Settled
    requires var tx := db.txs[id];
      var paid := if amount.Some? then amount.value else tx.amount;
      && Moved(db, db', b => if b == tx.app then paid else 0) && db'.nextTx == db.nextTx
      && db'.txs == db.txs[id := tx.(state := Settled, amount := paid,
                                     preimage := if preimage == "" then tx.preimage else preimage)]
    ensures Settles(db, db', hash, amount, preimage)
  {
    hide Moved;
    assert forall j: Id :: Latest(db, hash, j) ==> j == id;
    hide Latest;
  }

  lemma {:induction false} FreshPrefix(ops: seq<Op>, n: nat)
    requires FreshHashes(ops) && n <= |ops|
    ensures FreshHashes(ops[..n])
  {
    hide After;
    if n == |ops| {
      assert ops[..n] == ops;
    } else {
      var front := ops[..|ops| - 1];
      assert front[..n] == ops[..n];
      FreshPrefix(front, n);
    }
  }

  /** Operation i of the run settles invoice id: unless it was settled before, its wallet is richer by what
      was reported, which is now its amount. */
  ghost predicate PaidAt(ops: seq<Op>, i: nat, id: Id, hash: string, reported: int, preimage: string)
    requires i < |ops|
  {
    var db, db' := After(ops[..i]).db, After(ops[..i + 1]).db;
    && ops[i] == OpSettle(hash, Some(reported), preimage)
    && (IsInvoice(db, id, hash) ==>
         if db.txs[id].state == Settled then db' == db
         else
           var a := db.txs[id].app;
           && a in db.apps && a in db'.apps && db'.apps[a].balance == db.apps[a].balance + reported
           && id in db'.txs && db'.txs[id].state == Settled && db'.txs[id].amount == reported)
  }

  lemma OnlyInvoice(s: State, hash: string, credits: nat, id: Id)
    requires HashFits(s, hash, credits) && IsInvoice(s.db, id, hash)
    ensures Latest(s.db, hash, id)
  {
  }

  /** When each invoice has a hash of its own, a report that it is settled does just that. */
  lemma ReportSettles(ops: seq<Op>, i: nat, id: Id, hash: string, reported: int, preimage: string)
    requires Legal(ops) && FreshHashes(ops) && hash != "" && i < |ops| && ops[i] == OpSettle(hash, Some(reported), preimage)
    ensures PaidAt(ops, i, id, hash, reported, preimage)
  {
    hide After, Legal, FreshHashes, Perform, Inv, Step, HashFits, Allowed, CreditCount, Latest;
    LegalPrefix(ops, i);
    FreshPrefix(ops, i);
    var s := After(ops[..i]);
    if IsInvoice(s.db, id, hash) {
      HashFitsHolds(ops[..i], hash);
      OnlyInvoice(s, hash, CreditCount(ops[..i], hash), id);
      InvHolds(ops[..i]);
      SettleOne(s, hash, reported, preimage, id);
    }
  }

  lemma SettleOne(s: State, hash: string, reported: int, preimage: string, id: Id)
    requires Inv(s) && Latest(s.db, hash, id)
    ensures var db, db' := s.db, Perform(s.db, OpSettle(hash, Some(reported), preimage));
      if db.txs[id].state == Settled then db' == db
      else
        var a := db.txs[id].app;
        && a in db.apps && a in db'.apps && db'.apps[a].balance == db.apps[a].balance + reported
        && id in db'.txs && db'.txs[id].state == Settled && db'.txs[id].amount == reported
  {
    hide Perform;
    AppOfRow(s.db, id);
    SettleExactly(s.db, hash, Some(reported), preimage);
  }

  /** And it stays settled for as long as it exists. */
  lemma ReportedStaysSettled(ops: seq<Op>, i: nat, id: Id, hash: string, reported: int, preimage: string)
    requires Legal(ops) && FreshHashes(ops) && hash != "" && i < |ops| && ops[i] == OpSettle(hash, Some(reported), preimage)
    requires IsInvoice(After(ops[..i]).db, id, hash)
    ensures id in After(ops).db.txs ==> After(ops).db.txs[id].state == Settled
  {
    hide After, Legal, FreshHashes;
    ReportSettles(ops, i, id, hash, reported, preimage);
    assert ops[..i + 1] + ops[i + 1..] == ops;
    TerminalRows(ops[..i + 1], ops[i + 1..], id);
  }

  // ---- Transfers -----------------------------------------------------------------------

  lemma TransferExactly(db: Db, from: Option<Id>, to: Option<Id>, amount: int)
    ensures var op := OpTransfer(from, to, amount);
      && (Outcome(db, op).Ok? <==>
           && amount > 0 && (from.Some? || to.Some?)
           && (from.Some? ==> from.value in db.apps && db.apps[from.value].balance >= amount)
           && (to.Some? ==> to.value in db.apps))
      && (Outcome(db, op).Ok? ==>
           var db' := Perform(db, op);
           var sent, received := Tx(if from.Some? then from.value else 0, Outgoing, Settled, amount, 0, 0, "", ""),
                                 Tx(if to.Some? then to.value else 0, Incoming, Settled, amount, 0, 0, "", "");
           && Moved(db, db', b => (if to == Some(b) then amount else 0) - (if from == Some(b) then amount else 0))
           && (to == None ==> Added(db, db', sent))
           && (from == None ==> Added(db, db', received))
           && (from.Some? && to.Some? ==>
                db'.nextTx == db.nextTx + 2
                && db'.txs == db.txs[db.nextTx := sent][db.nextTx + 1 := received]))
  {
  }

  // ---- Reservations --------------------------------------------------------------------

  /** What a has spent or holds for payments under way: amounts, fees and reserves of its outgoing rows that
      have not failed. */
  function Used(txs: map<Id, Tx>, a: Id, n: Id): int {
    if n == 0 then 0
    else
      var before := Used(txs, a, n - 1);
      if n - 1 in txs && txs[n - 1].app == a && txs[n - 1].kind == Outgoing && txs[n - 1].state != Failed
      then before + txs[n - 1].amount + txs[n - 1].feesPaid + txs[n - 1].feeReserve else before
  }

  lemma {:induction false} UsedIsSum(txs: map<Id, Tx>, a: Id, n: Id)
    ensures Used(txs, a, n) == Sum(Spending(a), txs, n)
  {
    if n > 0 { UsedIsSum(txs, a, n - 1); }
  }

  /** inv is the latest pending invoice with this hash: one that this node would pay to itself. */
  ghost predicate PaysItself(db: Db, hash: string, inv: Id) {
    && hash != "" && IsInvoice(db, inv, hash) && db.txs[inv].state == Pending
    && forall j: Id :: IsInvoice(db, j, hash) && db.txs[j].state == Pending ==> j <= inv
  }

  lemma InternalIff(db: Db, hash: string, inv: Id)
    requires WellFormed(db)
    ensures InternalInvoice(db, hash) == Some(inv) <==> PaysItself(db, hash, inv)
    ensures InternalInvoice(db, hash) == None <==>
              hash == "" || forall j: Id :: IsInvoice(db, j, hash) ==> db.txs[j].state != Pending
  {
    assert forall id :: id in db.txs ==> id < db.nextTx;
    hide WellFormed, LatestIncoming;
    assert forall j: Id :: IsInvoice(db, j, hash) && db.txs[j].state == Pending ==> IsIncoming(db.txs[j], hash, true);
    if hash != "" {
      var r := LatestIncoming(db.txs, hash, true, db.nextTx);
      if r.Some? { assert IsInvoice(db, r.value, hash) && db.txs[r.value].state == Pending; }
    }
  }

  /** When a reservation succeeds, and why it is refused otherwise: the wallet must exist, hold the amount
      (and the reserve, unless the invoice is this node's own), and have room for it under its cap. */
  lemma ReserveIff(db: Db, a: Id, amount: int, feeReserve: int, hash: string)
    requires WellFormed(db)
    ensures var r := Outcome(db, OpReserve(a, amount, feeReserve, hash));
      (r == Err(NotFound) <==> a !in db.apps)
      && (a in db.apps ==>
           var own := hash != "" && exists j: Id :: IsInvoice(db, j, hash) && db.txs[j].state == Pending;
           var need := if own then amount else amount + feeReserve;
           var funded := db.apps[a].balance >= need;
           var room := db.apps[a].maxAmountSat <= 0
                       || Used(db.txs, a, db.nextTx) + need <= db.apps[a].maxAmountSat * 1000;
           && (r.Ok? <==> funded && room)
           && (r == Err(InsufficientBalance) <==> !funded)
           && (r == Err(QuotaExceeded) <==> funded && !room))
  {
    hide WellFormed, InternalInvoice, Used, Sum, PayInternally, Hold;
    InternalIff(db, hash, 0);
    UsedIsSum(db.txs, a, db.nextTx);
  }

  /** What a successful reservation does: an invoice of this node is paid on the spot, at the amount paid, by a
      row with its preimage; for any other the amount and the reserve leave the balance, held by a
      pending row. */
  lemma ReserveExactly(db: Db, a: Id, amount: int, feeReserve: int, hash: string)
    requires WellFormed(db) && Outcome(db, OpReserve(a, amount, feeReserve, hash)).Ok?
    ensures var db' := Perform(db, OpReserve(a, amount, feeReserve, hash));
      && (forall inv: Id :: PaysItself(db, hash, inv) ==>
           var tx := db.txs[inv];
           && Moved(db, db', b => (if b == tx.app then amount else 0) - (if b == a then amount else 0))
           && db'.nextTx == db.nextTx + 1
           && db'.txs == db.txs[inv := tx.(state := Settled, amount := amount)]
                               [db.nextTx := Tx(a, Outgoing, Settled, amount, 0, 0, hash, tx.preimage)])
      && ((forall inv: Id :: !PaysItself(db, hash, inv)) ==>
           && Moved(db, db', b => if b == a then -(amount + feeReserve) else 0)
           && Added(db, db', Tx(a, Outgoing, Pending, amount, 0, feeReserve, hash, "")))
  {
    forall inv: Id ensures InternalInvoice(db, hash) == Some(inv) <==> PaysItself(db, hash, inv) {
      InternalIff(db, hash, inv);
    }
    hide WellFormed, InternalInvoice, PaysItself, WithinBudget, PayInternally, Hold, Moved, Added;
    match InternalInvoice(db, hash)
    case Some(inv) => PaidInternally(db, a, amount, hash, inv);
    case None => Held(db, a, amount, feeReserve, hash);
  }

  lemma PaidInternally(db: Db, a: Id, amount: int, hash: string, inv: Id)
    requires WellFormed(db) && a in db.apps && inv in db.txs
    ensures var db' := PayInternally(db, a, amount, hash, inv);
            var tx := db.txs[inv];
      && Moved(db, db', b => (if b == tx.app then amount else 0) - (if b == a then amount else 0))
      && db'.nextTx == db.nextTx + 1
      && db'.txs == db.txs[inv := tx.(state := Settled, amount := amount)]
                          [db.nextTx := Tx(a, Outgoing, Settled, amount, 0, 0, hash, tx.preimage)]
  {
    hide Moved, Credit, AddBalance;
    var tx := db.txs[inv];
    var db1 := AddBalance(db, a, -amount);
    assert tx.app in db.apps;
    hide WellFormed;
    MovesOne(db, a, -amount);
    CreditMoves(db1, inv, amount, tx.preimage);
    var db2 := Credit(db1, inv, amount, tx.preimage);
    MovesTwice(db, db1, db2, b => if b == a then -amount else 0, b => if b == tx.app then amount else 0,
               b => (if b == tx.app then amount else 0) - (if b == a then amount else 0));
    RowsOnly(db, db2, Insert(db2, Tx(a, Outgoing, Settled, amount, 0, 0, hash, tx.preimage)),
             b => (if b == tx.app then amount else 0) - (if b == a then amount else 0));
  }

  lemma RowsOnly(db: Db, db1: Db, db2: Db, change: Id -> int)
    requires Moved(db, db1, change) && db2.apps == db1.apps && db2.nextApp == db1.nextApp
    ensures Moved(db, db2, change)
  {
  }

  lemma Held(db: Db, a: Id, amount: int, feeReserve: int, hash: string)
    requires a in db.apps
    ensures var db' := Hold(db, a, amount, feeReserve, hash);
      && Moved(db, db', b => if b == a then -(amount + feeReserve) else 0)
      && Added(db, db', Tx(a, Outgoing, Pending, amount, 0, feeReserve, hash, ""))
  {
  }

  // ---- Settled and failed payments -----------------------------------------------------

  /** A pending payment that succeeded keeps its fee and gives back what the fee left of the reserve; one that
      failed gives back everything; any other row stays. */
  lemma FinalizeExactly(db: Db, id: Id, succeeded: bool, preimage: string, fees: int)
    requires WellFormed(db)
    ensures var op := OpFinalize(id, succeeded, preimage, fees);
      var db' := Perform(db, op);
      && (Outcome(db, op) == Err(NotFound) <==> id !in db.txs)
      && (id !in db.txs || db.txs[id].state != Pending ==> db' == db)
      && (id in db.txs && db.txs[id].state == Pending ==>
           var tx, fee := db.txs[id], if fees > 0 then fees else 0;
           var back := if !succeeded then tx.amount + tx.feeReserve
                       else if tx.feeReserve > fee then tx.feeReserve - fee else 0;
           && Moved(db, db', b => if b == tx.app then back else 0)
           && db'.nextTx == db.nextTx
           && db'.txs == db.txs[id := if succeeded
                                      then Tx(tx.app, tx.kind, Settled, tx.amount, fee, 0, tx.paymentHash, preimage)
                                      else Tx(tx.app, tx.kind, Failed, tx.amount, tx.feesPaid, 0, tx.paymentHash,
                                              tx.preimage)])
  {
    hide WellFormed, Complete, Refund, Moved;
    if id in db.txs && db.txs[id].state == Pending {
      AppOfRow(db, id);
      var tx, fee := db.txs[id], if fees > 0 then fees else 0;
      Completed(db, id, preimage, fee, if tx.feeReserve > fee then tx.feeReserve - fee else 0);
      Refunded(db, id, tx.amount + tx.feeReserve);
    }
  }

  lemma Completed(db: Db, id: Id, preimage: string, fee: int, back: int)
    requires id in db.txs && db.txs[id].app in db.apps && back == Max(0, db.txs[id].feeReserve - fee)
    ensures var tx, db' := db.txs[id], Complete(db, id, preimage, fee);
      && Moved(db, db', b => if b == tx.app then back else 0)
      && db'.nextTx == db.nextTx
      && db'.txs == db.txs[id := tx.(state := Settled, feesPaid := fee, feeReserve := 0, preimage := preimage)]
  {
    hide AddBalance;
    MovesOne(db, db.txs[id].app, Max(0, db.txs[id].feeReserve - fee));
  }

  lemma Refunded(db: Db, id: Id, back: int)
    requires id in db.txs && db.txs[id].app in db.apps && back == db.txs[id].amount + db.txs[id].feeReserve
    ensures var tx, db' := db.txs[id], Refund(db, id);
      && Moved(db, db', b => if b == tx.app then back else 0)
      && db'.nextTx == db.nextTx
      && db'.txs == db.txs[id := tx.(state := Failed, feeReserve := 0)]
  {
    hide AddBalance;
    MovesOne(db, db.txs[id].app, db.txs[id].amount + db.txs[id].feeReserve);
  }

  // ---- Apps and preimages --------------------------------------------------------------

  lemma CreateExactly(db: Db, client: string, wallet: string, cap: int, scopes: seq<string>)
    ensures var op := OpCreate(client, wallet, cap, scopes);
      && (Outcome(db, op) == Err(UniqueViolation) <==>
           exists a :: a in db.apps && (db.apps[a].appPubkey == client || db.apps[a].walletPubkey == wallet))
      && (Outcome(db, op).Ok? ==>
           var db' := Perform(db, op);
           && db'.nextApp == db.nextApp + 1 && db'.apps == db.apps[db.nextApp := App(client, wallet, 0, cap, scopes)]
           && db'.txs == db.txs && db'.nextTx == db.nextTx)
  {
  }

  /** A deleted app goes with its rows; everything else stays, and no key comes back. */
  lemma DeleteExactly(db: Db, client: string)
    ensures var db' := Perform(db, OpDelete(client));
      && db'.nextApp == db.nextApp && db'.nextTx == db.nextTx
      && (forall a :: a in db'.apps <==> a in db.apps && db.apps[a].appPubkey != client)
      && (forall a :: a in db'.apps ==> db'.apps[a] == db.apps[a])
      && (forall id :: id in db'.txs <==> id in db.txs && db.txs[id].app in db'.apps)
      && (forall id :: id in db'.txs ==> db'.txs[id] == db.txs[id])
  {
  }

  lemma SetPreimageExactly(db: Db, hash: string, preimage: string)
    ensures var db' := Perform(db, OpSetPreimage(hash, preimage));
      && db'.apps == db.apps && db'.nextApp == db.nextApp && db'.nextTx == db.nextTx && db'.txs.Keys == db.txs.Keys
      && forall id :: id in db.txs ==>
           db'.txs[id] == if hash != "" && preimage != "" && db.txs[id].paymentHash == hash
                          then db.txs[id].(preimage := preimage) else db.txs[id]
  {
  }
}
