/** The sub-wallet ledger: what each store operation does to the database, as functions on
    database values. Payment hashes, keys and preimages are taken already trimmed and lower-cased. */
module Ledger {
  import opened Wrappers

  type Id = nat

  datatype Kind = Incoming | Outgoing

  datatype TxState = Pending | Settled | Failed

  /** A row of sovran_transactions, without its descriptive columns. Amounts are millisatoshi. */
  datatype Tx = Tx(app: Id, kind: Kind, state: TxState, amount: int, feesPaid: int, feeReserve: int,
                   paymentHash: string, preimage: string)

  /** A row of sovran_apps. */
  datatype App = App(appPubkey: string, walletPubkey: string, balance: int, maxAmountSat: int, scopes: seq<string>)

  /** Both tables and the next value of their AUTOINCREMENT keys. */
  datatype Db = Db(apps: map<Id, App>, txs: map<Id, Tx>, nextApp: Id, nextTx: Id)

  datatype StoreError =
    | InvalidAmount | InvalidTransfer | NotFound | InsufficientBalance | QuotaExceeded | UniqueViolation

  const EMPTY := Db(map[], map[], 1, 1)

  /** Keys stay below the counters, foreign keys resolve and public keys are unique. */
  ghost predicate WellFormed(db: Db) {
    && 0 < db.nextApp && 0 < db.nextTx
    && (forall a :: a in db.apps ==> 0 < a < db.nextApp)
    && (forall id :: id in db.txs ==> 0 < id < db.nextTx && db.txs[id].app in db.apps)
    && (forall a, b :: a in db.apps && b in db.apps && db.apps[a].appPubkey == db.apps[b].appPubkey ==> a == b)
    && (forall a, b :: a in db.apps && b in db.apps && db.apps[a].walletPubkey == db.apps[b].walletPubkey ==> a == b)
  }

  // ---- Queries -------------------------------------------------------------------------

  predicate IsIncoming(tx: Tx, hash: string, pendingOnly: bool) {
    tx.paymentHash == hash && tx.kind == Incoming && (pendingOnly ==> tx.state == Pending)
  }

  /** The matching row with the greatest key below n: ORDER BY id DESC LIMIT 1. */
  function LatestIncoming(txs: map<Id, Tx>, hash: string, pendingOnly: bool, n: Id): (r: Option<Id>)
    ensures r.Some? ==> r.value < n && r.value in txs && IsIncoming(txs[r.value], hash, pendingOnly)
    ensures forall id :: id in txs && id < n && IsIncoming(txs[id], hash, pendingOnly) ==> r.Some? && id <= r.value
  {
    if n == 0 then None
    else if n - 1 in txs && IsIncoming(txs[n - 1], hash, pendingOnly) then Some(n - 1)
    else LatestIncoming(txs, hash, pendingOnly, n - 1)
  }

  /** What a row contributes to a column sum: to an app's ledger balance, or to its spending. */
  datatype Weight = Balance(app: Id) | Spending(app: Id)

  function Weigh(w: Weight, tx: Tx): int {
    if tx.app != w.app then 0
    else
      match w
      case Balance(_) =>
        (match (tx.kind, tx.state)
         case (Incoming, Settled) => tx.amount
         case (Outgoing, Settled) => -(tx.amount + tx.feesPaid)
         case (Outgoing, Pending) => -(tx.amount + tx.feeReserve)
         case _ => 0)
      case Spending(_) =>
        if tx.kind == Outgoing && tx.state != Failed then tx.amount + tx.feesPaid + tx.feeReserve else 0
  }

  function WeightAt(w: Weight, txs: map<Id, Tx>, id: Id): int {
    if id in txs then Weigh(w, txs[id]) else 0
  }

  /** SUM over the rows with keys below n. */
  function Sum(w: Weight, txs: map<Id, Tx>, n: Id): int {
    if n == 0 then 0 else Sum(w, txs, n - 1) + WeightAt(w, txs, n - 1)
  }

  function Total(w: Weight, db: Db): int {
    Sum(w, db.txs, db.nextTx)
  }

  // ---- Row updates ---------------------------------------------------------------------

  /** UPDATE sovran_apps SET balance_msat = balance_msat + delta WHERE id = a. */
  function AddBalance(db: Db, a: Id, delta: int): Db {
    if a in db.apps then db.(apps := db.apps[a := db.apps[a].(balance := db.apps[a].balance + delta)]) else db
  }

  function SetRow(db: Db, id: Id, tx: Tx): Db {
    db.(txs := db.txs[id := tx])
  }

  function Insert(db: Db, tx: Tx): Db {
    db.(txs := db.txs[db.nextTx := tx], nextTx := db.nextTx + 1)
  }

  function TransferRow(a: Id, kind: Kind, amount: int): Tx {
    Tx(a, kind, Settled, amount, 0, 0, "", "")
  }

  // ---- Operations ----------------------------------------------------------------------

  function CreateApp(db: Db, appPubkey: string, walletPubkey: string, maxAmountSat: int, scopes: seq<string>):
      Result<Db, StoreError>
  {
    if exists a :: a in db.apps && (db.apps[a].appPubkey == appPubkey || db.apps[a].walletPubkey == walletPubkey) then
      Err(UniqueViolation)
    else
      Ok(db.(apps := db.apps[db.nextApp := App(appPubkey, walletPubkey, 0, maxAmountSat, scopes)],
             nextApp := db.nextApp + 1))
  }

  /** Rows of a deleted app go with it. */
  function DeleteApp(db: Db, appPubkey: string): Db {
    var apps := map a | a in db.apps && db.apps[a].appPubkey != appPubkey :: db.apps[a];
    db.(apps := apps, txs := map id | id in db.txs && db.txs[id].app in apps :: db.txs[id])
  }

  /** Every check comes before any change. */
  function Transfer(db: Db, from: Option<Id>, to: Option<Id>, amount: int): Result<Db, StoreError> {
    if amount <= 0 then Err(InvalidAmount)
    else if from.None? && to.None? then Err(InvalidTransfer)
    else if from.Some? && from.value !in db.apps then Err(NotFound)
    else if from.Some? && db.apps[from.value].balance < amount then Err(InsufficientBalance)
    else if to.Some? && to.value !in db.apps then Err(NotFound)
    else
      var db1 := if from.None? then db
                 else Insert(AddBalance(db, from.value, -amount), TransferRow(from.value, Outgoing, amount));
      Ok(if to.None? then db1
         else Insert(AddBalance(db1, to.value, amount), TransferRow(to.value, Incoming, amount)))
  }

  function RecordIncoming(db: Db, a: Id, hash: string, amount: int): Result<Db, StoreError> {
    if a !in db.apps then Err(NotFound)
    else Ok(Insert(db, Tx(a, Incoming, Pending, amount, 0, 0, hash, "")))
  }

  /** The row settle_incoming_by_payment_hash would credit, if any. */
  function Creditable(db: Db, hash: string): (r: Option<Id>)
    ensures r.Some? ==> r.value in db.txs && db.txs[r.value].kind == Incoming && db.txs[r.value].state != Settled
  {
    var r := LatestIncoming(db.txs, hash, false, db.nextTx);
    if r.Some? && db.txs[r.value].state != Settled then r else None
  }

  function Credit(db: Db, id: Id, amount: int, preimage: string): Db
    requires id in db.txs
  {
    var tx := db.txs[id];
    SetRow(AddBalance(db, tx.app, amount), id, tx.(state := Settled, amount := amount, preimage := preimage))
  }

  function SettleIncoming(db: Db, hash: string, amount: Option<int>, preimage: string): Db {
    match Creditable(db, hash)
    case None => db
    case Some(id) =>
      Credit(db, id, if amount.Some? then amount.value else db.txs[id].amount,
             if preimage != "" then preimage else db.txs[id].preimage)
  }

  predicate WithinBudget(db: Db, a: Id, needed: int)
    requires a in db.apps
  {
    db.apps[a].maxAmountSat <= 0 || Total(Spending(a), db) + needed <= db.apps[a].maxAmountSat * 1000
  }

  /** The pending invoice of this node that a payment hash would settle internally. */
  function InternalInvoice(db: Db, hash: string): (r: Option<Id>)
    ensures r.Some? ==> r.value in db.txs && db.txs[r.value].kind == Incoming && db.txs[r.value].state == Pending
  {
    if hash == "" then None else LatestIncoming(db.txs, hash, true, db.nextTx)
  }

  /** Payer to payee on the same node: the invoice row is credited, a settled row is added. */
  function PayInternally(db: Db, a: Id, amount: int, hash: string, inv: Id): Db
    requires inv in db.txs
  {
    var preimage := db.txs[inv].preimage;
    Insert(Credit(AddBalance(db, a, -amount), inv, amount, preimage),
           Tx(a, Outgoing, Settled, amount, 0, 0, hash, preimage))
  }

  /** Funds for an external payment leave the balance and a pending row holds them. */
  function Hold(db: Db, a: Id, amount: int, feeReserve: int, hash: string): Db {
    Insert(AddBalance(db, a, -(amount + feeReserve)), Tx(a, Outgoing, Pending, amount, 0, feeReserve, hash, ""))
  }

  function ReserveOutgoing(db: Db, a: Id, amount: int, feeReserve: int, hash: string): Result<Db, StoreError> {
    if a !in db.apps then Err(NotFound)
    else
      match InternalInvoice(db, hash)
      case Some(inv) =>
        if db.apps[a].balance < amount then Err(InsufficientBalance)
        else if !WithinBudget(db, a, amount) then Err(QuotaExceeded)
        else Ok(PayInternally(db, a, amount, hash, inv))
      case None =>
        if db.apps[a].balance < amount + feeReserve then Err(InsufficientBalance)
        else if !WithinBudget(db, a, amount + feeReserve) then Err(QuotaExceeded)
        else Ok(Hold(db, a, amount, feeReserve, hash))
  }

  function Max(x: int, y: int): int { if x >= y then x else y }

  /** A successful payment gives back what the fee left of the reserve. */
  function Complete(db: Db, id: Id, preimage: string, fee: int): Db
    requires id in db.txs
  {
    var tx := db.txs[id];
    SetRow(AddBalance(db, tx.app, Max(0, tx.feeReserve - fee)), id,
           tx.(state := Settled, feesPaid := fee, feeReserve := 0, preimage := preimage))
  }

  /** A failed payment gives everything back. */
  function Refund(db: Db, id: Id): Db
    requires id in db.txs
  {
    var tx := db.txs[id];
    SetRow(AddBalance(db, tx.app, tx.amount + tx.feeReserve), id, tx.(state := Failed, feeReserve := 0))
  }

  function FinalizeOutgoing(db: Db, id: Id, succeeded: bool, preimage: string, feesPaid: int): Result<Db, StoreError> {
    if id !in db.txs then Err(NotFound)
    else if db.txs[id].state != Pending then Ok(db)
    else if succeeded then Ok(Complete(db, id, preimage, Max(0, feesPaid)))
    else Ok(Refund(db, id))
  }

  function SetPreimage(db: Db, hash: string, preimage: string): Db {
    if hash == "" || preimage == "" then db
    else
      db.(txs := map id | id in db.txs ::
                   if db.txs[id].paymentHash == hash then db.txs[id].(preimage := preimage) else db.txs[id])
  }

  // ---- Well-formedness is kept ---------------------------------------------------------

  lemma AddBalanceWellFormed(db: Db, a: Id, delta: int)
    requires WellFormed(db)
    ensures var db' := AddBalance(db, a, delta);
            WellFormed(db') && db'.apps.Keys == db.apps.Keys && db'.txs == db.txs
  {
  }

  lemma AddZero(db: Db, a: Id)
    ensures AddBalance(db, a, 0) == db
  {
    if a in db.apps {
      assert AddBalance(db, a, 0).apps == db.apps;
    }
  }

  lemma InsertWellFormed(db: Db, tx: Tx)
    requires WellFormed(db) && tx.app in db.apps
    ensures WellFormed(Insert(db, tx))
  {
  }

  lemma SetRowWellFormed(db: Db, id: Id, tx: Tx)
    requires WellFormed(db) && id in db.txs && tx.app == db.txs[id].app
    ensures WellFormed(SetRow(db, id, tx))
  {
  }

  lemma CreateWellFormed(db: Db, appPubkey: string, walletPubkey: string, maxAmountSat: int, scopes: seq<string>)
    requires WellFormed(db)
    ensures var r := CreateApp(db, appPubkey, walletPubkey, maxAmountSat, scopes); r.Ok? ==> WellFormed(r.value)
  {
  }

  lemma DeleteWellFormed(db: Db, appPubkey: string)
    requires WellFormed(db)
    ensures WellFormed(DeleteApp(db, appPubkey))
  {
  }

  lemma TransferWellFormed(db: Db, from: Option<Id>, to: Option<Id>, amount: int)
    requires WellFormed(db)
    ensures var r := Transfer(db, from, to, amount); r.Ok? ==> WellFormed(r.value)
  {
    if Transfer(db, from, to, amount).Ok? {
      var db1 := db;
      if from.Some? {
        db1 := AddBalance(db, from.value, -amount);
        AddBalanceWellFormed(db, from.value, -amount);
        InsertWellFormed(db1, TransferRow(from.value, Outgoing, amount));
        db1 := Insert(db1, TransferRow(from.value, Outgoing, amount));
      }
      if to.Some? {
        AddBalanceWellFormed(db1, to.value, amount);
        InsertWellFormed(AddBalance(db1, to.value, amount), TransferRow(to.value, Incoming, amount));
      }
    }
  }

  lemma CreditWellFormed(db: Db, id: Id, amount: int, preimage: string)
    requires WellFormed(db) && id in db.txs
    ensures WellFormed(Credit(db, id, amount, preimage)) && Credit(db, id, amount, preimage).apps.Keys == db.apps.Keys
  {
    var tx := db.txs[id];
    AddBalanceWellFormed(db, tx.app, amount);
    SetRowWellFormed(AddBalance(db, tx.app, amount), id, tx.(state := Settled, amount := amount, preimage := preimage));
  }

  lemma PayInternallyWellFormed(db: Db, a: Id, amount: int, hash: string, inv: Id)
    requires WellFormed(db) && a in db.apps && inv in db.txs
    ensures WellFormed(PayInternally(db, a, amount, hash, inv))
  {
    hide WellFormed, AddBalance, Credit, Insert;
    var db1 := AddBalance(db, a, -amount);
    var preimage := db.txs[inv].preimage;
    AddBalanceWellFormed(db, a, -amount);
    CreditWellFormed(db1, inv, amount, preimage);
    InsertWellFormed(Credit(db1, inv, amount, preimage), Tx(a, Outgoing, Settled, amount, 0, 0, hash, preimage));
  }

  lemma HoldWellFormed(db: Db, a: Id, amount: int, feeReserve: int, hash: string)
    requires WellFormed(db) && a in db.apps
    ensures WellFormed(Hold(db, a, amount, feeReserve, hash))
  {
    hide WellFormed;
    AddBalanceWellFormed(db, a, -(amount + feeReserve));
    InsertWellFormed(AddBalance(db, a, -(amount + feeReserve)), Tx(a, Outgoing, Pending, amount, 0, feeReserve, hash, ""));
  }

  lemma CompleteWellFormed(db: Db, id: Id, preimage: string, fee: int)
    requires WellFormed(db) && id in db.txs
    ensures WellFormed(Complete(db, id, preimage, fee))
  {
    hide WellFormed;
    var tx := db.txs[id];
    var refund := Max(0, tx.feeReserve - fee);
    AddBalanceWellFormed(db, tx.app, refund);
    SetRowWellFormed(AddBalance(db, tx.app, refund), id,
                     tx.(state := Settled, feesPaid := fee, feeReserve := 0, preimage := preimage));
  }

  lemma RefundWellFormed(db: Db, id: Id)
    requires WellFormed(db) && id in db.txs
    ensures WellFormed(Refund(db, id))
  {
    hide WellFormed;
    var tx := db.txs[id];
    AddBalanceWellFormed(db, tx.app, tx.amount + tx.feeReserve);
    SetRowWellFormed(AddBalance(db, tx.app, tx.amount + tx.feeReserve), id, tx.(state := Failed, feeReserve := 0));
  }

  lemma SetPreimageWellFormed(db: Db, hash: string, preimage: string)
    requires WellFormed(db)
    ensures WellFormed(SetPreimage(db, hash, preimage))
  {
  }

  // ---- Sums under row updates ----------------------------------------------------------

  lemma {:induction false} SumSame(w: Weight, txs: map<Id, Tx>, txs': map<Id, Tx>, n: Id)
    requires forall id :: 0 <= id < n ==> WeightAt(w, txs, id) == WeightAt(w, txs', id)
    ensures Sum(w, txs, n) == Sum(w, txs', n)
  {
    if n > 0 { SumSame(w, txs, txs', n - 1); }
  }

  lemma {:induction false} SumUpdate(w: Weight, txs: map<Id, Tx>, id: Id, tx: Tx, n: Id)
    requires id < n
    ensures Sum(w, txs[id := tx], n) == Sum(w, txs, n) - WeightAt(w, txs, id) + Weigh(w, tx)
  {
    if id == n - 1 {
      SumSame(w, txs, txs[id := tx], n - 1);
    } else {
      SumUpdate(w, txs, id, tx, n - 1);
    }
  }

  // ---- The gap between a balance and its rows ------------------------------------------

  /** How much an app's balance exceeds what its rows add up to. */
  ghost function Gap(db: Db, a: Id): int
    requires a in db.apps
  {
    db.apps[a].balance - Total(Balance(a), db)
  }

  /** Spending a reservation would be checked against. */
  ghost function Spent(db: Db, a: Id): int {
    Total(Spending(a), db)
  }

  lemma TotalSetRow(w: Weight, db: Db, id: Id, tx: Tx)
    requires WellFormed(db) && id in db.txs
    ensures Total(w, SetRow(db, id, tx)) == Total(w, db) - Weigh(w, db.txs[id]) + Weigh(w, tx)
  {
    SumUpdate(w, db.txs, id, tx, db.nextTx);
  }

  lemma TotalInsert(w: Weight, db: Db, tx: Tx)
    requires WellFormed(db)
    ensures Total(w, Insert(db, tx)) == Total(w, db) + Weigh(w, tx)
  {
    SumSame(w, db.txs, db.txs[db.nextTx := tx], db.nextTx);
  }

  lemma TotalDelete(w: Weight, db: Db, appPubkey: string)
    requires w.app in DeleteApp(db, appPubkey).apps
    ensures Total(w, DeleteApp(db, appPubkey)) == Total(w, db)
  {
    SumSame(w, db.txs, DeleteApp(db, appPubkey).txs, db.nextTx);
  }

  lemma TotalSetPreimage(w: Weight, db: Db, hash: string, preimage: string)
    ensures Total(w, SetPreimage(db, hash, preimage)) == Total(w, db)
  {
    SumSame(w, db.txs, SetPreimage(db, hash, preimage).txs, db.nextTx);
  }

  lemma {:induction false} SumOfAbsentApp(w: Weight, txs: map<Id, Tx>, n: Id)
    requires forall id :: id in txs ==> txs[id].app != w.app
    ensures Sum(w, txs, n) == 0
  {
    if n > 0 { SumOfAbsentApp(w, txs, n - 1); }
  }
}
