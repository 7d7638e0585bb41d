/** Runs of the ledger: any interleaving of store operations by any number of threads, with any
    number of payments in flight, and what holds in every state such a run reaches. */
module LedgerRuns {
  import opened Wrappers
  import opened Ledger

  datatype Op =
    | OpCreate(appPubkey: string, walletPubkey: string, maxAmountSat: int, scopes: seq<string>)
    | OpDelete(appPubkey: string)
    | OpTransfer(from: Option<Id>, to: Option<Id>, amount: int)
    | OpRecord(app: Id, hash: string, amount: int)
    | OpSettle(hash: string, credit: Option<int>, preimage: string)
    | OpReserve(app: Id, amount: int, feeReserve: int, hash: string)
    | OpFinalize(id: Id, succeeded: bool, preimage: string, feesPaid: int)
    | OpSetPreimage(hash: string, preimage: string)

  function Outcome(db: Db, op: Op): Result<Db, StoreError> {
    match op
    case OpCreate(p, w, m, s) => CreateApp(db, p, w, m, s)
    case OpDelete(p) => Ok(DeleteApp(db, p))
    case OpTransfer(f, t, x) => Transfer(db, f, t, x)
    case OpRecord(a, h, x) => RecordIncoming(db, a, h, x)
    case OpSettle(h, c, p) => Ok(SettleIncoming(db, h, c, p))
    case OpReserve(a, x, r, h) => ReserveOutgoing(db, a, x, r, h)
    case OpFinalize(id, ok, p, f) => FinalizeOutgoing(db, id, ok, p, f)
    case OpSetPreimage(h, p) => Ok(SetPreimage(db, h, p))
  }

  /** An operation that raises leaves the database as it was. */
  function Perform(db: Db, op: Op): Db {
    match Outcome(db, op)
    case Ok(db') => db'
    case Err(_) => db
  }

  /** A database together with what a run has done so far: the payment ids handed out, the invoice
      hashes recorded, per app the fees paid beyond their reserve and the operator transfers out,
      and the incoming rows credited, once for each credit. */
  datatype State = State(db: Db, issued: set<Id>, hashes: set<string>,
                         overrun: map<Id, int>, sent: map<Id, int>, credited: multiset<Id>)

  const INITIAL := State(EMPTY, {}, {}, map[], map[], multiset{})

  function At(m: map<Id, int>, a: Id): int {
    if a in m then m[a] else 0
  }

  /** The incoming row an operation credits on behalf of a payer. */
  function CreditedRow(db: Db, op: Op): Option<Id> {
    if op.OpSettle? then Creditable(db, op.hash)
    else if op.OpReserve? && Outcome(db, op).Ok? then InternalInvoice(db, op.hash)
    else None
  }

  /** How far the fee of a successful payment exceeds what was reserved for it. */
  function Excess(db: Db, op: Op): int {
    if op.OpFinalize? && op.succeeded && op.id in db.txs && db.txs[op.id].state == Pending
    then Max(0, op.feesPaid - db.txs[op.id].feeReserve) else 0
  }

  function OverrunAfter(s: State, op: Op): map<Id, int> {
    if op.OpFinalize? && op.id in s.db.txs
    then s.overrun[s.db.txs[op.id].app := At(s.overrun, s.db.txs[op.id].app) + Excess(s.db, op)] else s.overrun
  }

  function SentAfter(s: State, op: Op): map<Id, int> {
    if op.OpTransfer? && Outcome(s.db, op).Ok? && op.from.Some?
    then s.sent[op.from.value := At(s.sent, op.from.value) + op.amount] else s.sent
  }

  function Step(s: State, op: Op): State {
    var ok := Outcome(s.db, op).Ok?;
    State(
      Perform(s.db, op),
      if op.OpReserve? && ok then s.issued + {s.db.nextTx} else s.issued,
      if op.OpRecord? && ok then s.hashes + {op.hash} else s.hashes,
      OverrunAfter(s, op),
      SentAfter(s, op),
      match CreditedRow(s.db, op) case Some(id) => s.credited + multiset{id} case None => s.credited)
  }

  /** What the callers and the Lightning node guarantee: node amounts are not negative, payments
      are positive, and only ids handed out by a reservation are finalised. */
  predicate Allowed(s: State, op: Op) {
    match op
    case OpRecord(_, _, amount) => amount >= 0
    case OpSettle(_, credit, _) => credit.Some? ==> credit.value >= 0
    case OpReserve(_, amount, feeReserve, _) => amount > 0 && feeReserve >= 0
    case OpFinalize(id, _, _, _) => id in s.issued
    case _ => true
  }

  function After(ops: seq<Op>): State {
    if ops == [] then INITIAL else Step(After(ops[..|ops| - 1]), ops[|ops| - 1])
  }

  predicate Legal(ops: seq<Op>) {
    ops == [] || (Legal(ops[..|ops| - 1]) && Allowed(After(ops[..|ops| - 1]), ops[|ops| - 1]))
  }

  // ---- The invariant -------------------------------------------------------------------

  ghost predicate RowFits(tx: Tx) {
    && tx.amount >= 0 && tx.feesPaid >= 0 && tx.feeReserve >= 0
    && (tx.state == Failed ==> tx.kind == Outgoing)
    && (tx.state == Pending ==> tx.feesPaid == 0)
    && (tx.state == Settled ==> tx.feeReserve == 0)
    && (tx.kind == Incoming ==> tx.feeReserve == 0)
  }

  ghost predicate RowsFit(s: State) {
    forall id :: id in s.db.txs ==> RowFits(s.db.txs[id])
  }

  ghost predicate IssuedFit(s: State) {
    forall id :: id in s.issued ==> id < s.db.nextTx && (id in s.db.txs ==> s.db.txs[id].kind == Outgoing)
  }

  ghost predicate CreditsFit(s: State) {
    forall id :: id in s.credited ==>
      s.credited[id] == 1 && id < s.db.nextTx && (id in s.db.txs ==> s.db.txs[id].state == Settled)
  }

  ghost predicate BalanceFits(s: State, a: Id)
    requires a in s.db.apps
  {
    && s.db.apps[a].balance >= 0
    && At(s.overrun, a) >= 0
    && s.db.apps[a].balance == Total(Balance(a), s.db) + At(s.overrun, a)
  }

  ghost predicate CapFits(s: State, a: Id)
    requires a in s.db.apps
  {
    At(s.sent, a) >= 0 && WithinCap(s.db, a, At(s.overrun, a) + At(s.sent, a))
  }

  ghost predicate WithinCap(db: Db, a: Id, slack: int)
    requires a in db.apps
  {
    db.apps[a].maxAmountSat > 0 ==> Spent(db, a) <= db.apps[a].maxAmountSat * 1000 + slack
  }

  ghost predicate NothingAhead(s: State) {
    forall a :: a >= s.db.nextApp ==> At(s.overrun, a) == 0 && At(s.sent, a) == 0
  }

  ghost predicate Inv(s: State) {
    && WellFormed(s.db)
    && RowsFit(s) && IssuedFit(s) && CreditsFit(s) && NothingAhead(s)
    && (forall a :: a in s.db.apps ==> BalanceFits(s, a) && CapFits(s, a))
  }

  // ---- What each operation does to the books of an app b -------------------------------

  lemma AddBalanceBooks(db: Db, a: Id, delta: int, b: Id)
    requires WellFormed(db) && b in db.apps
    ensures var db' := AddBalance(db, a, delta);
            WellFormed(db') && db'.apps.Keys == db.apps.Keys && db'.txs == db.txs && db'.nextTx == db.nextTx
            && Gap(db', b) == Gap(db, b) + (if a == b then delta else 0) && Spent(db', b) == Spent(db, b)
  {
    AddBalanceWellFormed(db, a, delta);
  }

  lemma InsertBooks(db: Db, tx: Tx, b: Id)
    requires WellFormed(db) && b in db.apps && tx.app in db.apps
    ensures var db' := Insert(db, tx);
            WellFormed(db') && db'.apps == db.apps
            && Gap(db', b) == Gap(db, b) - Weigh(Balance(b), tx) && Spent(db', b) == Spent(db, b) + Weigh(Spending(b), tx)
  {
    InsertWellFormed(db, tx);
    hide WellFormed;
    TotalInsert(Balance(b), db, tx);
    TotalInsert(Spending(b), db, tx);
  }

  lemma SetRowBooks(db: Db, id: Id, tx: Tx, b: Id)
    requires WellFormed(db) && b in db.apps && id in db.txs && tx.app == db.txs[id].app
    ensures var db' := SetRow(db, id, tx);
            WellFormed(db') && db'.apps == db.apps && db'.nextTx == db.nextTx
            && Gap(db', b) == Gap(db, b) + Weigh(Balance(b), db.txs[id]) - Weigh(Balance(b), tx)
            && Spent(db', b) == Spent(db, b) - Weigh(Spending(b), db.txs[id]) + Weigh(Spending(b), tx)
  {
    SetRowWellFormed(db, id, tx);
    hide WellFormed;
    TotalSetRow(Balance(b), db, id, tx);
    TotalSetRow(Spending(b), db, id, tx);
  }

  lemma TransferBooks(db: Db, from: Option<Id>, to: Option<Id>, amount: int, b: Id)
    requires WellFormed(db) && b in db.apps && Transfer(db, from, to, amount).Ok?
    ensures var db' := Transfer(db, from, to, amount).value;
            b in db'.apps && Gap(db', b) == Gap(db, b)
            && Spent(db', b) == Spent(db, b) + (if from == Some(b) then amount else 0)
  {
    hide WellFormed, Gap, Spent;
    var db1 := db;
    if from.Some? {
      TransferLeg(db, from.value, Outgoing, amount, b);
      db1 := Insert(AddBalance(db, from.value, -amount), TransferRow(from.value, Outgoing, amount));
    }
    if to.Some? {
      TransferLeg(db1, to.value, Incoming, amount, b);
    }
  }

  lemma TransferLeg(db: Db, a: Id, kind: Kind, amount: int, b: Id)
    requires WellFormed(db) && a in db.apps && b in db.apps
    ensures var delta := if kind == Incoming then amount else -amount;
            var db' := Insert(AddBalance(db, a, delta), TransferRow(a, kind, amount));
            WellFormed(db') && db'.apps.Keys == db.apps.Keys && Gap(db', b) == Gap(db, b)
            && Spent(db', b) == Spent(db, b) + (if a == b && kind == Outgoing then amount else 0)
  {
    hide WellFormed, Gap, Spent;
    var delta := if kind == Incoming then amount else -amount;
    AddBalanceBooks(db, a, delta, b);
    InsertBooks(AddBalance(db, a, delta), TransferRow(a, kind, amount), b);
  }

  lemma CreditBooks(db: Db, id: Id, amount: int, preimage: string, b: Id)
    requires WellFormed(db) && b in db.apps && id in db.txs
    requires db.txs[id].kind == Incoming && db.txs[id].state != Settled
    ensures var db' := Credit(db, id, amount, preimage);
            WellFormed(db') && db'.apps.Keys == db.apps.Keys
            && Gap(db', b) == Gap(db, b) && Spent(db', b) == Spent(db, b)
  {
    hide WellFormed, Gap, Spent;
    var tx := db.txs[id];
    AddBalanceBooks(db, tx.app, amount, b);
    SetRowBooks(AddBalance(db, tx.app, amount), id, tx.(state := Settled, amount := amount, preimage := preimage), b);
  }

  lemma PayInternallyBooks(db: Db, a: Id, amount: int, hash: string, inv: Id, b: Id)
    requires WellFormed(db) && a in db.apps && b in db.apps && inv in db.txs
    requires db.txs[inv].kind == Incoming && db.txs[inv].state != Settled
    ensures var db' := PayInternally(db, a, amount, hash, inv);
            b in db'.apps && Gap(db', b) == Gap(db, b)
            && Spent(db', b) == Spent(db, b) + (if a == b then amount else 0)
  {
    hide WellFormed, Gap, Spent;
    var preimage := db.txs[inv].preimage;
    var db1 := AddBalance(db, a, -amount);
    AddBalanceBooks(db, a, -amount, b);
    CreditBooks(db1, inv, amount, preimage, b);
    InsertBooks(Credit(db1, inv, amount, preimage), Tx(a, Outgoing, Settled, amount, 0, 0, hash, preimage), b);
  }

  lemma HoldBooks(db: Db, a: Id, amount: int, feeReserve: int, hash: string, b: Id)
    requires WellFormed(db) && a in db.apps && b in db.apps
    ensures var db' := Hold(db, a, amount, feeReserve, hash);
            b in db'.apps && Gap(db', b) == Gap(db, b)
            && Spent(db', b) == Spent(db, b) + (if a == b then amount + feeReserve else 0)
  {
    hide WellFormed, Gap, Spent;
    AddBalanceBooks(db, a, -(amount + feeReserve), b);
    InsertBooks(AddBalance(db, a, -(amount + feeReserve)), Tx(a, Outgoing, Pending, amount, 0, feeReserve, hash, ""), b);
  }

  lemma CompleteBooks(db: Db, id: Id, preimage: string, fee: int, b: Id)
    requires WellFormed(db) && b in db.apps && id in db.txs
    requires db.txs[id].kind == Outgoing && db.txs[id].state == Pending && db.txs[id].feesPaid == 0
    ensures var db' := Complete(db, id, preimage, fee);
            var tx := db.txs[id];
            b in db'.apps
            && Gap(db', b) == Gap(db, b) + (if tx.app == b then Max(0, fee - tx.feeReserve) else 0)
            && Spent(db', b) == Spent(db, b) + (if tx.app == b then fee - tx.feeReserve else 0)
  {
    hide WellFormed, Gap, Spent;
    var tx := db.txs[id];
    var refund := Max(0, tx.feeReserve - fee);
    AddBalanceBooks(db, tx.app, refund, b);
    SetRowBooks(AddBalance(db, tx.app, refund), id,
                tx.(state := Settled, feesPaid := fee, feeReserve := 0, preimage := preimage), b);
  }

  lemma RefundBooks(db: Db, id: Id, b: Id)
    requires WellFormed(db) && b in db.apps && id in db.txs
    requires db.txs[id].kind == Outgoing && db.txs[id].state == Pending && db.txs[id].feesPaid == 0
    ensures var db' := Refund(db, id);
            var tx := db.txs[id];
            b in db'.apps && Gap(db', b) == Gap(db, b)
            && Spent(db', b) == Spent(db, b) - (if tx.app == b then tx.amount + tx.feeReserve else 0)
  {
    hide WellFormed, Gap, Spent;
    var tx := db.txs[id];
    AddBalanceBooks(db, tx.app, tx.amount + tx.feeReserve, b);
    SetRowBooks(AddBalance(db, tx.app, tx.amount + tx.feeReserve), id, tx.(state := Failed, feeReserve := 0), b);
  }

  lemma DeleteBooks(db: Db, appPubkey: string, b: Id)
    requires WellFormed(db) && b in DeleteApp(db, appPubkey).apps
    ensures var db' := DeleteApp(db, appPubkey);
            b in db.apps && db'.apps[b] == db.apps[b] && Gap(db', b) == Gap(db, b) && Spent(db', b) == Spent(db, b)
  {
    TotalDelete(Balance(b), db, appPubkey);
    TotalDelete(Spending(b), db, appPubkey);
  }

  lemma CreateBooks(db: Db, p: string, w: string, m: int, scopes: seq<string>, b: Id)
    requires WellFormed(db) && CreateApp(db, p, w, m, scopes).Ok?
    ensures var db' := CreateApp(db, p, w, m, scopes).value;
            b in db'.apps ==>
              if b in db.apps then Gap(db', b) == Gap(db, b) && Spent(db', b) == Spent(db, b)
              else b == db.nextApp && Gap(db', b) == 0 && Spent(db', b) == 0
  {
    if b == db.nextApp {
      SumOfAbsentApp(Balance(b), db.txs, db.nextTx);
      SumOfAbsentApp(Spending(b), db.txs, db.nextTx);
    }
  }

  lemma SetPreimageBooks(db: Db, hash: string, preimage: string, b: Id)
    requires b in db.apps
    ensures var db' := SetPreimage(db, hash, preimage);
            db'.apps == db.apps && Gap(db', b) == Gap(db, b) && Spent(db', b) == Spent(db, b)
  {
    TotalSetPreimage(Balance(b), db, hash, preimage);
    TotalSetPreimage(Spending(b), db, hash, preimage);
  }

  // ---- The invariant is kept -----------------------------------------------------------

  /** One operation, for one app: its gap grows by the excess fee of its own payment, its balance
      stays non-negative, and its spending stays under the cap up to excess fees and operator
      transfers. */
  ghost predicate StepFits(s: State, op: Op, b: Id)
    requires b in s.db.apps && b in Perform(s.db, op).apps
  {
    var db' := Perform(s.db, op);
    var overrun, sent := At(OverrunAfter(s, op), b), At(SentAfter(s, op), b);
    && db'.apps[b].balance >= 0
    && Gap(db', b) == Gap(s.db, b) + overrun - At(s.overrun, b)
    && overrun >= At(s.overrun, b)
    && sent >= 0 && WithinCap(db', b, overrun + sent)
  }

  lemma TransferStepFits(s: State, op: Op, b: Id)
    requires Inv(s) && op.OpTransfer? && b in s.db.apps && Outcome(s.db, op).Ok?
    ensures b in Perform(s.db, op).apps && StepFits(s, op, b)
  {
    hide WellFormed, Gap, Sum, LatestIncoming;
    assert BalanceFits(s, b) && CapFits(s, b);
    TransferBooks(s.db, op.from, op.to, op.amount, b);
    hide Inv;
  }

  lemma RecordStepFits(s: State, op: Op, b: Id)
    requires Inv(s) && op.OpRecord? && b in s.db.apps && Outcome(s.db, op).Ok?
    ensures b in Perform(s.db, op).apps && StepFits(s, op, b)
  {
    hide WellFormed, Gap, Sum, LatestIncoming;
    assert BalanceFits(s, b) && CapFits(s, b);
    InsertBooks(s.db, Tx(op.app, Incoming, Pending, op.amount, 0, 0, op.hash, ""), b);
    hide Inv;
  }

  lemma SettleStepFits(s: State, op: Op, b: Id)
    requires Inv(s) && op.OpSettle? && Allowed(s, op) && b in s.db.apps
    ensures b in Perform(s.db, op).apps && StepFits(s, op, b)
  {
    hide WellFormed, Gap, Sum, LatestIncoming;
    assert BalanceFits(s, b) && CapFits(s, b);
    var r := Creditable(s.db, op.hash);
    if r.Some? {
      assert RowFits(s.db.txs[r.value]);
      CreditStepFits(s, op, r.value, b);
    } else {
      hide Inv, Creditable;
      assert Perform(s.db, op) == s.db;
    }
  }

  lemma CreditStepFits(s: State, op: Op, id: Id, b: Id)
    requires op.OpSettle? && Allowed(s, op) && b in s.db.apps && Creditable(s.db, op.hash) == Some(id)
    requires WellFormed(s.db) && RowFits(s.db.txs[id]) && BalanceFits(s, b) && CapFits(s, b)
    ensures b in Perform(s.db, op).apps && StepFits(s, op, b)
  {
    hide WellFormed, Gap, Sum, LatestIncoming, Total, Creditable;
    var amount := if op.credit.Some? then op.credit.value else s.db.txs[id].amount;
    var preimage := if op.preimage != "" then op.preimage else s.db.txs[id].preimage;
    CreditBooks(s.db, id, amount, preimage, b);
    CreditedApp(s.db, id, amount, preimage, b);
    assert Perform(s.db, op) == Credit(s.db, id, amount, preimage);
    hide Perform, Credit, Outcome;
    assert OverrunAfter(s, op) == s.overrun && SentAfter(s, op) == s.sent;
  }

  lemma CreditedApp(db: Db, id: Id, amount: int, preimage: string, b: Id)
    requires id in db.txs && b in db.apps && amount >= 0
    ensures var apps := Credit(db, id, amount, preimage).apps;
      b in apps && apps[b].balance >= db.apps[b].balance && apps[b].maxAmountSat == db.apps[b].maxAmountSat
  {
  }

  lemma InternalStepFits(s: State, op: Op, inv: Id, b: Id)
    requires Inv(s) && op.OpReserve? && Allowed(s, op) && b in s.db.apps && Outcome(s.db, op).Ok?
    requires InternalInvoice(s.db, op.hash) == Some(inv)
    ensures b in Perform(s.db, op).apps && StepFits(s, op, b)
  {
    hide WellFormed, Gap, Sum, LatestIncoming;
    assert BalanceFits(s, b) && CapFits(s, b);
    PayInternallyBooks(s.db, op.app, op.amount, op.hash, inv, b);
    hide Inv, InternalInvoice;
    assert WithinBudget(s.db, op.app, op.amount);
    assert Perform(s.db, op) == PayInternally(s.db, op.app, op.amount, op.hash, inv);
  }

  lemma HoldStepFits(s: State, op: Op, b: Id)
    requires Inv(s) && op.OpReserve? && Allowed(s, op) && b in s.db.apps && Outcome(s.db, op).Ok?
    requires InternalInvoice(s.db, op.hash) == None
    ensures b in Perform(s.db, op).apps && StepFits(s, op, b)
  {
    hide WellFormed, Gap, Sum, LatestIncoming;
    assert BalanceFits(s, b) && CapFits(s, b);
    HoldBooks(s.db, op.app, op.amount, op.feeReserve, op.hash, b);
    hide Inv, InternalInvoice;
    assert WithinBudget(s.db, op.app, op.amount + op.feeReserve);
    assert Perform(s.db, op) == Hold(s.db, op.app, op.amount, op.feeReserve, op.hash);
  }

  lemma ReserveStepFits(s: State, op: Op, b: Id)
    requires Inv(s) && op.OpReserve? && Allowed(s, op) && b in s.db.apps && Outcome(s.db, op).Ok?
    ensures b in Perform(s.db, op).apps && StepFits(s, op, b)
  {
    var r := InternalInvoice(s.db, op.hash);
    hide *;
    if r.Some? {
      InternalStepFits(s, op, r.value, b);
    } else {
      HoldStepFits(s, op, b);
    }
  }

  lemma FinalizeStepFits(s: State, op: Op, b: Id)
    requires Inv(s) && op.OpFinalize? && Allowed(s, op) && b in s.db.apps && Outcome(s.db, op).Ok?
    ensures b in Perform(s.db, op).apps && StepFits(s, op, b)
  {
    hide WellFormed, Gap, Sum, LatestIncoming;
    assert BalanceFits(s, b) && CapFits(s, b);
    var tx := s.db.txs[op.id];
    assert RowFits(tx);
    if tx.state == Pending {
      if op.succeeded {
        CompleteBooks(s.db, op.id, op.preimage, Max(0, op.feesPaid), b);
        hide Inv;
      } else {
        RefundBooks(s.db, op.id, b);
        hide Inv;
      }
    } else {
      hide Inv;
    }
  }

  lemma CreateStepFits(s: State, op: Op, b: Id)
    requires Inv(s) && op.OpCreate? && b in s.db.apps && Outcome(s.db, op).Ok?
    ensures b in Perform(s.db, op).apps && StepFits(s, op, b)
  {
    assert b < s.db.nextApp;
    hide WellFormed, Gap, Sum, LatestIncoming;
    assert BalanceFits(s, b) && CapFits(s, b);
    CreateBooks(s.db, op.appPubkey, op.walletPubkey, op.maxAmountSat, op.scopes, b);
    hide Inv;
  }

  lemma DeleteStepFits(s: State, op: Op, b: Id)
    requires Inv(s) && op.OpDelete? && b in s.db.apps && b in Perform(s.db, op).apps
    ensures StepFits(s, op, b)
  {
    hide WellFormed, Gap, Sum, LatestIncoming;
    assert BalanceFits(s, b) && CapFits(s, b);
    DeleteBooks(s.db, op.appPubkey, b);
    hide Inv, DeleteApp;
  }

  lemma SetPreimageStepFits(s: State, op: Op, b: Id)
    requires Inv(s) && op.OpSetPreimage? && b in s.db.apps
    ensures b in Perform(s.db, op).apps && StepFits(s, op, b)
  {
    hide WellFormed, Gap, Sum, LatestIncoming;
    assert BalanceFits(s, b) && CapFits(s, b);
    SetPreimageBooks(s.db, op.hash, op.preimage, b);
    hide Inv, SetPreimage;
  }

  lemma RefusedStepFits(s: State, op: Op, b: Id)
    requires Inv(s) && b in s.db.apps && Outcome(s.db, op).Err?
    ensures StepFits(s, op, b)
  {
    hide WellFormed, Gap, Sum, LatestIncoming;
    assert BalanceFits(s, b) && CapFits(s, b);
    assert op.OpFinalize? ==> op.id !in s.db.txs;
    hide Inv, Outcome, InternalInvoice;
  }

  lemma WellFormedKept(db: Db, op: Op)
    requires WellFormed(db)
    ensures WellFormed(Perform(db, op))
  {
    hide WellFormed;
    match op
    case OpCreate(p, w, m, sc) => CreateWellFormed(db, p, w, m, sc);
    case OpDelete(p) => DeleteWellFormed(db, p);
    case OpTransfer(f, t, x) => TransferWellFormed(db, f, t, x);
    case OpRecord(a, h, x) =>
      if Outcome(db, op).Ok? { InsertWellFormed(db, Tx(a, Incoming, Pending, x, 0, 0, h, "")); }
    case OpSettle(h, c, p) =>
      var r := Creditable(db, h);
      if r.Some? {
        CreditWellFormed(db, r.value, if c.Some? then c.value else db.txs[r.value].amount,
                         if p != "" then p else db.txs[r.value].preimage);
      }
    case OpReserve(a, x, r, h) =>
      if Outcome(db, op).Ok? {
        var inv := InternalInvoice(db, h);
        if inv.Some? { PayInternallyWellFormed(db, a, x, h, inv.value); } else { HoldWellFormed(db, a, x, r, h); }
      }
    case OpFinalize(id, ok, p, f) =>
      if id in db.txs && db.txs[id].state == Pending {
        if ok { CompleteWellFormed(db, id, p, Max(0, f)); } else { RefundWellFormed(db, id); }
      }
    case OpSetPreimage(h, p) => SetPreimageWellFormed(db, h, p);
  }

  /** The part of Allowed that speaks of amounts and row kinds. */
  ghost predicate Sane(db: Db, op: Op) {
    match op
    case OpRecord(_, _, amount) => amount >= 0
    case OpSettle(_, credit, _) => credit.Some? ==> credit.value >= 0
    case OpReserve(_, amount, feeReserve, _) => amount > 0 && feeReserve >= 0
    case OpFinalize(id, _, _, _) => id in db.txs ==> db.txs[id].kind == Outgoing
    case _ => true
  }

  /** How a row of the next database arises: new, unchanged up to its preimage, credited by this
      step, or a pending row finalised by it. So settled rows never move, and no row changes app
      or direction. */
  ghost predicate RowArises(db: Db, op: Op, id: Id)
    requires id in Perform(db, op).txs
  {
    var tx' := Perform(db, op).txs[id];
    if id !in db.txs then
      && id >= db.nextTx && (op.OpReserve? ==> id == db.nextTx && tx'.kind == Outgoing)
      && (tx'.kind == Incoming && tx'.paymentHash != "" ==> op.OpRecord? && id == db.nextTx && tx'.paymentHash == op.hash)
      && (Sane(db, op) ==> RowFits(tx'))
    else
      var tx := db.txs[id];
      && (Sane(db, op) && RowFits(tx) ==> RowFits(tx'))
      && (|| tx' == tx.(preimage := tx'.preimage)
          || (CreditedRow(db, op) == Some(id) && tx.kind == Incoming && tx.state != Settled
              && tx' == tx.(state := Settled, amount := tx'.amount, preimage := tx'.preimage))
          || (op.OpFinalize? && op.id == id && tx.state == Pending && tx'.state != Pending
              && tx' == tx.(state := tx'.state, feesPaid := tx'.feesPaid, feeReserve := 0, preimage := tx'.preimage)))
  }

  lemma TransferRowsArise(db: Db, op: Op, id: Id)
    requires WellFormed(db) && op.OpTransfer? && Outcome(db, op).Ok? && id in Perform(db, op).txs
    ensures RowArises(db, op, id)
  {
    assert forall i :: i in db.txs ==> i < db.nextTx;
    hide WellFormed;
    var db1 := db;
    if op.from.Some? {
      db1 := Insert(AddBalance(db, op.from.value, -op.amount), TransferRow(op.from.value, Outgoing, op.amount));
    }
    assert db1.nextTx >= db.nextTx;
    assert forall i :: i in db1.txs ==>
      if i in db.txs then db1.txs[i] == db.txs[i]
      else i >= db.nextTx && RowFits(db1.txs[i]) && db1.txs[i].paymentHash == "";
  }

  lemma SettleRowsArise(db: Db, op: Op, id: Id)
    requires op.OpSettle? && id in Perform(db, op).txs
    ensures RowArises(db, op, id)
  {
  }

  lemma ReserveRowsArise(db: Db, op: Op, id: Id)
    requires WellFormed(db) && op.OpReserve? && Outcome(db, op).Ok? && id in Perform(db, op).txs
    ensures RowArises(db, op, id)
  {
    assert db.nextTx !in db.txs;
    hide WellFormed;
    var inv := InternalInvoice(db, op.hash);
    if inv.Some? {
      var db' := PayInternally(db, op.app, op.amount, op.hash, inv.value);
      assert Perform(db, op) == db';
    }
  }

  lemma FinalizeRowsArise(db: Db, op: Op, id: Id)
    requires op.OpFinalize? && Outcome(db, op).Ok? && id in Perform(db, op).txs
    ensures RowArises(db, op, id)
  {
  }

  lemma RowsArise(db: Db, op: Op, id: Id)
    requires WellFormed(db) && id in Perform(db, op).txs
    ensures RowArises(db, op, id)
  {
    if Outcome(db, op).Ok? {
      match op
      case OpTransfer(_, _, _) => TransferRowsArise(db, op, id);
      case OpSettle(_, _, _) => SettleRowsArise(db, op, id);
      case OpReserve(_, _, _, _) => ReserveRowsArise(db, op, id);
      case OpFinalize(_, _, _, _) => FinalizeRowsArise(db, op, id);
      case _ =>
    }
  }

  lemma AllowedIsSane(s: State, op: Op)
    requires IssuedFit(s) && Allowed(s, op)
    ensures Sane(s.db, op)
  {
  }

  lemma RowsFitKept(s: State, op: Op)
    requires Inv(s) && Allowed(s, op)
    ensures RowsFit(Step(s, op))
  {
    var s' := Step(s, op);
    AllowedIsSane(s, op);
    forall id | id in s'.db.txs ensures RowFits(s'.db.txs[id]) {
      RowsArise(s.db, op, id);
      if id in s.db.txs { assert RowFits(s.db.txs[id]); }
      hide Inv, RowFits, Perform, CreditedRow;
    }
  }

  lemma IssuedFitKept(s: State, op: Op)
    requires Inv(s)
    ensures IssuedFit(Step(s, op))
  {
    var s' := Step(s, op);
    CountersGrow(s.db, op);
    forall id | id in s'.issued ensures id < s'.db.nextTx && (id in s'.db.txs ==> s'.db.txs[id].kind == Outgoing) {
      if id in s'.db.txs { RowsArise(s.db, op, id); }
      hide Inv, RowFits, Perform, CreditedRow;
    }
  }

  lemma CreditsFitKept(s: State, op: Op)
    requires Inv(s)
    ensures CreditsFit(Step(s, op))
  {
    var s' := Step(s, op);
    CountersGrow(s.db, op);
    forall id | id in s'.credited
      ensures s'.credited[id] == 1 && id < s'.db.nextTx && (id in s'.db.txs ==> s'.db.txs[id].state == Settled)
    {
      if id in s'.db.txs { RowsArise(s.db, op, id); }
    }
  }

  lemma CountersGrow(db: Db, op: Op)
    requires WellFormed(db)
    ensures var db' := Perform(db, op);
            db'.nextTx >= db.nextTx && db'.nextApp >= db.nextApp
            && (op.OpReserve? && Outcome(db, op).Ok? ==> db'.nextTx == db.nextTx + 1 && db.nextTx in db'.txs)
  {
    hide WellFormed, LatestIncoming, Sum;
  }

  /** An app that appears in this step starts with empty books. */
  lemma NewAppFits(s: State, op: Op, b: Id)
    requires Inv(s) && b in Perform(s.db, op).apps && b !in s.db.apps
    ensures var s' := Step(s, op); BalanceFits(s', b) && CapFits(s', b)
  {
    OldAppsOnly(s.db, op, b);
    CreateBooks(s.db, op.appPubkey, op.walletPubkey, op.maxAmountSat, op.scopes, b);
    hide WellFormed, Total;
  }

  lemma OldAppsOnly(db: Db, op: Op, b: Id)
    requires WellFormed(db) && b in Perform(db, op).apps && b !in db.apps
    ensures op.OpCreate? && Outcome(db, op).Ok? && b == db.nextApp
  {
    hide Sum, LatestIncoming;
  }

  lemma EveryStepFits(s: State, op: Op, b: Id)
    requires Inv(s) && Allowed(s, op) && b in s.db.apps && b in Perform(s.db, op).apps
    ensures StepFits(s, op, b)
  {
    hide *;
    if Outcome(s.db, op).Err? {
      RefusedStepFits(s, op, b);
    } else {
      match op
      case OpTransfer(_, _, _) => TransferStepFits(s, op, b);
      case OpRecord(_, _, _) => RecordStepFits(s, op, b);
      case OpSettle(_, _, _) => SettleStepFits(s, op, b);
      case OpReserve(_, _, _, _) => ReserveStepFits(s, op, b);
      case OpFinalize(_, _, _, _) => FinalizeStepFits(s, op, b);
      case OpCreate(_, _, _, _) => CreateStepFits(s, op, b);
      case OpDelete(_) => DeleteStepFits(s, op, b);
      case OpSetPreimage(_, _) => SetPreimageStepFits(s, op, b);
    }
  }

  lemma AppFitsKept(s: State, op: Op, b: Id)
    requires Inv(s) && Allowed(s, op) && b in Step(s, op).db.apps
    ensures var s' := Step(s, op); BalanceFits(s', b) && CapFits(s', b)
  {
    if b !in s.db.apps {
      NewAppFits(s, op, b);
    } else {
      assert BalanceFits(s, b);
      hide Inv, WellFormed, Total, Perform, Excess, CreditedRow, Outcome;
      EveryStepFits(s, op, b);
    }
  }

  lemma NothingAheadKept(s: State, op: Op)
    requires Inv(s)
    ensures NothingAhead(Step(s, op))
  {
    CountersGrow(s.db, op);
    var s' := Step(s, op);
    assert op.OpTransfer? && Outcome(s.db, op).Ok? && op.from.Some? ==> op.from.value in s.db.apps;
    forall a | a >= s'.db.nextApp ensures At(s'.overrun, a) == 0 && At(s'.sent, a) == 0 {
      assert a !in s.db.apps;
      assert At(s.overrun, a) == 0 && At(s.sent, a) == 0;
      assert op.OpFinalize? && op.id in s.db.txs ==> s.db.txs[op.id].app in s.db.apps;
      hide Inv, Perform, Excess, CreditedRow, Outcome;
    }
  }

  lemma InvKept(s: State, op: Op)
    requires Inv(s) && Allowed(s, op)
    ensures Inv(Step(s, op))
  {
    WellFormedKept(s.db, op);
    RowsFitKept(s, op);
    IssuedFitKept(s, op);
    CreditsFitKept(s, op);
    NothingAheadKept(s, op);
    var s' := Step(s, op);
    forall b | b in s'.db.apps ensures BalanceFits(s', b) && CapFits(s', b) {
      AppFitsKept(s, op, b);
    }
    hide WellFormed, RowsFit, IssuedFit, CreditsFit, NothingAhead, BalanceFits, CapFits, Step;
  }

  lemma {:induction false} InvHolds(ops: seq<Op>)
    requires Legal(ops)
    ensures Inv(After(ops))
  {
    if ops != [] {
      InvHolds(ops[..|ops| - 1]);
      InvKept(After(ops[..|ops| - 1]), ops[|ops| - 1]);
    }
  }

  lemma Extend(ops: seq<Op>, op: Op)
    ensures After(ops + [op]) == Step(After(ops), op)
    ensures Legal(ops + [op]) <==> Legal(ops) && Allowed(After(ops), op)
  {
    assert (ops + [op])[..|ops + [op]| - 1] == ops;
  }

  /** The first n operations of a legal run, and one more. */
  lemma {:induction false} LegalPrefix(ops: seq<Op>, n: nat)
    requires Legal(ops) && n < |ops|
    ensures Legal(ops[..n]) && Allowed(After(ops[..n]), ops[n]) && Legal(ops[..n + 1])
    ensures After(ops[..n + 1]) == Step(After(ops[..n]), ops[n])
    ensures After(ops[..n + 1]).db == Perform(After(ops[..n]).db, ops[n])
    decreases |ops|
  {
    hide After, Allowed, Perform;
    if n == |ops| - 1 {
      assert ops[..n + 1] == ops[..n] + [ops[n]] == ops;
      Extend(ops[..n], ops[n]);
    } else {
      var front := ops[..|ops| - 1];
      assert front[..n] == ops[..n] && front[..n + 1] == ops[..n + 1];
      LegalPrefix(front, n);
    }
  }

  // ---- Main results --------------------------------------------------------------------

  /** The operation settles a pending payment of a with a fee above its reserve. */
  predicate OverrunsReserve(db: Db, op: Op, a: Id) {
    Excess(db, op) > 0 && db.txs[op.id].app == a
  }

  /** No step of the run does so. */
  predicate WithinReserves(ops: seq<Op>, a: Id) {
    forall i :: 0 <= i < |ops| ==> !OverrunsReserve(After(ops[..i]).db, ops[i], a)
  }

  lemma WithinReservesLast(front: seq<Op>, op: Op, a: Id)
    ensures WithinReserves(front + [op], a) <==> WithinReserves(front, a) && !OverrunsReserve(After(front).db, op, a)
  {
    hide After, OverrunsReserve;
    var ops := front + [op];
    assert forall i :: 0 <= i < |front| ==> ops[..i] == front[..i] && ops[i] == front[i];
    assert ops[..|front|] == front && ops[|front|] == op;
  }

  /** Excess fees add up to nothing exactly when no payment of a had one. */
  lemma {:induction false} OverrunIff(ops: seq<Op>, a: Id)
    ensures At(After(ops).overrun, a) >= 0
    ensures At(After(ops).overrun, a) == 0 <==> WithinReserves(ops, a)
  {
    if ops != [] {
      hide *;
      var front, op := ops[..|ops| - 1], ops[|ops| - 1];
      assert front + [op] == ops;
      OverrunIff(front, a);
      OverrunStep(After(front), op, a);
      WithinReservesLast(front, op, a);
      Extend(front, op);
    }
  }

  lemma OverrunStep(s: State, op: Op, a: Id)
    requires At(s.overrun, a) >= 0
    ensures At(Step(s, op).overrun, a) >= At(s.overrun, a)
    ensures At(Step(s, op).overrun, a) == At(s.overrun, a) <==> !OverrunsReserve(s.db, op, a)
  {
    hide Perform, Outcome, CreditedRow, SentAfter;
  }

  /** The accounting identity over every interleaving: a balance is never negative, and it equals
      settled incoming minus settled outgoing with fees minus pending outgoing with reserves, plus
      whatever fees exceeded their reserves; so the plain identity holds if and only if no payment of
      the wallet was settled with a fee above its reserve. */
  lemma LedgerIdentity(ops: seq<Op>, a: Id)
    requires Legal(ops) && a in After(ops).db.apps
    ensures var s := After(ops);
            && s.db.apps[a].balance >= 0
            && s.db.apps[a].balance == Total(Balance(a), s.db) + At(s.overrun, a)
            && (s.db.apps[a].balance == Total(Balance(a), s.db) <==> WithinReserves(ops, a))
  {
    InvHolds(ops);
    assert BalanceFits(After(ops), a);
    OverrunIff(ops, a);
  }

  /** The node never reports a fee above the reserve it was given as a limit. */
  predicate FeesWithinReserve(ops: seq<Op>) {
    ops == [] || (FeesWithinReserve(ops[..|ops| - 1]) && Excess(After(ops[..|ops| - 1]).db, ops[|ops| - 1]) == 0)
  }

  lemma {:induction false} NoOverrun(ops: seq<Op>, a: Id)
    requires FeesWithinReserve(ops)
    ensures At(After(ops).overrun, a) == 0
  {
    if ops != [] {
      NoOverrun(ops[..|ops| - 1], a);
      hide Perform, Outcome, CreditedRow;
    }
  }

  /** a makes no operator transfer out. */
  predicate NoTransferOut(ops: seq<Op>, a: Id) {
    forall i :: 0 <= i < |ops| ==> !(ops[i].OpTransfer? && ops[i].from == Some(a))
  }

  lemma {:induction false} NothingSent(ops: seq<Op>, a: Id)
    requires NoTransferOut(ops, a)
    ensures At(After(ops).sent, a) == 0
  {
    if ops != [] {
      assert !(ops[|ops| - 1].OpTransfer? && ops[|ops| - 1].from == Some(a));
      NothingSent(ops[..|ops| - 1], a);
      hide Perform, CreditedRow, Excess;
    }
  }

  lemma ExactIdentity(ops: seq<Op>, a: Id)
    requires Legal(ops) && FeesWithinReserve(ops) && a in After(ops).db.apps
    ensures var db := After(ops).db;
            db.apps[a].balance >= 0 && db.apps[a].balance == Total(Balance(a), db)
  {
    LedgerIdentity(ops, a);
    NoOverrun(ops, a);
  }

  /** The lifetime cap: what an app has spent or holds in reserve never exceeds its cap by more
      than excess fees and operator transfers out. */
  lemma SpendingCap(ops: seq<Op>, a: Id)
    requires Legal(ops) && a in After(ops).db.apps && After(ops).db.apps[a].maxAmountSat > 0
    ensures var s := After(ops);
            Total(Spending(a), s.db) <= s.db.apps[a].maxAmountSat * 1000 + At(s.overrun, a) + At(s.sent, a)
  {
    InvHolds(ops);
    assert CapFits(After(ops), a);
  }

  lemma ExactSpendingCap(ops: seq<Op>, a: Id)
    requires Legal(ops) && FeesWithinReserve(ops) && NoTransferOut(ops, a)
    requires a in After(ops).db.apps && After(ops).db.apps[a].maxAmountSat > 0
    ensures Total(Spending(a), After(ops).db) <= After(ops).db.apps[a].maxAmountSat * 1000
  {
    SpendingCap(ops, a);
    NoOverrun(ops, a);
    NothingSent(ops, a);
  }

  /** No incoming row is credited twice, whoever credits it and however often they try. */
  lemma CreditedAtMostOnce(ops: seq<Op>, id: Id)
    requires Legal(ops)
    ensures After(ops).credited[id] <= 1
  {
    InvHolds(ops);
  }

  /** A credit settles its row and raises the payee's balance by the row's amount; a wallet paying
      its own invoice is debited the same amount in the same step. */
  lemma CreditRaisesPayee(db: Db, op: Op, id: Id)
    requires WellFormed(db) && CreditedRow(db, op) == Some(id)
    ensures var db' := Perform(db, op);
            var a := db.txs[id].app;
            && id in db'.txs && db'.txs[id].state == Settled && db.txs[id].state != Settled
            && a in db'.apps
            && db'.apps[a].balance == db.apps[a].balance + db'.txs[id].amount
                                      - (if op.OpReserve? && op.app == a then op.amount else 0)
  {
    assert db.nextTx !in db.txs && db.txs[id].app in db.apps;
    hide WellFormed, LatestIncoming, Sum;
  }

  /** Key id is spent, and its row, while it exists, is row up to the preimage. */
  ghost predicate Frozen(db: Db, id: Id, row: Tx) {
    id < db.nextTx && (id in db.txs ==> db.txs[id] == row.(preimage := db.txs[id].preimage))
  }

  lemma FrozenKept(s: State, op: Op, id: Id, row: Tx)
    requires Inv(s) && Frozen(s.db, id, row) && row.state != Pending && (row.state == Failed ==> row.kind == Outgoing)
    ensures Frozen(Perform(s.db, op), id, row)
  {
    CountersGrow(s.db, op);
    if id in Perform(s.db, op).txs {
      RowsArise(s.db, op, id);
      hide Inv, Perform, CreditedRow, Outcome;
    }
  }

  /** Settled and failed rows are terminal: whatever runs afterwards only deletes them or fills in
      their preimage, and their keys are never used again. */
  lemma {:induction false} TerminalRows(ops: seq<Op>, more: seq<Op>, id: Id)
    requires Legal(ops + more) && id in After(ops).db.txs && After(ops).db.txs[id].state != Pending
    ensures Legal(ops) && Frozen(After(ops + more).db, id, After(ops).db.txs[id])
  {
    if more == [] {
      assert ops + more == ops;
      InvHolds(ops);
    } else {
      var front, op := more[..|more| - 1], more[|more| - 1];
      assert (ops + more)[..|ops + more| - 1] == ops + front;
      assert (ops + more)[|ops + more| - 1] == op;
      TerminalRows(ops, front, id);
      InvHolds(ops + front);
      InvHolds(ops);
      assert RowFits(After(ops).db.txs[id]);
      FrozenKept(After(ops + front), op, id, After(ops).db.txs[id]);
      hide Inv, Perform, Allowed, Outcome, CreditedRow, OverrunAfter, SentAfter;
    }
  }

  /** Keys are never handed out twice. */
  lemma {:induction false} CountersMonotone(ops: seq<Op>, more: seq<Op>)
    requires Legal(ops + more)
    ensures After(ops + more).db.nextTx >= After(ops).db.nextTx
  {
    if more == [] {
      assert ops + more == ops;
    } else {
      var front, op := more[..|more| - 1], more[|more| - 1];
      assert ops + more == (ops + front) + [op];
      Extend(ops + front, op);
      CountersMonotone(ops, front);
      StepCounters(ops + front, op);
      hide *;
    }
  }

  lemma StepCounters(ops: seq<Op>, op: Op)
    requires Legal(ops)
    ensures Step(After(ops), op).db.nextTx >= After(ops).db.nextTx
  {
    hide After, Legal;
    InvHolds(ops);
    CountersGrow(After(ops).db, op);
    hide Inv, Perform;
  }

  // ---- Wallets that nobody debits ------------------------------------------------------

  /** A wallet by its row and its key. */
  datatype Wallet = Wallet(id: Id, pubkey: string)

  predicate Present(db: Db, b: Wallet) {
    b.id in db.apps && db.apps[b.id].appPubkey == b.pubkey
  }

  /** An operation that takes nothing from b and does not remove it: all that requests without the
      spend scope, and the owners of other wallets, can lead to. */
  predicate NoDebit(op: Op, b: Wallet) {
    match op
    case OpTransfer(from, _, _) => from != Some(b.id)
    case OpReserve(a, _, _, _) => a != b.id
    case OpDelete(p) => p != b.pubkey
    case _ => true
  }

  ghost predicate NotLowered(before: Db, after: Db, b: Wallet)
    requires Present(before, b)
  {
    && Present(after, b)
    && after.apps[b.id].balance >= before.apps[b.id].balance
    && after.apps[b.id].scopes == before.apps[b.id].scopes
  }

  lemma NoDebitStep(s: State, op: Op, b: Wallet)
    requires Inv(s) && Allowed(s, op) && NoDebit(op, b) && Present(s.db, b)
    ensures NotLowered(s.db, Perform(s.db, op), b)
  {
    assert b.id < s.db.nextApp;
    assert op.OpFinalize? && op.id in s.db.txs ==> RowFits(s.db.txs[op.id]);
    assert op.OpSettle? && Creditable(s.db, op.hash).Some? ==> RowFits(s.db.txs[Creditable(s.db, op.hash).value]);
    hide Inv, WellFormed, InternalInvoice, Creditable, Perform, NotLowered, NoDebit;
    match op {
      case OpReserve(_, _, _, _) => NoDebitReserve(s.db, op, b);
      case OpTransfer(_, _, _) => NoDebitTransfer(s.db, op, b);
      case OpSettle(_, _, _) => NoDebitSettle(s.db, op, b);
      case OpFinalize(_, _, _, _) => NoDebitFinalize(s.db, op, b);
      case _ => NoDebitOther(s.db, op, b);
    }
  }

  lemma NoDebitSettle(db: Db, op: Op, b: Wallet)
    requires op.OpSettle? && (op.credit.Some? ==> op.credit.value >= 0) && Present(db, b)
    requires Creditable(db, op.hash).Some? ==> RowFits(db.txs[Creditable(db, op.hash).value])
    ensures NotLowered(db, Perform(db, op), b)
  {
    hide Creditable;
  }

  lemma NoDebitFinalize(db: Db, op: Op, b: Wallet)
    requires op.OpFinalize? && Present(db, b)
    requires op.id in db.txs ==> RowFits(db.txs[op.id])
    ensures NotLowered(db, Perform(db, op), b)
  {
  }

  lemma NoDebitOther(db: Db, op: Op, b: Wallet)
    requires op.OpCreate? || op.OpDelete? || op.OpRecord? || op.OpSetPreimage?
    requires NoDebit(op, b) && Present(db, b) && b.id < db.nextApp
    ensures NotLowered(db, Perform(db, op), b)
  {
  }

  lemma NoDebitReserve(db: Db, op: Op, b: Wallet)
    requires op.OpReserve? && op.amount > 0 && NoDebit(op, b) && Present(db, b)
    ensures NotLowered(db, Perform(db, op), b)
  {
    hide LatestIncoming, Sum, InternalInvoice, Total;
  }

  lemma NoDebitTransfer(db: Db, op: Op, b: Wallet)
    requires op.OpTransfer? && NoDebit(op, b) && Present(db, b)
    ensures NotLowered(db, Perform(db, op), b)
  {
  }

  /** However such operations interleave, b's balance never goes down. */
  lemma {:induction false} NeverLowered(ops: seq<Op>, more: seq<Op>, b: Wallet)
    requires Legal(ops + more) && (forall op :: op in more ==> NoDebit(op, b)) && Present(After(ops).db, b)
    ensures NotLowered(After(ops).db, After(ops + more).db, b)
  {
    if more == [] {
      assert ops + more == ops;
    } else {
      var front, op := more[..|more| - 1], more[|more| - 1];
      assert (ops + more)[..|ops + more| - 1] == ops + front;
      assert (ops + more)[|ops + more| - 1] == op;
      assert op in more && forall o :: o in front ==> o in more;
      NeverLowered(ops, front, b);
      InvHolds(ops + front);
      NoDebitStep(After(ops + front), op, b);
      hide Inv, Perform, Allowed, Outcome, CreditedRow, OverrunAfter, SentAfter, NoDebit;
    }
  }

  /** Once handed out, a payment id stays handed out. */
  lemma {:induction false} IssuedForGood(ops: seq<Op>, more: seq<Op>, id: Id)
    requires id in After(ops).issued
    ensures id in After(ops + more).issued
  {
    if more == [] {
      assert ops + more == ops;
    } else {
      var front := more[..|more| - 1];
      assert (ops + more)[..|ops + more| - 1] == ops + front;
      IssuedForGood(ops, front, id);
      hide Perform, Outcome, CreditedRow, OverrunAfter, SentAfter;
    }
  }

  // ---- Each invoice is credited exactly once -------------------------------------------

  /** Every recorded invoice has a hash of its own, as the node's invoices do. */
  predicate FreshHashes(ops: seq<Op>) {
    ops == [] ||
    (var front, op := ops[..|ops| - 1], ops[|ops| - 1];
     FreshHashes(front) && (op.OpRecord? ==> op.hash != "" && op.hash !in After(front).hashes))
  }

  predicate Credits(db: Db, op: Op, hash: string) {
    var r := CreditedRow(db, op);
    r.Some? && r.value in db.txs && db.txs[r.value].paymentHash == hash
  }

  /** How many operations of the run credited a wallet for the invoice with this hash. */
  function CreditCount(ops: seq<Op>, hash: string): nat {
    if ops == [] then 0
    else CreditCount(ops[..|ops| - 1], hash)
         + (if Credits(After(ops[..|ops| - 1]).db, ops[|ops| - 1], hash) then 1 else 0)
  }

  ghost predicate IsInvoice(db: Db, id: Id, hash: string) {
    id in db.txs && db.txs[id].kind == Incoming && db.txs[id].paymentHash == hash
  }

  /** At most one row carries the hash, only if it was recorded, and it is settled exactly when the
      hash was credited. */
  ghost predicate HashFits(s: State, hash: string, credits: nat) {
    && (forall i, j :: IsInvoice(s.db, i, hash) && IsInvoice(s.db, j, hash) ==> i == j)
    && (forall i :: IsInvoice(s.db, i, hash) ==> hash in s.hashes)
    && credits <= 1
    && (credits == 1 ==> hash in s.hashes)
    && (forall i :: IsInvoice(s.db, i, hash) ==> (s.db.txs[i].state == Settled <==> credits == 1))
  }

  /** An invoice of this hash in the next state, and whether it is settled there. */
  ghost predicate InvoiceArises(db: Db, op: Op, i: Id, hash: string)
    requires IsInvoice(Perform(db, op), i, hash)
  {
    var settled := Perform(db, op).txs[i].state == Settled;
    && (IsInvoice(db, i, hash) || (op.OpRecord? && op.hash == hash && i == db.nextTx && Outcome(db, op).Ok?))
    && (settled <==> CreditedRow(db, op) == Some(i) || (IsInvoice(db, i, hash) && db.txs[i].state == Settled))
  }

  lemma InvoicesArise(s: State, op: Op, i: Id, hash: string)
    requires Inv(s) && Allowed(s, op) && hash != "" && IsInvoice(Perform(s.db, op), i, hash)
    ensures InvoiceArises(s.db, op, i, hash)
  {
    hide LatestIncoming, Sum, WithinBudget, PayInternally, Hold, Transfer;
    RowsArise(s.db, op, i);
    if CreditedRow(s.db, op) == Some(i) { CreditRaisesPayee(s.db, op, i); }
    if Perform(s.db, op).txs[i].state == Settled { SettledOnlyByCredit(s, op, i); }
    hide Inv, CreditedRow;
  }

  lemma HashFitsKept(s: State, op: Op, hash: string, credits: nat)
    requires Inv(s) && Allowed(s, op) && HashFits(s, hash, credits) && hash != ""
    requires op.OpRecord? ==> op.hash != "" && op.hash !in s.hashes
    ensures HashFits(Step(s, op), hash, credits + (if Credits(s.db, op, hash) then 1 else 0))
  {
    hide Inv, Perform, CreditedRow, Outcome, Allowed;
    forall i | IsInvoice(Perform(s.db, op), i, hash) ensures InvoiceArises(s.db, op, i, hash) {
      InvoicesArise(s, op, i, hash);
    }
    CreditedIsUnsettledInvoice(s.db, op);
  }

  /** An invoice becomes settled only by a credit: a recorded one is pending, and a finalised row is
      not an invoice. */
  lemma SettledOnlyByCredit(s: State, op: Op, i: Id)
    requires Inv(s) && Allowed(s, op)
    requires i in Perform(s.db, op).txs
    requires var tx := Perform(s.db, op).txs[i]; tx.kind == Incoming && tx.state == Settled && tx.paymentHash != ""
    ensures CreditedRow(s.db, op) == Some(i) || (i in s.db.txs && s.db.txs[i].state == Settled)
  {
    AllowedIsSane(s, op);
    RowsArise(s.db, op, i);
    hide Inv, CreditedRow, WellFormed;
  }

  lemma CreditedIsUnsettledInvoice(db: Db, op: Op)
    ensures var r := CreditedRow(db, op);
            r.Some? ==> IsInvoice(db, r.value, db.txs[r.value].paymentHash) && db.txs[r.value].state != Settled
                        && !op.OpRecord?
  {
  }

  lemma {:induction false} HashFitsHolds(ops: seq<Op>, hash: string)
    requires Legal(ops) && FreshHashes(ops) && hash != ""
    ensures HashFits(After(ops), hash, CreditCount(ops, hash))
  {
    if ops != [] {
      var front := ops[..|ops| - 1];
      HashFitsHolds(front, hash);
      InvHolds(front);
      HashFitsKept(After(front), ops[|ops| - 1], hash, CreditCount(front, hash));
      hide HashFits, Inv;
    }
  }

  /** However reconciliation, internal payments, retries and deletions interleave, each invoice
      raises a balance in at most one step. */
  lemma InvoiceCreditedAtMostOnce(ops: seq<Op>, hash: string)
    requires Legal(ops) && FreshHashes(ops) && hash != ""
    ensures CreditCount(ops, hash) <= 1
  {
    HashFitsHolds(ops, hash);
  }

  /** And an invoice is settled exactly when it raised a balance in exactly one step of the run. */
  lemma InvoiceCreditedExactlyOnce(ops: seq<Op>, hash: string, id: Id)
    requires Legal(ops) && FreshHashes(ops) && hash != ""
    requires IsInvoice(After(ops).db, id, hash)
    ensures After(ops).db.txs[id].state == Settled <==> CreditCount(ops, hash) == 1
  {
    HashFitsHolds(ops, hash);
  }

  /** Settling again, whatever amount and preimage the node then reports, changes nothing. */
  lemma SettleTwice(db: Db, hash: string, credit: Option<int>, preimage: string, credit': Option<int>, preimage': string)
    ensures var settled := Perform(db, OpSettle(hash, credit, preimage));
            Perform(settled, OpSettle(hash, credit', preimage')) == settled
  {
    var r := Creditable(db, hash);
    var settled := Perform(db, OpSettle(hash, credit, preimage));
    if r.Some? {
      assert forall i :: i in settled.txs <==> i in db.txs;
      assert forall i :: i in db.txs ==> (IsIncoming(settled.txs[i], hash, false) <==> IsIncoming(db.txs[i], hash, false));
      assert LatestIncoming(settled.txs, hash, false, settled.nextTx) == r;
    }
  }

  /** Finalising again, or finalising any row that is no longer pending, changes nothing. */
  lemma FinalizeTwice(db: Db, id: Id, succeeded: bool, preimage: string, fees: int,
                      succeeded': bool, preimage': string, fees': int)
    ensures id in db.txs && db.txs[id].state != Pending ==> Perform(db, OpFinalize(id, succeeded, preimage, fees)) == db
    ensures var done := Perform(db, OpFinalize(id, succeeded, preimage, fees));
            Perform(done, OpFinalize(id, succeeded', preimage', fees')) == done
  {
  }

  // ---- Conservation --------------------------------------------------------------------

  /** The balances of all apps together. */
  ghost function Holdings(apps: map<Id, App>, n: Id): int {
    if n == 0 then 0 else Holdings(apps, n - 1) + (if n - 1 in apps then apps[n - 1].balance else 0)
  }

  lemma {:induction false} HoldingsSame(apps: map<Id, App>, apps': map<Id, App>, n: Id)
    requires forall a :: a < n ==> (a in apps <==> a in apps') && (a in apps ==> apps[a].balance == apps'[a].balance)
    ensures Holdings(apps, n) == Holdings(apps', n)
  {
    if n > 0 { HoldingsSame(apps, apps', n - 1); }
  }

  lemma {:induction false} HoldingsAddBalance(db: Db, a: Id, delta: int, n: Id)
    requires a in db.apps && a < n
    ensures Holdings(AddBalance(db, a, delta).apps, n) == Holdings(db.apps, n) + delta
  {
    if a == n - 1 {
      HoldingsSame(db.apps, AddBalance(db, a, delta).apps, n - 1);
    } else {
      HoldingsAddBalance(db, a, delta, n - 1);
    }
  }

  /** A payment between two wallets of the node, or from a wallet to itself, moves money without
      creating or destroying any. */
  lemma InternalPaymentConserves(db: Db, a: Id, amount: int, feeReserve: int, hash: string)
    requires WellFormed(db) && ReserveOutgoing(db, a, amount, feeReserve, hash).Ok? && InternalInvoice(db, hash).Some?
    ensures Holdings(ReserveOutgoing(db, a, amount, feeReserve, hash).value.apps, db.nextApp)
         == Holdings(db.apps, db.nextApp)
  {
    var payee := db.txs[InternalInvoice(db, hash).value].app;
    assert payee in db.apps && payee < db.nextApp && a < db.nextApp;
    hide WellFormed, LatestIncoming, Sum;
    HoldingsAddBalance(db, a, -amount, db.nextApp);
    HoldingsAddBalance(AddBalance(db, a, -amount), payee, amount, db.nextApp);
  }

  lemma TransferConserves(db: Db, from: Id, to: Id, amount: int)
    requires WellFormed(db) && Transfer(db, Some(from), Some(to), amount).Ok?
    ensures Holdings(Transfer(db, Some(from), Some(to), amount).value.apps, db.nextApp) == Holdings(db.apps, db.nextApp)
  {
    assert from < db.nextApp && to < db.nextApp;
    hide WellFormed;
    HoldingsAddBalance(db, from, -amount, db.nextApp);
    var db1 := Insert(AddBalance(db, from, -amount), TransferRow(from, Outgoing, amount));
    HoldingsAddBalance(db1, to, amount, db.nextApp);
  }

  // ---- Where the conditions are needed -------------------------------------------------

  /** A node that reports a fee above the reserve leaves the wallet with more than its rows
      account for: the difference was paid out of the node's own funds. */
  lemma FeeAboveReserveBreaksIdentity()
    ensures exists ops :: Legal(ops) && 1 in After(ops).db.apps
                          && After(ops).db.apps[1].balance == Total(Balance(1), After(ops).db) + 10_000
  {
    hide After, Legal, Step, HeldPayment, Total, Allowed;
    var ops, op := HeldPayment(), OpFinalize(2, true, "p", 20_000);
    HeldPaymentState();
    OverpaidFee(After(ops), op);
    Extend(ops, op);
    LedgerIdentity(ops + [op], 1);
  }

  lemma OverpaidFee(s: State, op: Op)
    requires op == OpFinalize(2, true, "p", 20_000)
    requires 1 in s.db.apps && s.issued == {2} && At(s.overrun, 1) == 0
    requires 2 in s.db.txs && s.db.txs[2] == Tx(1, Outgoing, Pending, 50_000, 0, 10_000, "h", "")
    ensures Allowed(s, op)
    ensures 1 in Step(s, op).db.apps && At(Step(s, op).overrun, 1) == 10_000
  {
    hide LatestIncoming, Sum;
  }

  /** A wallet funded with 100 sat that has reserved 50 sat and 10 sat for fees. */
  function HeldPayment(): seq<Op> {
    [OpCreate("a", "w", 0, [])] + [OpTransfer(None, Some(1), 100_000)] + [OpReserve(1, 50_000, 10_000, "h")]
  }

  lemma HeldPaymentState()
    ensures Legal(HeldPayment())
    ensures var s := After(HeldPayment());
      && s.db.apps == map[1 := App("a", "w", 40_000, 0, [])] && s.db.nextTx == 3
      && s.db.txs == map[1 := TransferRow(1, Incoming, 100_000),
                         2 := Tx(1, Outgoing, Pending, 50_000, 0, 10_000, "h", "")]
      && s.issued == {2} && At(s.overrun, 1) == 0
  {
    var o1 := OpCreate("a", "w", 0, []);
    var o2 := OpTransfer(None, Some(1), 100_000);
    Extend([], o1);
    Extend([] + [o1], o2);
    assert [] + [o1] == [o1];
    var s2 := After([o1] + [o2]);
    assert s2.db.apps == map[1 := App("a", "w", 100_000, 0, [])];
    assert s2.db.txs == map[1 := TransferRow(1, Incoming, 100_000)] && s2.db.nextTx == 2;
    Extend([o1] + [o2], OpReserve(1, 50_000, 10_000, "h"));
  }

  /** The operator's transfers are not held to the cap. */
  lemma TransferOutPassesCap()
    ensures exists ops :: Legal(ops) && FeesWithinReserve(ops) && 1 in After(ops).db.apps
                          && After(ops).db.apps[1].maxAmountSat == 1 && Total(Spending(1), After(ops).db) == 2_000
  {
    var o1 := OpCreate("a", "w", 1, []);
    var o2 := OpTransfer(None, Some(1), 5_000);
    var o3 := OpTransfer(Some(1), None, 2_000);
    Extend([], o1);
    Extend([] + [o1], o2);
    Extend([] + [o1] + [o2], o3);
    var ops := [] + [o1] + [o2] + [o3];
    var s1 := After([] + [o1]);
    assert s1.db.apps == map[1 := App("a", "w", 0, 1, [])] && s1.db.txs == map[] && s1.db.nextTx == 1;
    var s2 := After([] + [o1] + [o2]);
    assert s2.db.apps == map[1 := App("a", "w", 5_000, 1, [])];
    assert s2.db.txs == map[1 := TransferRow(1, Incoming, 5_000)] && s2.db.nextTx == 2;
    var s3 := After(ops);
    assert s3.db.txs == map[1 := TransferRow(1, Incoming, 5_000), 2 := TransferRow(1, Outgoing, 2_000)] && s3.db.nextTx == 3;
    var w, txs := Spending(1), s3.db.txs;
    assert Sum(w, txs, 1) == 0;
    assert Sum(w, txs, 2) == 0;
    assert Sum(w, txs, 3) == 2_000;
    assert ops[..2] == [o1, o2] && ops[..2][..1] == [o1] && ops[..2][..1][..0] == [];
    assert FeesWithinReserve([]) && FeesWithinReserve([o1]) && FeesWithinReserve([o1, o2]);
  }
}
