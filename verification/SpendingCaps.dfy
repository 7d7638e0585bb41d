/** The spending cap, step by step: which operations take a wallet past it, and so which runs stay
    within it throughout. */
module SpendingCaps {
  import opened Wrappers
  import opened Ledger
  import opened LedgerRuns

  /** Settled and pending spending is within the cap, if there is one. */
  ghost predicate WithinOwnCap(db: Db, a: Id) {
    a in db.apps ==> WithinCap(db, a, 0)
  }

  /** What an operation adds to the spending of a. */
  function SpendingChange(db: Db, op: Op, a: Id): int {
    match op
    case OpTransfer(from, _, amount) => if Outcome(db, op).Ok? && from == Some(a) then amount else 0
    case OpReserve(payer, amount, feeReserve, hash) =>
      if Outcome(db, op).Err? || payer != a then 0
      else if InternalInvoice(db, hash).Some? then amount
      else amount + feeReserve
    case OpFinalize(id, succeeded, _, fees) =>
      if id !in db.txs || db.txs[id].state != Pending || db.txs[id].app != a then 0
      else if succeeded then Max(0, fees) - db.txs[id].feeReserve
      else -(db.txs[id].amount + db.txs[id].feeReserve)
    case _ => 0
  }

  /** A transfer out of a, or a fee reported for a payment of a, that the rest of the cap does not
      cover: all that is known when the operation is asked for. */
  ghost predicate PassesCap(db: Db, op: Op, a: Id) {
    && (op.OpTransfer? || (op.OpFinalize? && op.succeeded))
    && a in db.apps && db.apps[a].maxAmountSat > 0
    && SpendingChange(db, op, a) != 0
    && Spent(db, a) + SpendingChange(db, op, a) > db.apps[a].maxAmountSat * 1000
  }

  lemma SpendingStep(s: State, op: Op, a: Id)
    requires Inv(s) && Allowed(s, op) && a in s.db.apps && a in Perform(s.db, op).apps
    ensures Spent(Perform(s.db, op), a) == Spent(s.db, a) + SpendingChange(s.db, op, a)
    ensures Perform(s.db, op).apps[a].maxAmountSat == s.db.apps[a].maxAmountSat
  {
    hide WellFormed, Spent, Gap, LatestIncoming, InternalInvoice, Creditable, Sum, Total;
    if Outcome(s.db, op).Ok? {
      match op {
        case OpTransfer(from, to, amount) => TransferBooks(s.db, from, to, amount, a);
        case OpRecord(app, hash, amount) => InsertBooks(s.db, Tx(app, Incoming, Pending, amount, 0, 0, hash, ""), a);
        case OpSettle(_, _, _) => SettleSpending(s.db, op, a);
        case OpReserve(_, _, _, _) => ReserveSpending(s.db, op, a);
        case OpFinalize(_, _, _, _) => FinalizeSpending(s, op, a);
        case OpCreate(p, w, m, scopes) => CreateBooks(s.db, p, w, m, scopes, a); KeptCap(s.db, op, a);
        case OpDelete(p) => DeleteBooks(s.db, p, a);
        case OpSetPreimage(hash, preimage) => SetPreimageBooks(s.db, hash, preimage, a);
      }
    }
  }

  lemma KeptCap(db: Db, op: Op, a: Id)
    requires WellFormed(db) && op.OpCreate? && a in db.apps
    ensures a in Perform(db, op).apps && Perform(db, op).apps[a] == db.apps[a]
  {
  }

  lemma SettleSpending(db: Db, op: Op, a: Id)
    requires WellFormed(db) && op.OpSettle? && a in db.apps && a in Perform(db, op).apps
    ensures Spent(Perform(db, op), a) == Spent(db, a)
    ensures Perform(db, op).apps[a].maxAmountSat == db.apps[a].maxAmountSat
  {
    hide WellFormed, Spent, Gap, Creditable;
    var r := Creditable(db, op.hash);
    if r.Some? {
      CreditBooks(db, r.value, if op.credit.Some? then op.credit.value else db.txs[r.value].amount,
                  if op.preimage != "" then op.preimage else db.txs[r.value].preimage, a);
    }
  }

  lemma ReserveSpending(db: Db, op: Op, a: Id)
    requires WellFormed(db) && op.OpReserve? && Outcome(db, op).Ok? && a in db.apps && a in Perform(db, op).apps
    ensures Spent(Perform(db, op), a) == Spent(db, a) + SpendingChange(db, op, a)
    ensures Perform(db, op).apps[a].maxAmountSat == db.apps[a].maxAmountSat
  {
    hide WellFormed, Spent, Gap, InternalInvoice, Total;
    var inv := InternalInvoice(db, op.hash);
    if inv.Some? {
      PayInternallyBooks(db, op.app, op.amount, op.hash, inv.value, a);
    } else {
      HoldBooks(db, op.app, op.amount, op.feeReserve, op.hash, a);
    }
  }

  lemma FinalizeSpending(s: State, op: Op, a: Id)
    requires Inv(s) && Allowed(s, op) && op.OpFinalize? && Outcome(s.db, op).Ok? && a in s.db.apps
    requires a in Perform(s.db, op).apps
    ensures Spent(Perform(s.db, op), a) == Spent(s.db, a) + SpendingChange(s.db, op, a)
    ensures Perform(s.db, op).apps[a].maxAmountSat == s.db.apps[a].maxAmountSat
  {
    hide WellFormed, Spent, Gap;
    var tx := s.db.txs[op.id];
    assert RowFits(tx);
    if tx.state == Pending {
      if op.succeeded {
        CompleteBooks(s.db, op.id, op.preimage, Max(0, op.feesPaid), a);
      } else {
        RefundBooks(s.db, op.id, a);
      }
    }
  }

  /** From a state within the cap, one operation stays within it exactly unless it is a transfer out or
      a fee that the rest of the cap does not cover. Every reservation stays within it. */
  lemma CapStepIff(s: State, op: Op, a: Id)
    requires Inv(s) && Allowed(s, op) && WithinOwnCap(s.db, a)
    requires a in Perform(s.db, op).apps
    ensures WithinOwnCap(Perform(s.db, op), a) <==> !PassesCap(s.db, op, a)
  {
    hide WellFormed, Spent, Perform, LatestIncoming, Sum, Total, SpendingChange;
    if a in s.db.apps {
      SpendingStep(s, op, a);
      ChangeSign(s, op, a);
      hide Inv, Outcome;
    } else {
      NewAppSpendsNothing(s, op, a);
    }
  }

  /** What an operation that is neither kind adds, if anything, was checked against the cap. */
  lemma ChangeSign(s: State, op: Op, a: Id)
    requires Inv(s) && Allowed(s, op) && a in s.db.apps
    ensures !(op.OpTransfer? || (op.OpFinalize? && op.succeeded)) && s.db.apps[a].maxAmountSat > 0 ==>
              SpendingChange(s.db, op, a) <= 0
              || Spent(s.db, a) + SpendingChange(s.db, op, a) <= s.db.apps[a].maxAmountSat * 1000
  {
    assert op.OpFinalize? && op.id in s.db.txs ==> RowFits(s.db.txs[op.id]);
    hide WellFormed, LatestIncoming, Sum, Total, InternalInvoice, Inv;
  }

  lemma NewAppSpendsNothing(s: State, op: Op, a: Id)
    requires Inv(s) && a in Perform(s.db, op).apps && a !in s.db.apps
    ensures Spent(Perform(s.db, op), a) == 0
  {
    OldAppsOnly(s.db, op, a);
    CreateBooks(s.db, op.appPubkey, op.walletPubkey, op.maxAmountSat, op.scopes, a);
    hide WellFormed, Spent;
  }

  // ---- Whole runs ------------------------------------------------------------------------------

  /** No operation of the run takes a past its cap. */
  ghost predicate NeverPasses(ops: seq<Op>, a: Id) {
    forall i :: 0 <= i < |ops| ==> !TakesPast(ops, i, a)
  }

  /** Operation i takes a past its cap. */
  ghost predicate TakesPast(ops: seq<Op>, i: nat, a: Id)
    requires i < |ops|
  {
    PassesCap(After(ops[..i]).db, ops[i], a)
  }

  /** Every state of the run is within the cap of a. */
  ghost predicate AlwaysWithinCap(ops: seq<Op>, a: Id) {
    forall i :: 0 <= i <= |ops| ==> WithinAt(ops, i, a)
  }

  ghost predicate WithinAt(ops: seq<Op>, i: nat, a: Id)
    requires i <= |ops|
  {
    WithinOwnCap(After(ops[..i]).db, a)
  }

  lemma NeverPassesLast(front: seq<Op>, op: Op, a: Id)
    ensures NeverPasses(front + [op], a) <==> NeverPasses(front, a) && !PassesCap(After(front).db, op, a)
  {
    hide After, PassesCap;
    var ops := front + [op];
    assert forall i :: 0 <= i < |front| ==> ops[..i] == front[..i] && ops[i] == front[i];
    assert forall i :: 0 <= i < |front| ==> TakesPast(ops, i, a) == TakesPast(front, i, a);
    assert ops[..|front|] == front && ops[|front|] == op;
    assert TakesPast(ops, |front|, a) == PassesCap(After(front).db, op, a);
    hide TakesPast;
  }

  lemma AlwaysWithinLast(front: seq<Op>, op: Op, a: Id)
    ensures AlwaysWithinCap(front + [op], a) <==>
            AlwaysWithinCap(front, a) && WithinOwnCap(Perform(After(front).db, op), a)
  {
    hide After, WithinOwnCap, Perform, Legal, Allowed;
    var ops := front + [op];
    Extend(front, op);
    assert ops[..|ops|] == ops;
    assert WithinAt(ops, |ops|, a) == WithinOwnCap(Perform(After(front).db, op), a);
    assert forall i :: 0 <= i <= |front| ==> ops[..i] == front[..i];
    assert forall i :: 0 <= i <= |front| ==> WithinAt(ops, i, a) == WithinAt(front, i, a);
    hide WithinAt;
  }

  /** A run keeps a wallet within its cap in every state exactly when none of its operations is a
      transfer out of that wallet, or a fee for a payment of it, that the rest of the cap does not cover
      at that point. */
  lemma {:induction false} CapIff(ops: seq<Op>, a: Id)
    requires Legal(ops)
    ensures AlwaysWithinCap(ops, a) <==> NeverPasses(ops, a)
  {
    hide *;
    if ops == [] {
      NothingYet(a);
    } else {
      var front, op := ops[..|ops| - 1], ops[|ops| - 1];
      assert front + [op] == ops;
      LegalLast(ops);
      CapIff(front, a);
      InvHolds(front);
      NeverPassesLast(front, op, a);
      AlwaysWithinLast(front, op, a);
      if AlwaysWithinCap(front, a) {
        WithinNow(front, a);
        CapStepAlways(After(front), op, a);
      }
    }
  }

  lemma NothingYet(a: Id)
    ensures AlwaysWithinCap([], a) && NeverPasses([], a)
  {
    var none: seq<Op> := [];
    assert none[..0] == none;
  }

  lemma WithinNow(ops: seq<Op>, a: Id)
    requires AlwaysWithinCap(ops, a)
    ensures WithinOwnCap(After(ops).db, a)
  {
    hide After, WithinOwnCap;
    assert ops[..|ops|] == ops;
    assert WithinAt(ops, |ops|, a);
  }

  lemma LegalLast(ops: seq<Op>)
    requires Legal(ops) && ops != []
    ensures Legal(ops[..|ops| - 1]) && Allowed(After(ops[..|ops| - 1]), ops[|ops| - 1])
  {
    hide After, Allowed;
  }

  lemma CapStepAlways(s: State, op: Op, a: Id)
    requires Inv(s) && Allowed(s, op) && WithinOwnCap(s.db, a)
    ensures WithinOwnCap(Perform(s.db, op), a) <==> !PassesCap(s.db, op, a)
  {
    if a in Perform(s.db, op).apps {
      CapStepIff(s, op, a);
    } else {
      OnlyDeletesRemove(s, op, a);
    }
  }

  lemma OnlyDeletesRemove(s: State, op: Op, a: Id)
    requires a !in Perform(s.db, op).apps
    ensures a !in s.db.apps || op.OpDelete?
  {
    hide LatestIncoming, Sum, Total;
  }
}
