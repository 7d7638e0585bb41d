/** The NIP-47 request handlers on top of the store. Between any two store calls of a handler other
    threads may run: Others stands for whatever they do, and its contract is what every handler
    here guarantees in turn. The answers of the Lightning node are inputs. */
module NwcDaemon {
  import opened Wrappers
  import opened Ledger
  import opened LedgerRuns
  import opened LedgerEffects
  import opened NwcStore
  import opened NwcThreads
  import opened Hex

  // ---- Scopes and methods --------------------------------------------------------------

  datatype Method =
    | GetInfo | GetBalance | MakeInvoice | LookupInvoice | ListTransactions | PayInvoice | PayKeysend | Unknown

  /** SCOPE_TO_NIP47_METHODS */
  function MethodsOfScope(scope: string): seq<Method> {
    match scope
    case "get_info" => [GetInfo]
    case "get_balance" => [GetBalance]
    case "make_invoice" => [MakeInvoice]
    case "lookup_invoice" => [LookupInvoice]
    case "list_transactions" => [ListTransactions]
    case "pay_invoice" => [PayInvoice, PayKeysend]
    case _ => []
  }

  method ScopesToNip47Methods(scopes: seq<string>) returns (methods: seq<Method>)
    ensures forall m :: m in methods <==> exists scope :: scope in scopes && m in MethodsOfScope(scope)
    ensures forall i, j :: 0 <= i < j < |methods| ==> methods[i] != methods[j]
  {
    methods := [];
    for k := 0 to |scopes|
      invariant forall m :: m in methods <==> exists scope :: scope in scopes[..k] && m in MethodsOfScope(scope)
      invariant forall i, j :: 0 <= i < j < |methods| ==> methods[i] != methods[j]
    {
      ghost var before := methods;
      var offered := MethodsOfScope(scopes[k]);
      for l := 0 to |offered|
        invariant forall m :: m in methods <==> m in before || m in offered[..l]
        invariant forall i, j :: 0 <= i < j < |methods| ==> methods[i] != methods[j]
      {
        if offered[l] !in methods {
          methods := methods + [offered[l]];
        }
      }
      assert scopes[..k + 1] == scopes[..k] + [scopes[k]];
      assert offered[..|offered|] == offered;
    }
    assert scopes[..|scopes|] == scopes;
  }

  // ---- The node's answers and the responses --------------------------------------------

  datatype LndError = LndError

  datatype Decoded = Decoded(amountMsat: nat, paymentHash: string)

  datatype Payment = Payment(preimage: string, feesPaid: int)

  datatype NodeInvoice = NodeInvoice(settled: bool, amountMsat: nat, preimage: string)

  type Lookup = string -> Result<NodeInvoice, LndError>

  type Secret = s: seq<octet> | |s| == 32 witness seq(32, _ => 0)

  /** What the node answers while one request is handled; drawn is the random preimage a keysend may
      need, digest is SHA-256 in hexadecimal. */
  datatype Node = Node(decode: Result<Decoded, LndError>, pay: Result<Payment, LndError>,
                       created: Result<string, LndError>, lookup: Lookup,
                       drawn: Secret, digest: seq<octet> -> string)

  datatype ErrorCode =
    | NotImplemented | Restricted | Other | NoSuchInvoice | PaymentFailed | Internal | Store(error: StoreError)

  datatype Response =
    | Failed(code: ErrorCode)
    | Info
    | BalanceIs(msat: int)
    | InvoiceMade(row: Id)
    | InvoiceFound(row: Id)
    | Listed
    | Paid(preimage: string, feesPaid: int)

  /** A record of a keysend's tlv_records. */
  datatype Tlv = Tlv(kind: int, value: string)

  /** A decrypted request with its parameters, trimmed and in lower case; an absent one is empty. */
  datatype Request = Request(name: Method, amount: int, invoice: string, hash: string,
                             pubkey: string, preimage: string, tlv: seq<Tlv>)

  /** max(10_000, ceil(amount / 100)) */
  function FeeReserve(amount: int): int {
    Max(10_000, (amount + 99) / 100)
  }

  /** get_app_internal_by_pubkeys */
  function FindApp(apps: map<Id, App>, client: string, wallet: Option<string>, n: Id): (r: Option<Id>)
    ensures r.Some? ==> r.value in apps && apps[r.value].appPubkey == client
                        && (wallet.Some? ==> apps[r.value].walletPubkey == wallet.value)
    ensures r.None? ==> forall a :: a in apps && a < n && apps[a].appPubkey == client ==>
                          wallet.Some? && apps[a].walletPubkey != wallet.value
  {
    if n == 0 then None
    else if n - 1 in apps && apps[n - 1].appPubkey == client && (wallet.None? || apps[n - 1].walletPubkey == wallet.value)
    then Some(n - 1)
    else FindApp(apps, client, wallet, n - 1)
  }

  /** find_tx_for_app by payment hash: the latest such row */
  function FindTx(txs: map<Id, Tx>, a: Id, hash: string, n: Id): (r: Option<Id>)
    ensures r.Some? ==> r.value in txs && txs[r.value].app == a && txs[r.value].paymentHash == hash
    ensures forall id :: id in txs && id < n && txs[id].app == a && txs[id].paymentHash == hash ==>
              r.Some? && id <= r.value
  {
    if n == 0 then None
    else if n - 1 in txs && txs[n - 1].app == a && txs[n - 1].paymentHash == hash then Some(n - 1)
    else FindTx(txs, a, hash, n - 1)
  }

  /** list_pending_incoming: the hashes of the pending invoices of one app, or of all. */
  function PendingHashes(txs: map<Id, Tx>, a: Option<Id>, n: Id): (hashes: seq<string>)
    ensures forall hash :: hash in hashes <==>
      hash != ""
      && exists id :: id in txs && id < n && IsIncoming(txs[id], hash, true) && (a.Some? ==> txs[id].app == a.value)
  {
    if n == 0 then []
    else
      var rest := PendingHashes(txs, a, n - 1);
      if n - 1 in txs && IsIncoming(txs[n - 1], txs[n - 1].paymentHash, true) && txs[n - 1].paymentHash != ""
         && (a.Some? ==> txs[n - 1].app == a.value)
      then rest + [txs[n - 1].paymentHash] else rest
  }

  // ---- What each request leads to ------------------------------------------------------

  /** The settlement that the node's answer calls for, if it reports the invoice settled. */
  function Reconciled(hash: string, answer: Result<NodeInvoice, LndError>): seq<Op> {
    if answer.Ok? && answer.value.settled
    then [OpSettle(hash, Some(answer.value.amountMsat), answer.value.preimage)] else []
  }

  /** The settlements that the node's answers call for, invoice by invoice. */
  function Settlements(hashes: seq<string>, lookup: Lookup): seq<Op> {
    if hashes == [] then []
    else
      var n := |hashes| - 1;
      Settlements(hashes[..n], lookup) + Reconciled(hashes[n], lookup(hashes[n]))
  }

  /** The settlements that a run of reconciliation starting from these tables leads to. */
  function Reconciliation(db: Db, a: Option<Id>, lookup: Lookup): seq<Op> {
    Settlements(PendingHashes(db.txs, a, db.nextTx), lookup)
  }

  /** The preimage that the node reveals for an invoice of its own. */
  function NodePreimage(hash: string, lookup: Lookup): string {
    if lookup(hash).Ok? then lookup(hash).value.preimage else ""
  }

  function LearntPreimage(hash: string, preimage: string): seq<Op> {
    if preimage == "" then [] else [OpSetPreimage(hash, preimage)]
  }

  /** The preimage in the ledger for a payment of a. */
  function KeptPreimage(db: Db, a: Id, hash: string): string {
    var tx := FindTx(db.txs, a, hash, db.nextTx);
    if tx.Some? then db.txs[tx.value].preimage else ""
  }

  /** What a payment's answer from the node does to its row. */
  function Settlement(id: Id, answer: Result<Payment, LndError>): Op {
    if answer.Ok? then OpFinalize(id, true, answer.value.preimage, answer.value.feesPaid)
    else OpFinalize(id, false, "", 0)
  }

  /** The response to an external payment agrees with its row id: settled with the reported fee, or
      failed; a wallet deleted meanwhile took the row with it. */
  ghost predicate Answered(resp: Response, id: Id, txs: map<Id, Tx>, answer: Result<Payment, LndError>) {
    && (resp.Paid? || resp.Failed?)
    && (resp.Paid? ==>
         && answer.Ok? && resp == Paid(answer.value.preimage, answer.value.feesPaid)
         && id in txs && txs[id].kind == Outgoing && txs[id].state == TxState.Settled
         && txs[id].feesPaid == Max(0, resp.feesPaid) && txs[id].preimage == resp.preimage)
    && (resp == Response.Failed(PaymentFailed) ==> answer.Err? && id in txs && txs[id].state == TxState.Failed)
    && (resp.Failed? && resp.code != PaymentFailed ==> id !in txs)
  }

  /** An internal payment is answered with the preimage of the invoice, if the ledger or the node knows
      it; what the node had to be asked for is recorded. */
  ghost predicate AnsweredInternally(resp: Response, rest: seq<Op>, hash: string, lookup: Lookup) {
    && resp.Paid? && resp.feesPaid == 0
    && (rest == [] || (rest == [OpSetPreimage(hash, resp.preimage)] && resp.preimage == NodePreimage(hash, lookup)))
    && (resp.preimage == "" ==> NodePreimage(hash, lookup) == "")
  }

  /** All that a payment does, from the reservation, its first operation, to the response. */
  ghost predicate PaymentMade(before: seq<Op>, after: seq<Op>, did: seq<Op>, reserve: Op, node: Node, resp: Response)
    requires reserve.OpReserve?
  {
    var db := After(before).db;
    && before + [reserve] <= after && [reserve] <= did
    && match Outcome(db, reserve)
       case Err(e) => did == [reserve] && resp == Response.Failed(Store(e))
       case Ok(_) =>
         if InternalInvoice(db, reserve.hash).Some? then AnsweredInternally(resp, did[1..], reserve.hash, node.lookup)
         else did == [reserve, Settlement(db.nextTx, node.pay)]
              && Answered(resp, db.nextTx, After(after).db.txs, node.pay)
  }

  /** The invoice's own amount, else the requested one; none for an unreadable invoice. */
  function InvoiceAmount(request: Request, node: Node): int {
    if request.invoice == "" || node.decode.Err? then 0
    else if node.decode.value.amountMsat != 0 then node.decode.value.amountMsat
    else request.amount
  }

  const PREIMAGE_RECORD := 5482373484

  /** The preimage that the first record of its type holds, if that is one. */
  function TlvPreimage(tlv: seq<Tlv>): string {
    if tlv == [] then ""
    else if tlv[0].kind != PREIMAGE_RECORD then TlvPreimage(tlv[1..])
    else
      var b := FromHex(tlv[0].value);
      if b.Some? && |b.value| == 32 then tlv[0].value else ""
  }

  /** The preimage of a keysend: the one given, else one among its records, else a random one. */
  function KeysendPreimage(request: Request, node: Node): Option<seq<octet>> {
    if request.preimage != "" then
      (if |request.preimage| == 64 then FromHex(request.preimage) else None)
    else
      var text := TlvPreimage(request.tlv);
      if text == "" then Some(node.drawn)
      else if |text| == 64 then FromHex(text)
      else None
  }

  /** The reservation that a request to pay calls for, if it is well formed. */
  function Reservation(a: Id, request: Request, node: Node): Option<Op> {
    match request.name
    case PayInvoice =>
      var amount := InvoiceAmount(request, node);
      if amount <= 0 then None else Some(OpReserve(a, amount, FeeReserve(amount), node.decode.value.paymentHash))
    case PayKeysend =>
      var preimage := KeysendPreimage(request, node);
      if |request.pubkey| != 66 || FromHex(request.pubkey).None? || request.amount <= 0 || preimage.None? then None
      else Some(OpReserve(a, request.amount, FeeReserve(request.amount), node.digest(preimage.value)))
    case _ => None
  }

  ghost predicate Payable(a: Id, request: Request, node: Node, before: seq<Op>, after: seq<Op>, did: seq<Op>,
                          resp: Response) {
    match Reservation(a, request, node)
    case None => resp.Failed? && after == before && did == []
    case Some(reserve) => PaymentMade(before, after, did, reserve, node, resp)
  }

  /** A new invoice is recorded for a, and its preimage when the node reveals it. */
  ghost predicate Invoiced(a: Id, amount: int, node: Node, before: seq<Op>, after: seq<Op>, did: seq<Op>,
                           resp: Response) {
    if amount <= 0 || node.created.Err? then resp.Failed? && after == before && did == []
    else
      var hash := node.created.value;
      var record, row := OpRecord(a, hash, amount), After(before).db.nextTx;
      && before + [record] <= after
      && match Outcome(After(before).db, record)
         case Err(e) => did == [record] && resp == Response.Failed(Store(e))
         case Ok(_) =>
           && did == [record] + LearntPreimage(hash, NodePreimage(hash, node.lookup))
           && resp == InvoiceMade(row) && RowWas(After(after).db, row, a, Incoming, hash)
  }

  /** The hash asked for: given, or read out of the invoice. */
  function AskedHash(request: Request, node: Node): string {
    if request.hash != "" then request.hash
    else if request.invoice != "" && node.decode.Ok? then node.decode.value.paymentHash
    else ""
  }

  /** Answers with the latest row of a for the hash asked for, if there is one, once the pending invoices of
      a are settled as far as they are paid. */
  ghost predicate LookedUp(a: Id, request: Request, node: Node, before: seq<Op>, after: seq<Op>, did: seq<Op>,
                           resp: Response) {
    var db, hash := After(after).db, AskedHash(request, node);
    if request.hash == "" && request.invoice != "" && node.decode.Err? then
      resp == Response.Failed(Internal) && after == before && did == []
    else
      && did == Reconciliation(After(before).db, Some(a), node.lookup)
      && (resp == Response.Failed(NoSuchInvoice) || resp.InvoiceFound?)
      && (resp.InvoiceFound? ==> hash != "" && Some(resp.row) == FindTx(db.txs, a, hash, db.nextTx))
      && (resp.Failed? && hash != "" ==>
            forall id :: id in db.txs && db.txs[id].app == a ==> db.txs[id].paymentHash != hash)
  }

  /** A scope held offers the method. */
  ghost predicate Offered(scopes: seq<string>, name: Method) {
    exists scope :: scope in scopes && name in MethodsOfScope(scope)
  }

  /** The sending methods are offered by the spend scope only. */
  lemma SpendScope(scopes: seq<string>, name: Method)
    requires Offered(scopes, name) && (name == PayInvoice || name == PayKeysend)
    ensures "pay_invoice" in scopes
  {
  }

  /** Each method is offered by exactly one scope. */
  lemma OfferedIff(scopes: seq<string>, name: Method)
    ensures Offered(scopes, name) <==>
      match name
      case GetInfo => "get_info" in scopes
      case GetBalance => "get_balance" in scopes
      case MakeInvoice => "make_invoice" in scopes
      case LookupInvoice => "lookup_invoice" in scopes
      case ListTransactions => "list_transactions" in scopes
      case PayInvoice => "pay_invoice" in scopes
      case PayKeysend => "pay_invoice" in scopes
      case Unknown => false
  {
    assert "pay_invoice" in scopes ==> PayInvoice in MethodsOfScope("pay_invoice");
  }

  /** All that one request does and is answered with: the run grew from before to after, did are the
      operations of the call itself, and app is the wallet's row as it was when the request was accepted. */
  ghost predicate Handled(a: Id, app: App, request: Request, node: Node, before: seq<Op>, after: seq<Op>,
                          did: seq<Op>, resp: Response) {
    if request.name == Unknown then resp == Response.Failed(NotImplemented) && after == before && did == []
    else if !Offered(app.scopes, request.name) then resp == Response.Failed(Restricted) && after == before && did == []
    else
      match request.name
      case GetInfo => resp == Info && after == before && did == []
      case GetBalance =>
        var apps := After(after).db.apps;
        && did == Reconciliation(After(before).db, Some(a), node.lookup)
        && resp == BalanceIs((if a in apps then apps[a] else app).balance)
      case MakeInvoice => Invoiced(a, request.amount, node, before, after, did, resp)
      case LookupInvoice => LookedUp(a, request, node, before, after, did, resp)
      case ListTransactions => did == Reconciliation(After(before).db, Some(a), node.lookup) && resp == Listed
      case _ => Payable(a, request, node, before, after, did, resp)
  }

  /** What the call that marked the event does with it: others run up to start, then the request is
      dispatched, if there is one. */
  ghost predicate Executed(a: Id, app: App, request: Option<Request>, node: Node, t0: Trail, start: Trail, t1: Trail,
                           me: Actor, resp: Response) {
    && Grew(t0, start) && Grew(start, t1) && Grew(t0, t1)
    && match request
       case None => resp == Response.Failed(Other) && Done(t0, t1, me) == []
       case Some(r) => Done(t0, start, me) == []
                       && Handled(a, app, r, node, start.log, t1.log, Done(t0, t1, me), resp)
  }

  // ---- Single steps of the handlers ----------------------------------------------------

  lemma NoSettlements(lookup: Lookup)
    ensures Settlements([], lookup) == []
  {
  }

  lemma SettlementsLast(hashes: seq<string>, i: nat, lookup: Lookup)
    requires i < |hashes|
    ensures Settlements(hashes[..i + 1], lookup)
            == Settlements(hashes[..i], lookup) + Reconciled(hashes[i], lookup(hashes[i]))
  {
    assert hashes[..i + 1][..i] == hashes[..i];
  }

  lemma {:induction false} SettlementCalledFor(hashes: seq<string>, lookup: Lookup, hash: string)
    requires hash in hashes && lookup(hash).Ok? && lookup(hash).value.settled
    ensures OpSettle(hash, Some(lookup(hash).value.amountMsat), lookup(hash).value.preimage) in Settlements(hashes, lookup)
  {
    var n := |hashes| - 1;
    if hash in hashes[..n] { SettlementCalledFor(hashes[..n], lookup, hash); }
  }

  /** Nothing is settled but what is pending and reported settled. */
  lemma {:induction false} OnlyReportedSettled(hashes: seq<string>, lookup: Lookup, op: Op)
    requires op in Settlements(hashes, lookup)
    ensures op.OpSettle? && op.hash in hashes
    ensures var answer := lookup(op.hash);
      answer.Ok? && answer.value.settled && op == OpSettle(op.hash, Some(answer.value.amountMsat), answer.value.preimage)
  {
    var n := |hashes| - 1;
    if op in Settlements(hashes[..n], lookup) { OnlyReportedSettled(hashes[..n], lookup, op); }
  }

  /** Reconciliation pays out: an invoice pending when it starts that the node reports settled is settled by a step
      of the call itself, which makes its wallet richer by what the node reported, unless another
      thread had it settled just before. */
  lemma ReconciledInvoice(t0: Trail, t1: Trail, me: Actor, a: Option<Id>, lookup: Lookup, id: Id, hash: string)
    returns (i: nat)
    requires Consistent(t1) && Grew(t0, t1) && FreshHashes(t1.log) && WellFormed(Tables(t0))
    requires Done(t0, t1, me) == Reconciliation(Tables(t0), a, lookup)
    requires IsInvoice(Tables(t0), id, hash) && Tables(t0).txs[id].state == Pending && hash != ""
    requires a == None || a == Some(Tables(t0).txs[id].app)
    requires lookup(hash).Ok? && lookup(hash).value.settled
    ensures |t0.log| <= i < |t1.log| && t1.actors[i] == me
    ensures PaidAt(t1.log, i, id, hash, lookup(hash).value.amountMsat, lookup(hash).value.preimage)
    ensures id in Tables(t1).txs && id in After(t1.log[..i]).db.txs ==> Tables(t1).txs[id].state == TxState.Settled
  {
    hide After, Legal, FreshHashes, Done, ReservationsFit, PaymentsFit, PaidAt;
    var pending := PendingHashes(Tables(t0).txs, a, Tables(t0).nextTx);
    assert IsIncoming(Tables(t0).txs[id], hash, true) && id < Tables(t0).nextTx;
    assert hash in pending;
    hide PendingHashes;
    SettlementCalledFor(pending, lookup, hash);
    var reported, preimage := lookup(hash).value.amountMsat, lookup(hash).value.preimage;
    i := DoneAt(t0, t1, me, OpSettle(hash, Some(reported), preimage));
    ReportSettles(t1.log, i, id, hash, reported, preimage);
    if id in After(t1.log[..i]).db.txs {
      assert t1.log[..|t0.log|] == t0.log;
      RowStays(t1.log, |t0.log|, i, id, Tables(t0).txs[id].app, Incoming, hash);
      ReportedStaysSettled(t1.log, i, id, hash, reported, preimage);
    }
  }

  /** id is a's latest row with this hash. */
  ghost predicate LatestRow(db: Db, a: Id, hash: string, id: Id) {
    && id in db.txs && db.txs[id].app == a && db.txs[id].paymentHash == hash
    && forall j: Id :: j in db.txs && db.txs[j].app == a && db.txs[j].paymentHash == hash ==> j <= id
  }

  lemma LatestRowFound(db: Db, a: Id, hash: string, id: Id)
    requires WellFormed(db) && LatestRow(db, a, hash, id)
    ensures id in db.txs && FindTx(db.txs, a, hash, db.nextTx) == Some(id) && KeptPreimage(db, a, hash) == db.txs[id].preimage
  {
    hide FindTx;
  }

  /** A lookup that can be answered names the asking wallet's latest row for the hash given, else for that of the
      invoice given. */
  lemma LookedUpRow(a: Id, app: App, request: Request, node: Node, before: seq<Op>, after: seq<Op>,
                    did: seq<Op>, resp: Response, id: Id)
    requires request.name == LookupInvoice && Offered(app.scopes, LookupInvoice)
    requires Handled(a, app, request, node, before, after, did, resp) && WellFormed(After(after).db)
    ensures request.hash != "" && LatestRow(After(after).db, a, request.hash, id) ==> resp == InvoiceFound(id)
    ensures request.hash == "" && request.invoice != "" && node.decode.Ok? ==>
              var hash := node.decode.value.paymentHash;
              hash != "" && LatestRow(After(after).db, a, hash, id) ==> resp == InvoiceFound(id)
  {
    hide After, FindTx, Reconciliation;
    var db, hash := After(after).db, AskedHash(request, node);
    if LatestRow(db, a, hash, id) { LatestRowFound(db, a, hash, id); }
    hide WellFormed;
  }

  /** A request for an invoice of a positive amount records one of that amount for the asking wallet, under the hash
      of the invoice the node made, and the preimage when the node gives it away. */
  lemma InvoiceRecorded(a: Id, app: App, request: Request, node: Node, before: seq<Op>, after: seq<Op>,
                        did: seq<Op>, resp: Response)
    requires request.name == MakeInvoice && Offered(app.scopes, MakeInvoice) && request.amount > 0 && node.created.Ok?
    requires Handled(a, app, request, node, before, after, did, resp)
    ensures var hash := node.created.value;
            var record, known := OpRecord(a, hash, request.amount), node.lookup(hash);
      && before + [record] <= after
      && (a !in After(before).db.apps ==> did == [record] && resp == Response.Failed(Store(NotFound)))
      && (a in After(before).db.apps ==>
           && did == (if known.Ok? && known.value.preimage != "" then [record, OpSetPreimage(hash, known.value.preimage)]
                      else [record])
           && resp == InvoiceMade(After(before).db.nextTx))
  {
    hide After, RowWas;
  }

  // ---- What a payment is charged --------------------------------------------------------

  /** The reserve kept for fees is at least 10 sat and a hundredth of the amount, and no more than needed. */
  lemma ReserveForFees(amount: int)
    ensures var r := FeeReserve(amount); r >= 10_000 && 100 * r >= amount && (r > 10_000 ==> 100 * (r - 1) < amount)
  {
  }

  /** reserve is the first operation of the call: amount and a fee reserve for wallet a under this hash. */
  ghost predicate Charged(did: seq<Op>, a: Id, amount: int, hash: string) {
    && |did| >= 1 && did[0].OpReserve?
    && did[0].app == a && did[0].amount == amount && did[0].hash == hash
    && did[0].feeReserve >= 10_000 && 100 * did[0].feeReserve >= amount
    && (did[0].feeReserve > 10_000 ==> 100 * (did[0].feeReserve - 1) < amount)
    && forall k :: 1 <= k < |did| ==> !did[k].OpReserve?
  }

  lemma PaymentCharges(before: seq<Op>, after: seq<Op>, did: seq<Op>, reserve: Op, node: Node, resp: Response)
    requires reserve.OpReserve? && reserve.feeReserve == FeeReserve(reserve.amount)
    requires PaymentMade(before, after, did, reserve, node, resp)
    ensures Charged(did, reserve.app, reserve.amount, reserve.hash)
  {
    hide After, Outcome, InternalInvoice, Answered;
    ReserveForFees(reserve.amount);
    hide FeeReserve;
    assert did[0] == reserve;
    assert |did| >= 2 ==> did[1] == did[1..][0];
    assert |did| <= 2;
  }

  /** An invoice that names an amount is charged that amount, whatever the request says; one that names none
      is charged what the request says; with neither, and for a missing or unreadable invoice, nothing is done. */
  lemma InvoiceCharged(a: Id, app: App, request: Request, node: Node, before: seq<Op>, after: seq<Op>,
                       did: seq<Op>, resp: Response)
    requires request.name == PayInvoice && Offered(app.scopes, PayInvoice)
    requires Handled(a, app, request, node, before, after, did, resp)
    ensures request.invoice != "" && node.decode.Ok? && node.decode.value.amountMsat > 0 ==>
              Charged(did, a, node.decode.value.amountMsat, node.decode.value.paymentHash)
    ensures request.invoice != "" && node.decode.Ok? && node.decode.value.amountMsat == 0 && request.amount > 0 ==>
              Charged(did, a, request.amount, node.decode.value.paymentHash)
    ensures request.invoice == "" || node.decode.Err? || (node.decode.value.amountMsat == 0 && request.amount <= 0) ==>
              did == [] && after == before && resp.Failed?
  {
    hide PaymentMade, Charged, FeeReserve;
    var r := Reservation(a, request, node);
    if r.Some? { PaymentCharges(before, after, did, r.value, node, resp); }
  }

  /** A keysend with a key of 66 digits and a positive amount is charged that amount under the hash of the preimage
      given, else of the one in the first record of the preimage type, else of the one drawn; anything else does
      nothing. */
  lemma KeysendCharged(a: Id, app: App, request: Request, node: Node, before: seq<Op>, after: seq<Op>,
                       did: seq<Op>, resp: Response)
    requires request.name == PayKeysend && Offered(app.scopes, PayKeysend)
    requires Handled(a, app, request, node, before, after, did, resp)
    ensures |request.pubkey| != 66 || FromHex(request.pubkey).None? || request.amount <= 0
            || (request.preimage != "" && (|request.preimage| != 64 || FromHex(request.preimage).None?)) ==>
              did == [] && after == before && resp.Failed?
    ensures |request.pubkey| == 66 && FromHex(request.pubkey).Some? && request.amount > 0 ==>
              && (|request.preimage| == 64 && FromHex(request.preimage).Some? ==>
                   Charged(did, a, request.amount, node.digest(FromHex(request.preimage).value)))
              && (forall k :: request.preimage == "" && FirstRecord(request.tlv, k) ==>
                   if !HoldsPreimage(request.tlv[k]) then Charged(did, a, request.amount, node.digest(node.drawn))
                   else if |request.tlv[k].value| == 64 then
                     Charged(did, a, request.amount, node.digest(FromHex(request.tlv[k].value).value))
                   else did == [] && after == before && resp.Failed?)
              && (request.preimage == "" && (forall k :: 0 <= k < |request.tlv| ==> request.tlv[k].kind != 5482373484) ==>
                   Charged(did, a, request.amount, node.digest(node.drawn)))
  {
    assert FromHex("") == Some([]);
    hide PaymentMade, Charged, FeeReserve, FromHex, TlvPreimage;
    var r := Reservation(a, request, node);
    if r.Some? { PaymentCharges(before, after, did, r.value, node, resp); }
    RecordDecides(request.tlv);
  }

  predicate HoldsPreimage(rec: Tlv) {
    FromHex(rec.value).Some? && |FromHex(rec.value).value| == 32
  }

  /** k is the first record of the preimage type. */
  predicate FirstRecord(tlv: seq<Tlv>, k: int) {
    0 <= k < |tlv| && tlv[k].kind == 5482373484 && forall l :: 0 <= l < k ==> tlv[l].kind != 5482373484
  }

  lemma {:induction false} RecordDecides(tlv: seq<Tlv>)
    ensures forall k :: FirstRecord(tlv, k) ==>
              TlvPreimage(tlv) == (if HoldsPreimage(tlv[k]) then tlv[k].value else "")
    ensures (forall k :: 0 <= k < |tlv| ==> tlv[k].kind != 5482373484) ==> TlvPreimage(tlv) == ""
  {
    if tlv != [] {
      RecordDecides(tlv[1..]);
      forall k | FirstRecord(tlv, k) && k > 0 ensures FirstRecord(tlv[1..], k - 1) && tlv[1..][k - 1] == tlv[k] {
        assert forall l :: 0 <= l < k - 1 ==> tlv[1..][l] == tlv[l + 1];
      }
    }
  }

  lemma ReservedInFlight(before: seq<Op>, op: Op)
    requires op.OpReserve? && Outcome(After(before).db, op).Ok? && InternalInvoice(After(before).db, op.hash).None?
    ensures InFlight(After(before + [op]).db, After(before).db.nextTx)
  {
    Extend(before, op);
  }

  lemma FinalizedRow(db: Db, id: Id, succeeded: bool, preimage: string, fees: int)
    requires InFlight(db, id)
    ensures match FinalizeOutgoing(db, id, succeeded, preimage, fees)
            case Ok(db') =>
              && id in db'.txs && db'.txs[id].kind == Outgoing
              && db'.txs[id].state == (if succeeded then TxState.Settled else TxState.Failed)
              && (succeeded ==> db'.txs[id].feesPaid == Max(0, fees) && db'.txs[id].preimage == preimage)
            case Err(_) => id !in db.txs
  {
  }

  lemma RecordedRow(db: Db, a: Id, hash: string, amount: int)
    requires a in db.apps
    ensures RowWas(Perform(db, OpRecord(a, hash, amount)), db.nextTx, a, Incoming, hash)
  {
  }

  lemma ThisWallet(db: Db, a: Id)
    requires WellFormed(db) && a in db.apps
    ensures WalletWas(db, a, db.apps[a].scopes)
  {
  }

  lemma ExecutedSince(a: Id, app: App, request: Option<Request>, node: Node, t0: Trail, t1: Trail, t2: Trail,
                      start: Trail, t3: Trail, w: Watch, me: Actor, resp: Response)
    requires Steps(t0, t1, Joined(w, me)) && Steps(t1, t2, w) && Done(t1, t2, me) == []
    requires Executed(a, app, request, node, t2, start, t3, me, resp)
    ensures Executed(a, app, request, node, t0, start, t3, me, resp)
  {
    hide AllPolite, EventsKept, Handled;
    DoneByOthers(t0, t1, Joined(w, me), me);
    DoneGrows(t0, t1, t2, me);
    DoneGrows(t0, t2, start, me);
    DoneGrows(t0, t2, t3, me);
    hide Done;
    assert Done(t0, start, me) == Done(t2, start, me);
    assert Done(t0, t3, me) == Done(t2, t3, me);
  }

  class Daemon {
    const store: NwcStore
    ghost var actors: seq<Actor>
    ghost var owner: map<string, Actor>
    ghost var claims: set<string>

    constructor (store: NwcStore)
      requires store.Valid() && Legal(store.log)
      ensures this.store == store && Ready()
      ensures forall i :: 0 <= i < |actors| ==> actors[i] == Restored
    {
      hide WellFormed, After, Legal;
      this.store := store;
      actors, owner, claims := seq(|store.log|, _ => Restored), map[], {};
    }

    ghost function Now(): Trail
      reads this, store
    {
      Trail(store.log, actors, store.processed, owner, claims)
    }

    /** The store is consistent, and so is what the calls did to it. */
    ghost predicate Ready()
      reads this, store
    {
      store.Valid() && Consistent(Now())
    }

    /** Any number of steps of other threads. */
    method Others(ghost w: Watch)
      requires Ready()
      modifies this, store
      ensures Ready() && Steps(old(Now()), Now(), w)
    {
      NoSteps(Now(), w);
    }

    /** The operation just performed was this call's. */
    ghost method Sign(t: Trail, op: Op, me: Actor, w: Watch)
      requires store.Valid() && Consistent(t) && me !in w.calls
      requires Permitted(t, op, me) && Harmless(Tables(t), op, w)
      requires Now() == t.(log := t.log + [op])
      modifies this`actors
      ensures Ready() && Now() == Then(t, op, me) && Steps(t, Now(), w) && Done(t, Now(), me) == [op]
    {
      hide ReservationsFit, PaymentsFit, AllPolite, EventsKept, Done, Legal, Allowed, Harmless, MayReserve, Pays;
      actors := actors + [me];
      ThenConsistent(t, op, me);
      ThenSteps(t, op, me, w);
      DoneOnce(t, op, me);
    }

    /** The call's event leaves the events to be dispatched. */
    ghost method Dispatch(event: string, me: Actor, w: Watch)
      requires Ready() && Claims(Now(), me) && me.event == Some(event) && me !in w.calls
      modifies this`claims
      ensures Ready() && Now() == Dispatched(old(Now()), event) && MayReserve(Now(), me)
      ensures Steps(old(Now()), Now(), w) && Done(old(Now()), Now(), me) == []
    {
      DispatchSteps(Now(), event, me, w);
      hide ReservationsFit, PaymentsFit, AllPolite, EventsKept, Done, Legal, Claims, MayReserve;
      claims := claims - {event};
    }

    /** Every invoice pending at the start that the node reports settled is settled, and nothing else is
        done. */
    method ReconcilePendingInvoices(a: Option<Id>, lookup: Lookup, ghost me: Actor, ghost w: Watch)
      requires Ready() && me.Call? && me !in w.calls
      modifies this, store
      ensures Ready() && Steps(old(Now()), Now(), w)
      ensures Done(old(Now()), Now(), me) == Reconciliation(old(store.Tables()), a, lookup)
    {
      hide WellFormed, After, Legal, ReservationsFit, PaymentsFit, AllPolite, EventsKept, Done, PendingHashes,
           Settlements;
      ghost var t0 := Now();
      NothingDone(t0, w, me);
      var pending := PendingHashes(store.txs, a, store.nextTx);
      NoSettlements(lookup);
      for i := 0 to |pending|
        invariant Ready() && Steps(t0, Now(), w)
        invariant Done(t0, Now(), me) == Settlements(pending[..i], lookup)
      {
        ghost var t1 := Now();
        Others(Joined(w, me));
        ghost var t2 := Now();
        ReconcileOne(pending[i], lookup(pending[i]), me, w);
        OthersFirst(t1, t2, Now(), w, me);
        InTurn(t0, t1, Now(), w, me);
        SettlementsLast(pending, i, lookup);
      }
      assert pending[..|pending|] == pending;
    }

    method ReconcileOne(hash: string, answer: Result<NodeInvoice, LndError>, ghost me: Actor, ghost w: Watch)
      requires Ready() && me.Call? && me !in w.calls
      modifies this, store
      ensures Ready() && Steps(old(Now()), Now(), w)
      ensures Done(old(Now()), Now(), me) == Reconciled(hash, answer)
    {
      hide WellFormed, After, Legal, Outcome, ReservationsFit, PaymentsFit, AllPolite, EventsKept, Done;
      ghost var t := Now();
      if answer.Ok? && answer.value.settled {
        var _, _ := store.SettleIncomingByPaymentHash(hash, Some(answer.value.amountMsat), answer.value.preimage);
        Sign(t, OpSettle(hash, Some(answer.value.amountMsat), answer.value.preimage), me, w);
      } else {
        NothingDone(t, w, me);
      }
    }

    /** Completes a wallet-to-wallet payment with the preimage of the invoice, from the ledger or
        from the node. */
    method FinishInternalPayment(a: Id, hash: string, lookup: Lookup, ghost me: Actor, ghost w: Watch)
      returns (resp: Response)
      requires Ready() && me.Call? && me !in w.calls
      modifies this, store
      ensures Ready() && Steps(old(Now()), Now(), w)
      ensures forall id: Id :: LatestRow(old(store.Tables()), a, hash, id) && old(store.txs)[id].preimage != "" ==>
                resp == Paid(old(store.txs)[id].preimage, 0) && Done(old(Now()), Now(), me) == []
      ensures var kept, learnt := KeptPreimage(old(store.Tables()), a, hash), NodePreimage(hash, lookup);
              && resp == Paid(if kept != "" then kept else learnt, 0)
              && Done(old(Now()), Now(), me) == (if kept != "" then [] else LearntPreimage(hash, learnt))
    {
      hide WellFormed, After, Legal, Outcome, ReservationsFit, PaymentsFit, AllPolite, EventsKept, Done, FindTx,
           LatestRow;
      ghost var t0 := Now();
      NothingDone(t0, w, me);
      forall id: Id | LatestRow(store.Tables(), a, hash, id)
        ensures id in store.txs && KeptPreimage(store.Tables(), a, hash) == store.txs[id].preimage
      {
        LatestRowFound(store.Tables(), a, hash, id);
      }
      var tx := FindTx(store.txs, a, hash, store.nextTx);
      var preimage := if tx.Some? then store.txs[tx.value].preimage else "";
      if preimage == "" {
        preimage := LearnPreimage(hash, lookup, me, w);
      }
      return Paid(preimage, 0);
    }

    /** Asks the node for the preimage of an invoice of its own and records it. */
    method LearnPreimage(hash: string, lookup: Lookup, ghost me: Actor, ghost w: Watch) returns (preimage: string)
      requires Ready() && me.Call? && me !in w.calls
      modifies this, store
      ensures Ready() && Steps(old(Now()), Now(), w)
      ensures preimage == NodePreimage(hash, lookup)
      ensures Done(old(Now()), Now(), me) == LearntPreimage(hash, preimage)
    {
      hide WellFormed, After, Legal, Outcome, ReservationsFit, PaymentsFit, AllPolite, EventsKept, Done;
      ghost var t0 := Now();
      Others(Joined(w, me));
      ghost var t1 := Now();
      NothingDone(t1, w, me);
      var answer := lookup(hash);
      preimage := if answer.Ok? then answer.value.preimage else "";
      if preimage != "" {
        store.SetPreimageForHash(hash, preimage);
        Sign(t1, OpSetPreimage(hash, preimage), me, w);
      }
      OthersFirst(t0, t1, Now(), w, me);
    }

    /** Reserve, pay through the node, finalise: the part _pay_invoice_payload and
        _pay_keysend_payload share. The call reserves once and never before or again. */
    method SendPayment(a: Id, amount: int, hash: string, node: Node, ghost me: Actor, ghost w: Watch)
      returns (resp: Response)
      requires Ready() && amount > 0 && MayReserve(Now(), me) && me !in w.calls
      requires a in store.apps ==> "pay_invoice" in store.apps[a].scopes
      modifies this, store
      ensures Ready() && Steps(old(Now()), Now(), w)
      ensures PaymentMade(old(store.log), store.log, Done(old(Now()), Now(), me),
                          OpReserve(a, amount, FeeReserve(amount), hash), node, resp)
    {
      hide WellFormed, After, Legal, Outcome, ReservationsFit, PaymentsFit, AllPolite, EventsKept, Done, HasReserved,
           InternalInvoice;
      ghost var t0 := Now();
      var feeReserve := FeeReserve(amount);
      ghost var op := OpReserve(a, amount, feeReserve, hash);
      var r := store.ReserveOutgoingPayment(a, amount, feeReserve, hash);
      Sign(t0, op, me, w);
      ghost var t1 := Now();
      if r.Err? { return Response.Failed(Store(r.error)); }
      if r.value.1.Some? {
        Others(Joined(w, me));
        ghost var t2 := Now();
        resp := FinishInternalPayment(a, hash, node.lookup, me, w);
        OthersFirst(t1, t2, Now(), w, me);
      } else {
        ReservedInFlight(t0.log, op);
        PaysNow(t0, op, me);
        resp := PayThroughNode(r.value.0, node.pay, me, w);
      }
      InTurn(t0, t1, Now(), w, me);
    }

    /** From the reservation on: the node pays, or fails to, while other threads run. */
    method PayThroughNode(txId: Id, answer: Result<Payment, LndError>, ghost me: Actor, ghost w: Watch)
      returns (resp: Response)
      requires Ready() && me.Call? && me !in w.calls && Pays(Now(), me, txId) && InFlight(store.Tables(), txId)
      modifies this, store
      ensures Ready() && Steps(old(Now()), Now(), w)
      ensures Done(old(Now()), Now(), me) == [Settlement(txId, answer)]
      ensures Answered(resp, txId, store.txs, answer)
    {
      hide WellFormed, After, Legal, ReservationsFit, PaymentsFit, AllPolite, EventsKept, Done, InFlight;
      ghost var t0 := Now();
      Others(Joined(w, me));
      ghost var t1 := Now();
      StillInFlight(t0, t1, Joined(w, me), me, txId);
      var succeeded := answer.Ok?;
      var preimage := if succeeded then answer.value.preimage else "";
      var fees := if succeeded then answer.value.feesPaid else 0;
      FinalizedRow(store.Tables(), txId, succeeded, preimage, fees);
      var f := store.FinalizeOutgoingPayment(txId, succeeded, preimage, fees);
      Sign(t1, Settlement(txId, answer), me, w);
      OthersFirst(t0, t1, Now(), w, me);
      if f.Err? { return Response.Failed(Store(f.error)); }
      return if succeeded then Paid(preimage, fees) else Response.Failed(PaymentFailed);
    }

    /** _pay_invoice_payload */
    method PayInvoicePayload(a: Id, request: Request, node: Node, ghost me: Actor, ghost w: Watch)
      returns (resp: Response)
      requires Ready() && request.name == PayInvoice && MayReserve(Now(), me) && me !in w.calls
      requires a in store.apps ==> "pay_invoice" in store.apps[a].scopes
      modifies this, store
      ensures Ready() && Steps(old(Now()), Now(), w)
      ensures Payable(a, request, node, old(store.log), store.log, Done(old(Now()), Now(), me), resp)
    {
      hide WellFormed, After, Legal, ReservationsFit, PaymentsFit, AllPolite, EventsKept, Done, MayReserve, PaymentMade;
      NothingDone(Now(), w, me);
      if request.invoice == "" { return Response.Failed(Other); }
      if node.decode.Err? { return Response.Failed(Internal); }
      var decoded := node.decode.value;
      var amount := if decoded.amountMsat != 0 then decoded.amountMsat else request.amount;
      if amount <= 0 { return Response.Failed(Other); }
      resp := SendPayment(a, amount, decoded.paymentHash, node, me, w);
    }

    /** The preimage among the records of a keysend: the first record of its type decides. */
    static method FindPreimage(tlv: seq<Tlv>) returns (text: string)
      ensures text == TlvPreimage(tlv)
      ensures text != "" ==> FromHex(text).Some?
    {
      for i := 0 to |tlv|
        invariant TlvPreimage(tlv) == TlvPreimage(tlv[i..])
      {
        if tlv[i].kind == PREIMAGE_RECORD {
          var b := FromHex(tlv[i].value);
          return if b.Some? && |b.value| == 32 then tlv[i].value else "";
        }
      }
      return "";
    }

    /** _pay_keysend_payload */
    method PayKeysendPayload(a: Id, request: Request, node: Node, ghost me: Actor, ghost w: Watch)
      returns (resp: Response)
      requires Ready() && request.name == PayKeysend && MayReserve(Now(), me) && me !in w.calls
      requires a in store.apps ==> "pay_invoice" in store.apps[a].scopes
      modifies this, store
      ensures Ready() && Steps(old(Now()), Now(), w)
      ensures Payable(a, request, node, old(store.log), store.log, Done(old(Now()), Now(), me), resp)
    {
      hide WellFormed, After, Legal, ReservationsFit, PaymentsFit, AllPolite, EventsKept, Done, MayReserve,
           PaymentMade, FromHex, ToHex, TlvPreimage;
      NothingDone(Now(), w, me);
      if request.pubkey == "" || |request.pubkey| != 66 { return Response.Failed(Other); }
      if FromHex(request.pubkey).None? { return Response.Failed(Other); }
      if request.amount <= 0 { return Response.Failed(Other); }
      var preimage := request.preimage;
      if preimage != "" {
        if FromHex(preimage).None? { return Response.Failed(Other); }
      } else {
        preimage := FindPreimage(request.tlv);
      }
      if preimage == "" {
        FromToHex(node.drawn);
        preimage := ToHex(node.drawn);
      }
      if |preimage| != 64 { return Response.Failed(Other); }
      resp := SendPayment(a, request.amount, node.digest(FromHex(preimage).value), node, me, w);
    }

    method MakeInvoicePayload(a: Id, amount: int, node: Node, ghost me: Actor, ghost w: Watch)
      returns (resp: Response)
      requires Ready() && me.Call? && me !in w.calls
      modifies this, store
      ensures Ready() && Steps(old(Now()), Now(), w)
      ensures Invoiced(a, amount, node, old(store.log), store.log, Done(old(Now()), Now(), me), resp)
    {
      hide WellFormed, After, Legal, ReservationsFit, PaymentsFit, AllPolite, EventsKept, Done, RowWas;
      ghost var t0 := Now();
      NothingDone(t0, w, me);
      if amount <= 0 { return Response.Failed(Other); }
      if node.created.Err? { return Response.Failed(Internal); }
      var hash := node.created.value;
      var r := store.RecordIncomingInvoice(a, hash, amount);
      Sign(t0, OpRecord(a, hash, amount), me, w);
      if r.Err? { return Response.Failed(Store(r.error)); }
      ghost var t1 := Now();
      RecordedRow(Tables(t0), a, hash, amount);
      var _ := LearnPreimage(hash, node.lookup, me, w);
      InTurn(t0, t1, Now(), w, me);
      RowKept(t1, Now(), r.value, a, Incoming, hash);
      return InvoiceMade(r.value);
    }

    method LookupInvoicePayload(a: Id, request: Request, node: Node, ghost me: Actor, ghost w: Watch)
      returns (resp: Response)
      requires Ready() && me.Call? && me !in w.calls
      modifies this, store
      ensures Ready() && Steps(old(Now()), Now(), w)
      ensures LookedUp(a, request, node, old(store.log), store.log, Done(old(Now()), Now(), me), resp)
    {
      hide After, Legal, FindTx, ReservationsFit, PaymentsFit, AllPolite, EventsKept, Done, Reconciliation;
      NothingDone(Now(), w, me);
      var hash := request.hash;
      if hash == "" && request.invoice != "" {
        if node.decode.Err? { return Response.Failed(Internal); }
        hash := node.decode.value.paymentHash;
      }
      ReconcileThenWait(Some(a), node.lookup, me, w);
      if hash == "" { return Response.Failed(NoSuchInvoice); }
      var tx := FindTx(store.txs, a, hash, store.nextTx);
      return if tx.None? then Response.Failed(NoSuchInvoice) else InvoiceFound(tx.value);
    }

    /** Reconciliation for one request, and other threads before the request reads its result. */
    method ReconcileThenWait(a: Option<Id>, lookup: Lookup, ghost me: Actor, ghost w: Watch)
      requires Ready() && me.Call? && me !in w.calls
      modifies this, store
      ensures Ready() && Steps(old(Now()), Now(), w)
      ensures Done(old(Now()), Now(), me) == Reconciliation(old(store.Tables()), a, lookup)
    {
      hide WellFormed, After, Legal, ReservationsFit, PaymentsFit, AllPolite, EventsKept, Done, Reconciliation;
      ghost var t0 := Now();
      ReconcilePendingInvoices(a, lookup, me, w);
      ghost var t1 := Now();
      Others(Joined(w, me));
      ThenOthers(t0, t1, Now(), w, me);
    }

    /** The dispatcher. app is the wallet's row as it was when the request was accepted. The event of the
        call is dispatched here, once. */
    method HandleNip47Method(a: Id, app: App, event: string, request: Request, node: Node,
                             ghost me: Actor, ghost w: Watch)
      returns (resp: Response)
      requires Ready() && Claims(Now(), me) && me.event == Some(event) && me !in w.calls
      requires WalletWas(store.Tables(), a, app.scopes)
      modifies this, store
      ensures Ready() && Steps(old(Now()), Now(), w) && event !in claims
      ensures Handled(a, app, request, node, old(store.log), store.log, Done(old(Now()), Now(), me), resp)
    {
      hide WellFormed, After, Legal, ReservationsFit, PaymentsFit, AllPolite, EventsKept, Done, Handled, HasReserved;
      ghost var t0 := Now();
      Dispatch(event, me, w);
      ghost var t1 := Now();
      resp := Answer(a, app, request, node, me, w);
      InTurn(t0, t1, Now(), w, me);
      assert Done(t0, Now(), me) == Done(t1, Now(), me);
      StaysDispatched(t1, Now(), event, w);
    }

    /** The branches of handle_nip47_method. */
    method Answer(a: Id, app: App, request: Request, node: Node, ghost me: Actor, ghost w: Watch)
      returns (resp: Response)
      requires Ready() && MayReserve(Now(), me) && me !in w.calls
      requires WalletWas(store.Tables(), a, app.scopes)
      modifies this, store
      ensures Ready() && Steps(old(Now()), Now(), w)
      ensures Handled(a, app, request, node, old(store.log), store.log, Done(old(Now()), Now(), me), resp)
    {
      hide WellFormed, After, Legal, ReservationsFit, PaymentsFit, AllPolite, EventsKept, Done, Payable, Invoiced,
           LookedUp, Reconciliation, HasReserved, MethodsOfScope;
      NothingDone(Now(), w, me);
      var name := request.name;
      if name == Unknown { return Response.Failed(NotImplemented); }
      var allowed := ScopesToNip47Methods(app.scopes);
      if name !in allowed { return Response.Failed(Restricted); }
      if name == PayInvoice || name == PayKeysend { SpendScope(app.scopes, name); }
      match name
      case GetInfo => return Info;
      case GetBalance =>
        ReconcileThenWait(Some(a), node.lookup, me, w);
        return BalanceIs((if a in store.apps then store.apps[a] else app).balance);
      case MakeInvoice =>
        resp := MakeInvoicePayload(a, request.amount, node, me, w);
      case LookupInvoice =>
        resp := LookupInvoicePayload(a, request, node, me, w);
      case ListTransactions =>
        ReconcileThenWait(Some(a), node.lookup, me, w);
        return Listed;
      case PayInvoice =>
        resp := PayInvoicePayload(a, request, node, me, w);
      case PayKeysend =>
        resp := PayKeysendPayload(a, request, node, me, w);
    }

    /** One delivery of a request event. client is the verified signer, wallet the tagged wallet key,
        request the decrypted request if decryption succeeds. Of all the deliveries of an event, on
        however many relays, exactly one marks it and answers; it dispatches the request once, for no wallet
        but the signer's, from the trail start on. The others do nothing at all. A wallet without the
        spend scope keeps at least its balance, whoever asks for what. */
    method ProcessNip47Event(verified: bool, event: string, client: string, wallet: Option<string>,
                             request: Option<Request>, node: Node, ghost me: Actor, ghost w: Watch)
      returns (resp: Option<Response>, ghost start: Trail)
      requires Ready() && me.Call? && me.event == Some(event) && NeverSeen(Now(), me) && me !in w.calls
      modifies this, store
      ensures Ready() && Steps(old(Now()), Now(), w)
      ensures Guarded(old(store.Tables()), w.wallet) ==>
                NotLowered(old(store.Tables()), store.Tables(), w.wallet)
      ensures resp.Some? <==> event in owner && owner[event] == me
      ensures resp.None? ==> Done(old(Now()), Now(), me) == []
      ensures var found := FindApp(old(store.apps), client, wallet, old(store.nextApp));
              && (resp.Some? ==> verified && found.Some? && event !in old(store.processed) && event !in claims)
              && (verified && found.Some? ==> event in store.processed)
              && (verified && found.Some? && event !in old(store.processed) ==> event in owner)
              && (resp.Some? ==>
                   Executed(found.value, old(store.apps)[found.value], request, node, old(Now()), start, Now(), me,
                            resp.value))
    {
      hide WellFormed, After, Legal, ReservationsFit, PaymentsFit, AllPolite, EventsKept, Done, FindApp, WalletWas,
           Executed, Claims, NeverSeen, NotLowered, Guarded;
      ghost var t0 := Now();
      start := t0;
      NothingDone(t0, w, me);
      NeverOwned(t0, t0, w, me);
      NothingLost(t0, t0, w);
      if !verified { return None, start; }
      var found := FindApp(store.apps, client, wallet, store.nextApp);
      if found.None? { return None, start; }
      var a := found.value;
      var app := store.apps[a];
      ThisWallet(store.Tables(), a);
      Others(Joined(w, me));
      ghost var t1 := Now();
      NeverOwned(t0, t1, Joined(w, me), me);
      NothingDone(t1, w, me);
      OthersFirst(t0, t1, t1, w, me);
      NothingLost(t0, t1, w);
      WalletKept(t0, t1, a, app.scopes);
      MarkedByThen(t0, t1, event, w);
      var isNew := store.MarkEventProcessed(event);
      if !isNew {
        assert Now().processed == t1.processed;
        return None, start;
      }
      Mark(t1, event, me, w);
      ghost var t2 := Now();
      var answer;
      answer, start := AnswerEvent(a, app, event, request, node, me, w);
      InTurn(t1, t2, Now(), w, me);
      OthersFirst(t0, t1, Now(), w, me);
      NothingLost(t0, Now(), w);
      ExecutedSince(a, app, request, node, t0, t1, t2, start, Now(), w, me, answer);
      return Some(answer), start;
    }

    /** The event just marked as processed is this call's. */
    ghost method Mark(t: Trail, event: string, me: Actor, w: Watch)
      requires store.Valid() && Consistent(t) && me.Call? && me.event == Some(event) && me !in w.calls
      requires event !in t.processed && Now() == t.(processed := t.processed + {event})
      modifies this`owner, this`claims
      ensures Ready() && Now() == Marked(t, event, me) && Claims(Now(), me)
      ensures Steps(t, Now(), w) && Done(t, Now(), me) == []
    {
      MarkSteps(t, event, me, w);
      hide ReservationsFit, PaymentsFit, AllPolite, EventsKept, Done, Legal, Claims;
      owner, claims := owner[event := me], claims + {event};
    }

    /** After marking: decrypt, dispatch, respond. */
    method AnswerEvent(a: Id, app: App, event: string, request: Option<Request>, node: Node,
                       ghost me: Actor, ghost w: Watch)
      returns (resp: Response, ghost start: Trail)
      requires Ready() && Claims(Now(), me) && me.event == Some(event) && me !in w.calls
      requires WalletWas(store.Tables(), a, app.scopes)
      modifies this, store
      ensures Ready() && Steps(old(Now()), Now(), w)
      ensures event in owner && owner[event] == me && event !in claims
      ensures Executed(a, app, request, node, old(Now()), start, Now(), me, resp)
    {
      hide WellFormed, After, Legal, ReservationsFit, PaymentsFit, AllPolite, EventsKept, Done, WalletWas, Handled,
           HasReserved;
      ghost var t0 := Now();
      Others(Joined(w, me));
      start := Now();
      StillClaims(t0, start, Joined(w, me), me);
      WalletKept(t0, start, a, app.scopes);
      DoneByOthers(t0, start, Joined(w, me), me);
      if request.None? {
        Dispatch(event, me, w);
        resp := Response.Failed(Other);
      } else {
        resp := HandleNip47Method(a, app, event, request.value, node, me, w);
        StaysOwner(start, Now(), event, w);
      }
      OthersFirst(t0, start, Now(), w, me);
    }
  }
}
