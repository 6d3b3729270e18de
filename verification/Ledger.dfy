/**
 The double-entry core: the transactions of the money path, each a function from the tables
 it runs against to the tables it commits, or to the exception that rolls it back. Row locks
 make transactions on the same rows run one after the other; a run is such an order.
 Amounts are BIGINT: arithmetic that leaves 64 bits raises.
 */
module Ledger {
  import opened Wrappers

  type Id = nat

  /** Operator and system callers share the all-zero idempotency namespace. */
  const SENTINEL: Id := 0

  predicate BigInt(x: int) { -0x8000_0000_0000_0000 <= x <= 0x7FFF_FFFF_FFFF_FFFF }

  // ---- tables ----

  datatype Account = Account(customer: bool, active: bool, balance: int, held: int, limit: int)

  datatype Status = Pending | Held | UnderReview | Posted | Failed | Canceled | Reversed {
    /** Authorised and waiting, its funds reserved. */
    predicate Live() { Pending? || Held? || UnderReview? }
    /** Written to the ledger. */
    predicate Booked() { Posted? || Reversed? }
  }

  datatype Kind = Payment | Deposit | Withdrawal | Reversal | Fee | Adjustment

  datatype Transfer = Transfer(debit: Id, credit: Id, amount: int, status: Status, kind: Kind, endToEnd: string,
                               reverses: Option<Id>)

  datatype HoldStatus = Active | Captured | Released | Expired

  datatype Hold = Hold(transfer: Id, account: Id, amount: int, status: HoldStatus, expires: int)

  datatype Direction = Debit | Credit

  datatype Entry = Entry(transfer: Id, account: Id, direction: Direction, amount: int, balanceAfter: int) {
    function Signed(): int { if direction.Debit? then -amount else amount }
  }

  /** What an idempotency key was claimed for. */
  datatype Fingerprint =
    | ForTransfer(debit: Id, credit: Id, amount: int, kind: Kind, endToEnd: string)
    | ForReversal(original: Id)

  datatype KeyRecord = KeyRecord(claim: Fingerprint, transfer: Id)

  datatype Bank = Bank(accounts: map<Id, Account>, transfers: map<Id, Transfer>, holds: seq<Hold>, ledger: seq<Entry>,
                       keys: map<(Id, string), KeyRecord>)

  const NEW_BANK: Bank := Bank(map[], map[], [], [], map[])

  datatype Fault =
    | KeyRequired | KeyConflict | SameAccount | NoAccount | NotActive | BadAmount | OverLimit
    | InsufficientFunds | NotFound | WrongState | Overflow | CheckFailed | NoHold | DuplicateId | Blocked

  datatype Outcome<+T> = Ok(bank: Bank, value: T) | Raised(fault: Fault)

  // ---- triggers ----

  /** Inserting a ledger entry is the only thing that moves a balance; it stamps the running balance. */
  function AddEntry(b: Bank, transfer: Id, account: Id, direction: Direction, amount: int): Outcome<()> {
    if account !in b.accounts then Raised(NoAccount)
    else
      var a := b.accounts[account];
      var balance := if direction.Debit? then a.balance - amount else a.balance + amount;
      if !BigInt(balance) then Raised(Overflow)
      else if a.customer && balance < 0 then Raised(CheckFailed)
      else Ok(b.(accounts := b.accounts[account := a.(balance := balance)],
                 ledger := b.ledger + [Entry(transfer, account, direction, amount, balance)]), ())
  }

  /** Both legs, debit first. */
  function AddLegs(b: Bank, transfer: Id, from: Id, to: Id, amount: int): Outcome<()> {
    match AddEntry(b, transfer, from, Debit, amount)
    case Raised(f) => Raised(f)
    case Ok(b', _) => AddEntry(b', transfer, to, Credit, amount)
  }

  /** The active holds of an account, summed. */
  function HeldSum(holds: seq<Hold>, account: Id): int {
    if holds == [] then 0
    else
      var h := holds[|holds| - 1];
      HeldSum(holds[..|holds| - 1], account) + if h.status.Active? && h.account == account then h.amount else 0
  }

  /** UPDATE holds SET status = status WHERE status = 'active' AND pick. */
  function Resolve(holds: seq<Hold>, pick: Hold -> bool, status: HoldStatus): (r: seq<Hold>)
    ensures |r| == |holds|
    ensures forall i :: 0 <= i < |holds| ==>
              r[i] == if holds[i].status.Active? && pick(holds[i]) then holds[i].(status := status) else holds[i]
  {
    seq(|holds|, i requires 0 <= i < |holds| =>
      if holds[i].status.Active? && pick(holds[i]) then holds[i].(status := status) else holds[i])
  }

  /** The active holds of an account that an update picks, summed. */
  function PickedSum(holds: seq<Hold>, pick: Hold -> bool, account: Id): int {
    if holds == [] then 0
    else
      var h := holds[|holds| - 1];
      PickedSum(holds[..|holds| - 1], pick, account)
      + if h.status.Active? && pick(h) && h.account == account then h.amount else 0
  }

  /** The held cache follows each hold that leaves the active state, and may not go negative. */
  function ResolveHolds(b: Bank, pick: Hold -> bool, status: HoldStatus): Outcome<()> {
    var accounts := map a | a in b.accounts ::
                      b.accounts[a].(held := b.accounts[a].held - PickedSum(b.holds, pick, a));
    if exists a :: a in accounts && accounts[a].held < 0 then Raised(CheckFailed)
    else Ok(b.(accounts := accounts, holds := Resolve(b.holds, pick, status)), ())
  }

  function InsertHold(b: Bank, transfer: Id, account: Id, amount: int, expires: int): Outcome<()>
    requires account in b.accounts
  {
    var a := b.accounts[account];
    if !BigInt(a.held + amount) then Raised(Overflow)
    else Ok(b.(accounts := b.accounts[account := a.(held := a.held + amount)],
               holds := b.holds + [Hold(transfer, account, amount, Active, expires)]), ())
  }

  function SetStatus(b: Bank, id: Id, status: Status): Bank
    requires id in b.transfers
  {
    b.(transfers := b.transfers[id := b.transfers[id].(status := status)])
  }

  // ---- transactions ----

  function OfTransfer(id: Id): Hold -> bool { (h: Hold) => h.transfer == id }

  function LapsedBy(now: int): Hold -> bool { (h: Hold) => h.expires < now }

  datatype Requested = Requested(transfer: Id, status: Status, replay: bool)

  datatype RequestArgs = RequestArgs(owner: Id, key: string, debit: Id, credit: Id, amount: int, kind: Kind,
                                     endToEnd: string, expires: int, newId: Id) {
    function Claim(): Fingerprint { ForTransfer(debit, credit, amount, kind, endToEnd) }
  }

  /** Why a new payment cannot be authorised, if so, in the order of the checks. */
  function RequestFault(b: Bank, r: RequestArgs): Option<Fault> {
    if !BigInt(r.amount) then Some(Overflow)
    else if r.debit == r.credit then Some(SameAccount)
    else if r.debit !in b.accounts || r.credit !in b.accounts then Some(NoAccount)
    else if !b.accounts[r.debit].active || !b.accounts[r.credit].active then Some(NotActive)
    else if r.amount <= 0 then Some(BadAmount)
    else
      var d := b.accounts[r.debit];
      if d.customer && r.amount > d.limit then Some(OverLimit)
      else if d.customer && d.balance - HeldSum(b.holds, r.debit) < r.amount then Some(InsufficientFunds)
      else if r.kind.Reversal? then Some(CheckFailed)
      else if r.newId in b.transfers then Some(DuplicateId)
      else None
  }

  /** request_transfer: the idempotency gate, the checks, a pending transfer and its hold. */
  function RequestTransfer(b: Bank, r: RequestArgs): Outcome<Requested> {
    if r.key == "" then Raised(KeyRequired)
    else if (r.owner, r.key) in b.keys then
      var k := b.keys[(r.owner, r.key)];
      if k.claim != r.Claim() then Raised(KeyConflict)
      else if k.transfer !in b.transfers then Raised(NotFound)
      else Ok(b, Requested(k.transfer, b.transfers[k.transfer].status, true))
    else
      match RequestFault(b, r)
      case Some(f) => Raised(f)
      case None =>
        match InsertHold(b, r.newId, r.debit, r.amount, r.expires)
        case Raised(f) => Raised(f)
        case Ok(b', _) =>
          Ok(b'.(transfers := b'.transfers[r.newId :=
                   Transfer(r.debit, r.credit, r.amount, Pending, r.kind, r.endToEnd, None)],
                 keys := b'.keys[(r.owner, r.key) := KeyRecord(r.Claim(), r.newId)]),
             Requested(r.newId, Pending, false))
  }

  /** post_transfer from one of the live states its callers name. */
  function PostTransfer(b: Bank, id: Id, source: Status): Outcome<Status> {
    if id !in b.transfers then Raised(NotFound)
    else
      var t := b.transfers[id];
      if t.status == Posted then Ok(b, Posted)
      else if t.status != source then Raised(WrongState)
      else
        match AddLegs(b, id, t.debit, t.credit, t.amount)
        case Raised(f) => Raised(f)
        case Ok(b1, _) =>
          match ResolveHolds(b1, OfTransfer(id), Captured)
          case Raised(f) => Raised(f)
          case Ok(b2, _) => Ok(b2.(transfers := b2.transfers[id := t.(status := Posted)]), Posted)
  }

  function CancelTransfer(b: Bank, id: Id): Outcome<Status> {
    if id !in b.transfers then Raised(NotFound)
    else
      var t := b.transfers[id];
      if t.status == Canceled then Ok(b, Canceled)
      else if !t.status.Live() then Raised(WrongState)
      else
        match ResolveHolds(b, OfTransfer(id), Released)
        case Raised(f) => Raised(f)
        case Ok(b', _) => Ok(b'.(transfers := b'.transfers[id := t.(status := Canceled)]), Canceled)
  }

  /** The hold's expiry stretched to cover the confirmation or review window. */
  function Stretch(holds: seq<Hold>, id: Id, expires: int): (r: seq<Hold>)
    ensures |r| == |holds|
    ensures forall i :: 0 <= i < |holds| ==>
              r[i] == if holds[i].status.Active? && holds[i].transfer == id then holds[i].(expires := expires)
                      else holds[i]
  {
    seq(|holds|, i requires 0 <= i < |holds| =>
      if holds[i].status.Active? && holds[i].transfer == id then holds[i].(expires := expires) else holds[i])
  }

  /** place_transfer_hold: parks a pending transfer, its funds still reserved. */
  function PlaceHold(b: Bank, id: Id, status: Status, expires: int): Outcome<Status>
    requires status.Held? || status.UnderReview?
  {
    if id !in b.transfers then Raised(NotFound)
    else
      var t := b.transfers[id];
      if t.status != Pending then Raised(WrongState)
      else if !exists i :: 0 <= i < |b.holds| && b.holds[i].status.Active? && b.holds[i].transfer == id then
        Raised(NoHold)
      else Ok(b.(transfers := b.transfers[id := t.(status := status)], holds := Stretch(b.holds, id, expires)), status)
  }

  /** What the screening and fraud gates of an automatic payment decide. */
  datatype Decision = PostNow | Screen(expires: int) | Review(expires: int) | Refuse

  /** transfer: request, then post, park or refuse in the same transaction. */
  function AutoTransfer(b: Bank, r: RequestArgs, decision: Decision): Outcome<Requested> {
    match RequestTransfer(b, r)
    case Raised(f) => Raised(f)
    case Ok(b', q) =>
      if q.replay || q.status != Pending then Ok(b', q)
      else
        var settled :=
          if r.owner == SENTINEL then PostTransfer(b', q.transfer, Pending)
          else
            match decision
            case PostNow => PostTransfer(b', q.transfer, Pending)
            case Screen(expires) => PlaceHold(b', q.transfer, UnderReview, expires)
            case Review(expires) => PlaceHold(b', q.transfer, Held, expires)
            case Refuse => Raised(Blocked);
        match settled
        case Raised(f) => Raised(f)
        case Ok(b'', status) => Ok(b'', q.(status := status))
  }

  /** The reversal row of a transfer, if there is one. */
  ghost function ReversalOf(b: Bank, id: Id): (r: Option<Id>)
    ensures r.Some? ==> r.value in b.transfers && b.transfers[r.value].reverses == Some(id)
    ensures r.None? ==> forall x :: x in b.transfers ==> b.transfers[x].reverses != Some(id)
  {
    if exists x :: x in b.transfers && b.transfers[x].reverses == Some(id) then
      var x :| x in b.transfers && b.transfers[x].reverses == Some(id);
      Some(x)
    else None
  }

  /** reverse_transfer: a new posted transfer the other way, once per original. */
  ghost function ReverseTransfer(b: Bank, id: Id, key: string, newId: Id): Outcome<Id> {
    var k := (SENTINEL, key);
    var claim := ForReversal(id);
    if k in b.keys then
      if b.keys[k].claim != claim then Raised(KeyConflict) else Ok(b, b.keys[k].transfer)
    else if id !in b.transfers then Raised(NotFound)
    else
      var t := b.transfers[id];
      if t.status == Reversed then (
        match ReversalOf(b, id)
        case None => Raised(NotFound)
        case Some(r) => Ok(b.(keys := b.keys[k := KeyRecord(claim, r)]), r)
      ) else if t.status != Posted then Raised(WrongState)
      else if t.credit !in b.accounts then Raised(NoAccount)
      else
        var c := b.accounts[t.credit];
        if c.customer && c.balance - c.held < t.amount then Raised(InsufficientFunds)
        else if newId in b.transfers then Raised(DuplicateId)
        else
          match AddLegs(b, newId, t.credit, t.debit, t.amount)
          case Raised(f) => Raised(f)
          case Ok(b', _) =>
            var reversal := Transfer(t.credit, t.debit, t.amount, Posted, Reversal, "", Some(id));
            Ok(b'.(transfers := b'.transfers[newId := reversal][id := t.(status := Reversed)],
                   keys := b'.keys[k := KeyRecord(claim, newId)]), newId)
  }

  /** expire_holds: lapsed holds freed; their transfers failed if pending, canceled if parked. */
  function ExpireHolds(b: Bank, now: int): Outcome<()> {
    match ResolveHolds(b, LapsedBy(now), Expired)
    case Raised(f) => Raised(f)
    case Ok(b', _) =>
      Ok(b'.(transfers := map id | id in b'.transfers ::
               var t := b'.transfers[id];
               if t.status.Live() && Lapses(b.holds, id, now)
               then t.(status := if t.status.Pending? then Failed else Canceled) else t), ())
  }

  predicate Lapses(holds: seq<Hold>, id: Id, now: int) {
    exists i :: 0 <= i < |holds| && holds[i].status.Active? && holds[i].transfer == id && holds[i].expires < now
  }

  /** create_account, and the seeded system accounts: nothing in them. */
  function OpenAccount(b: Bank, id: Id, customer: bool, limit: int): Outcome<()> {
    if id in b.accounts then Raised(DuplicateId)
    else if limit < 0 then Raised(CheckFailed)
    else Ok(b.(accounts := b.accounts[id := Account(customer, true, 0, 0, limit)]), ())
  }

  function SetAccount(b: Bank, id: Id, active: bool, limit: int): Outcome<()> {
    if id !in b.accounts then Raised(NoAccount)
    else if limit < 0 then Raised(CheckFailed)
    else Ok(b.(accounts := b.accounts[id := b.accounts[id].(active := active, limit := limit)]), ())
  }

  /** cleanup_idempotency_keys, for whichever keys have expired. */
  function CleanupKeys(b: Bank, expired: set<(Id, string)>): Outcome<()> {
    Ok(b.(keys := map k | k in b.keys && k !in expired :: b.keys[k]), ())
  }

  // ---- runs ----

  datatype Op =
    | DoRequest(args: RequestArgs)
    | DoTransfer(args: RequestArgs, decision: Decision)
    | DoPost(id: Id, source: Status)
    | DoCancel(id: Id)
    | DoReverse(id: Id, key: string, newId: Id)
    | DoExpire(now: int)
    | DoOpen(id: Id, customer: bool, limit: int)
    | DoSet(id: Id, active: bool, limit: int)
    | DoCleanup(expired: set<(Id, string)>)

  predicate Proper(op: Op) { op.DoPost? ==> op.source.Live() }

  function Committed<T>(b: Bank, o: Outcome<T>): Bank { if o.Ok? then o.bank else b }

  ghost function Step(b: Bank, op: Op): Bank {
    match op
    case DoRequest(r) => Committed(b, RequestTransfer(b, r))
    case DoTransfer(r, d) => Committed(b, AutoTransfer(b, r, d))
    case DoPost(id, source) => Committed(b, PostTransfer(b, id, source))
    case DoCancel(id) => Committed(b, CancelTransfer(b, id))
    case DoReverse(id, key, newId) => Committed(b, ReverseTransfer(b, id, key, newId))
    case DoExpire(now) => Committed(b, ExpireHolds(b, now))
    case DoOpen(id, customer, limit) => Committed(b, OpenAccount(b, id, customer, limit))
    case DoSet(id, active, limit) => Committed(b, SetAccount(b, id, active, limit))
    case DoCleanup(expired) => Committed(b, CleanupKeys(b, expired))
  }

  ghost function RunFrom(b: Bank, ops: seq<Op>): Bank {
    if ops == [] then b else Step(RunFrom(b, ops[..|ops| - 1]), ops[|ops| - 1])
  }

  ghost function BankAfter(ops: seq<Op>): Bank { RunFrom(NEW_BANK, ops) }

  predicate AllProper(ops: seq<Op>) { forall i :: 0 <= i < |ops| ==> Proper(ops[i]) }
}
