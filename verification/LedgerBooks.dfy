/** The correctness contract of the books, and that every transaction keeps it. */
module LedgerBooks {
  import opened Ledger
  import opened Wrappers

  // ---- sums over the ledger ----

  function BalanceSum(ledger: seq<Entry>, account: Id): int {
    if ledger == [] then 0
    else
      var e := ledger[|ledger| - 1];
      BalanceSum(ledger[..|ledger| - 1], account) + if e.account == account then e.Signed() else 0
  }

  function EntriesOf(ledger: seq<Entry>, transfer: Id): seq<Entry> {
    if ledger == [] then []
    else
      var e := ledger[|ledger| - 1];
      EntriesOf(ledger[..|ledger| - 1], transfer) + if e.transfer == transfer then [e] else []
  }

  function Total(ledger: seq<Entry>): int {
    if ledger == [] then 0 else Total(ledger[..|ledger| - 1]) + ledger[|ledger| - 1].Signed()
  }

  function ActiveCount(holds: seq<Hold>, transfer: Id): nat {
    if holds == [] then 0
    else
      var h := holds[|holds| - 1];
      ActiveCount(holds[..|holds| - 1], transfer) + if h.status.Active? && h.transfer == transfer then 1 else 0
  }

  // ---- the contract ----

  /** Transfers and entries name existing rows; a transfer moves a positive amount between two accounts. */
  predicate Refs(b: Bank) {
    && (forall id :: id in b.transfers ==>
          var t := b.transfers[id];
          t.debit in b.accounts && t.credit in b.accounts && t.debit != t.credit && t.amount > 0)
    && (forall i :: 0 <= i < |b.ledger| ==> b.ledger[i].account in b.accounts && b.ledger[i].transfer in b.transfers)
  }

  predicate BalanceCaches(b: Bank) {
    forall a :: a in b.accounts ==> b.accounts[a].balance == BalanceSum(b.ledger, a)
  }

  predicate HeldCaches(b: Bank) {
    forall a :: a in b.accounts ==> b.accounts[a].held == HeldSum(b.holds, a)
  }

  /** What a customer has authorised is covered. */
  predicate Solvent(b: Bank) {
    forall a :: a in b.accounts && b.accounts[a].customer ==> b.accounts[a].held <= b.accounts[a].balance
  }

  predicate IsLeg(e: Entry, account: Id, direction: Direction, amount: int) {
    e.account == account && e.direction == direction && e.amount == amount
  }

  /** A booked transfer has exactly its two legs; any other has none. */
  predicate LegsOk(legs: seq<Entry>, t: Transfer) {
    if t.status.Booked()
    then |legs| == 2 && IsLeg(legs[0], t.debit, Debit, t.amount) && IsLeg(legs[1], t.credit, Credit, t.amount)
    else legs == []
  }

  predicate Legs(b: Bank) {
    forall id :: id in b.transfers ==> LegsOk(EntriesOf(b.ledger, id), b.transfers[id])
  }

  /** The statement: each entry carries its account's running balance. */
  predicate Running(ledger: seq<Entry>) {
    forall i :: 0 <= i < |ledger| ==> ledger[i].balanceAfter == BalanceSum(ledger[..i + 1], ledger[i].account)
  }

  predicate HoldFits(b: Bank, h: Hold) {
    h.status.Active? ==>
      && h.transfer in b.transfers
      && var t := b.transfers[h.transfer];
         t.status.Live() && h.account == t.debit && h.amount == t.amount
  }

  /** Each live transfer has one active hold, for its amount on its debit account; there are no others. */
  predicate HoldsOk(b: Bank) {
    && (forall i :: 0 <= i < |b.holds| ==> HoldFits(b, b.holds[i]))
    && (forall id :: id in b.transfers ==> ActiveCount(b.holds, id) == if b.transfers[id].status.Live() then 1 else 0)
  }

  predicate Reverses(b: Bank, r: Id, o: Id) { r in b.transfers && b.transfers[r].reverses == Some(o) }

  /** A reversal mirrors a reversed original, and each reversed original has exactly one. */
  ghost predicate ReversalsOk(b: Bank) {
    && (forall r, o :: Reverses(b, r, o) ==>
          && o in b.transfers && b.transfers[o].status == Reversed && b.transfers[r].status.Booked()
          && b.transfers[r].debit == b.transfers[o].credit && b.transfers[r].credit == b.transfers[o].debit
          && b.transfers[r].amount == b.transfers[o].amount)
    && (forall r, r', o :: Reverses(b, r, o) && Reverses(b, r', o) ==> r == r')
    && (forall o :: o in b.transfers && b.transfers[o].status == Reversed ==> exists r :: Reverses(b, r, o))
  }

  predicate ClaimFits(claim: Fingerprint, t: Transfer) {
    match claim
    case ForTransfer(d, c, a, k, e) => t.debit == d && t.credit == c && t.amount == a && t.kind == k && t.endToEnd == e
    case ForReversal(o) => t.reverses == Some(o)
  }

  predicate KeysOk(b: Bank) {
    forall k :: k in b.keys ==>
      b.keys[k].transfer in b.transfers && ClaimFits(b.keys[k].claim, b.transfers[b.keys[k].transfer])
  }

  ghost predicate Good(b: Bank) {
    && Refs(b) && BalanceCaches(b) && HeldCaches(b) && Solvent(b) && Legs(b) && Running(b.ledger)
    && Total(b.ledger) == 0 && HoldsOk(b) && ReversalsOk(b) && KeysOk(b)
  }

  // ---- the ledger grows by entries ----

  lemma SumsGrow(ledger: seq<Entry>, e: Entry, account: Id, transfer: Id)
    ensures BalanceSum(ledger + [e], account) ==
            BalanceSum(ledger, account) + if e.account == account then e.Signed() else 0
    ensures EntriesOf(ledger + [e], transfer) ==
            EntriesOf(ledger, transfer) + if e.transfer == transfer then [e] else []
    ensures Total(ledger + [e]) == Total(ledger) + e.Signed()
  {
    assert (ledger + [e])[..|ledger|] == ledger;
  }

  lemma RunningGrows(ledger: seq<Entry>, e: Entry)
    requires Running(ledger) && e.balanceAfter == BalanceSum(ledger + [e], e.account)
    ensures Running(ledger + [e])
  {
    hide BalanceSum;
    var l := ledger + [e];
    forall i | 0 <= i < |l|
      ensures l[i].balanceAfter == BalanceSum(l[..i + 1], l[i].account)
    {
      assert i < |ledger| ==> l[..i + 1] == ledger[..i + 1];
      assert i == |ledger| ==> l[..i + 1] == l;
    }
  }

  /** The balance trigger keeps cache and statement. */
  lemma AddEntryKeeps(b: Bank, id: Id, account: Id, direction: Direction, amount: int)
    requires BalanceCaches(b) && Running(b.ledger)
    requires AddEntry(b, id, account, direction, amount).Ok?
    ensures var b' := AddEntry(b, id, account, direction, amount).bank;
            BalanceCaches(b') && Running(b'.ledger)
  {
    hide BalanceSum;
    var b' := AddEntry(b, id, account, direction, amount).bank;
    var e := b'.ledger[|b.ledger|];
    forall a
      ensures BalanceSum(b'.ledger, a) == BalanceSum(b.ledger, a) + if e.account == a then e.Signed() else 0
    {
      SumsGrow(b.ledger, e, a, id);
    }
    hide Running;
    RunningGrows(b.ledger, e);
  }

  /** The accounts after both legs. */
  function Moved(accounts: map<Id, Account>, from: Id, to: Id, amount: int): map<Id, Account> {
    map a | a in accounts ::
      if a == from then accounts[a].(balance := accounts[a].balance - amount)
      else if a == to then accounts[a].(balance := accounts[a].balance + amount)
      else accounts[a]
  }

  lemma AddLegsShape(b: Bank, id: Id, from: Id, to: Id, amount: int)
    requires from != to && AddLegs(b, id, from, to, amount).Ok?
    ensures from in b.accounts && to in b.accounts
    ensures var b' := AddLegs(b, id, from, to, amount).bank;
            && b'.accounts == Moved(b.accounts, from, to, amount)
            && |b'.ledger| == |b.ledger| + 2
            && b' == b.(accounts := b'.accounts,
                        ledger := b.ledger + [b'.ledger[|b.ledger|], b'.ledger[|b.ledger| + 1]])
            && b'.ledger[|b.ledger|].transfer == id && IsLeg(b'.ledger[|b.ledger|], from, Debit, amount)
            && b'.ledger[|b.ledger| + 1].transfer == id && IsLeg(b'.ledger[|b.ledger| + 1], to, Credit, amount)
  {
    var b1 := AddEntry(b, id, from, Debit, amount).bank;
    var b' := AddLegs(b, id, from, to, amount).bank;
    var e0, e1 := b1.ledger[|b.ledger|], b'.ledger[|b.ledger| + 1];
    assert b'.ledger == b.ledger + [e0] + [e1] == b.ledger + [e0, e1];
  }

  /** The legs of one transfer balance, and leave every other transfer's entries alone. */
  lemma AddLegsKeeps(b: Bank, id: Id, from: Id, to: Id, amount: int)
    requires from != to && AddLegs(b, id, from, to, amount).Ok?
    requires BalanceCaches(b) && Running(b.ledger)
    ensures var b' := AddLegs(b, id, from, to, amount).bank;
            && BalanceCaches(b') && Running(b'.ledger) && Total(b'.ledger) == Total(b.ledger)
            && EntriesOf(b'.ledger, id) == EntriesOf(b.ledger, id) + b'.ledger[|b.ledger|..]
            && forall x :: x != id ==> EntriesOf(b'.ledger, x) == EntriesOf(b.ledger, x)
  {
    hide BalanceCaches, Running, BalanceSum, EntriesOf, Total;
    var b1 := AddEntry(b, id, from, Debit, amount).bank;
    var b' := AddLegs(b, id, from, to, amount).bank;
    AddEntryKeeps(b, id, from, Debit, amount);
    AddEntryKeeps(b1, id, to, Credit, amount);
    var e0, e1 := b1.ledger[|b.ledger|], b'.ledger[|b.ledger| + 1];
    forall x
      ensures EntriesOf(b'.ledger, x) == EntriesOf(b.ledger, x) + if x == id then [e0, e1] else []
    {
      SumsGrow(b.ledger, e0, from, x);
      SumsGrow(b1.ledger, e1, to, x);
    }
    SumsGrow(b.ledger, e0, from, id);
    SumsGrow(b1.ledger, e1, to, id);
    assert b'.ledger[|b.ledger|..] == [e0, e1];
  }

  // ---- holds ----

  predicate Amounts(holds: seq<Hold>) {
    forall i :: 0 <= i < |holds| && holds[i].status.Active? ==> holds[i].amount > 0
  }

  lemma GoodAmounts(b: Bank)
    requires Refs(b) && HoldsOk(b)
    ensures Amounts(b.holds)
  {
    hide ActiveCount;
    forall i | 0 <= i < |b.holds| && b.holds[i].status.Active?
      ensures b.holds[i].amount > 0
    {
      assert HoldFits(b, b.holds[i]);
    }
  }

  lemma {:induction false} ResolveSums(holds: seq<Hold>, pick: Hold -> bool, status: HoldStatus, a: Id)
    requires !status.Active?
    ensures HeldSum(Resolve(holds, pick, status), a) == HeldSum(holds, a) - PickedSum(holds, pick, a)
  {
    if holds == [] {
    } else {
      var holds' := holds[..|holds| - 1];
      ResolveSums(holds', pick, status, a);
      assert Resolve(holds, pick, status)[..|holds| - 1] == Resolve(holds', pick, status);
    }
  }

  lemma {:induction false} PickedIsPart(holds: seq<Hold>, pick: Hold -> bool, a: Id)
    requires Amounts(holds)
    ensures 0 <= PickedSum(holds, pick, a) <= HeldSum(holds, a)
  {
    if holds == [] {
    } else {
      PickedIsPart(holds[..|holds| - 1], pick, a);
    }
  }

  /** The held trigger keeps the cache, and never fails its check. */
  lemma ResolveKeeps(b: Bank, pick: Hold -> bool, status: HoldStatus)
    requires HeldCaches(b) && Amounts(b.holds) && !status.Active?
    ensures ResolveHolds(b, pick, status).Ok?
    ensures var b' := ResolveHolds(b, pick, status).bank;
            && HeldCaches(b') && b' == b.(accounts := b'.accounts, holds := Resolve(b.holds, pick, status))
            && b'.accounts.Keys == b.accounts.Keys
            && forall a :: a in b.accounts ==>
                 && b'.accounts[a] == b.accounts[a].(held := b.accounts[a].held - PickedSum(b.holds, pick, a))
                 && b'.accounts[a].held <= b.accounts[a].held
  {
    hide HeldSum, PickedSum, Resolve, Amounts;
    forall a
      ensures HeldSum(Resolve(b.holds, pick, status), a) == HeldSum(b.holds, a) - PickedSum(b.holds, pick, a)
      ensures 0 <= PickedSum(b.holds, pick, a) <= HeldSum(b.holds, a)
    {
      ResolveSums(b.holds, pick, status, a);
      PickedIsPart(b.holds, pick, a);
    }
  }

  /** The active holds of a transfer that an update picks. */
  function PickedCount(holds: seq<Hold>, pick: Hold -> bool, id: Id): nat {
    if holds == [] then 0
    else
      var h := holds[|holds| - 1];
      PickedCount(holds[..|holds| - 1], pick, id) + if h.status.Active? && pick(h) && h.transfer == id then 1 else 0
  }

  lemma {:induction false} ResolveCounts(holds: seq<Hold>, pick: Hold -> bool, status: HoldStatus, id: Id)
    requires !status.Active?
    ensures PickedCount(holds, pick, id) <= ActiveCount(holds, id)
    ensures ActiveCount(Resolve(holds, pick, status), id) == ActiveCount(holds, id) - PickedCount(holds, pick, id)
    ensures PickedCount(holds, pick, id) > 0 <==>
            exists i :: 0 <= i < |holds| && holds[i].status.Active? && holds[i].transfer == id && pick(holds[i])
  {
    if holds == [] {
    } else {
      var holds', h := holds[..|holds| - 1], holds[|holds| - 1];
      ResolveCounts(holds', pick, status, id);
      assert Resolve(holds, pick, status)[..|holds| - 1] == Resolve(holds', pick, status);
      if PickedCount(holds', pick, id) > 0 {
        var i :| 0 <= i < |holds'| && holds'[i].status.Active? && holds'[i].transfer == id && pick(holds'[i]);
        assert holds[i] == holds'[i];
      }
      assert holds[|holds| - 1] == h;
    }
  }

  lemma {:induction false} PickedOfTransfer(holds: seq<Hold>, id: Id, x: Id)
    ensures PickedCount(holds, OfTransfer(id), x) == if x == id then ActiveCount(holds, id) else 0
  {
    if holds == [] {
    } else {
      PickedOfTransfer(holds[..|holds| - 1], id, x);
    }
  }

  /** Releasing a transfer's holds frees its amount on its debit account for each active one. */
  lemma {:induction false} PickedAmount(holds: seq<Hold>, id: Id, t: Transfer, a: Id)
    requires forall i :: 0 <= i < |holds| && holds[i].status.Active? && holds[i].transfer == id ==>
               holds[i].account == t.debit && holds[i].amount == t.amount
    ensures PickedSum(holds, OfTransfer(id), a) == if a == t.debit then ActiveCount(holds, id) * t.amount else 0
  {
    if holds == [] {
    } else {
      PickedAmount(holds[..|holds| - 1], id, t, a);
      var n := ActiveCount(holds[..|holds| - 1], id);
      assert (n + 1) * t.amount == n * t.amount + t.amount;
    }
  }

  /** Taking a live transfer out of the live states together with its holds. */
  lemma ReleaseKeepsHolds(b: Bank, id: Id, hs: HoldStatus, s: Status)
    requires HoldsOk(b) && id in b.transfers && !hs.Active? && !s.Live()
    ensures HoldsOk(b.(holds := Resolve(b.holds, OfTransfer(id), hs),
                       transfers := b.transfers[id := b.transfers[id].(status := s)]))
  {
    hide ActiveCount, PickedCount;
    var b' := b.(holds := Resolve(b.holds, OfTransfer(id), hs),
                 transfers := b.transfers[id := b.transfers[id].(status := s)]);
    forall x | x in b.transfers
      ensures ActiveCount(b'.holds, x) == if x == id then 0 else ActiveCount(b.holds, x)
    {
      ResolveCounts(b.holds, OfTransfer(id), hs, x);
      PickedOfTransfer(b.holds, id, x);
    }
    forall i | 0 <= i < |b'.holds|
      ensures HoldFits(b', b'.holds[i])
    {
      assert HoldFits(b, b.holds[i]);
    }
  }

  lemma {:induction false} AppendHold(holds: seq<Hold>, h: Hold, a: Id, id: Id)
    ensures HeldSum(holds + [h], a) == HeldSum(holds, a) + if h.status.Active? && h.account == a then h.amount else 0
    ensures ActiveCount(holds + [h], id) ==
            ActiveCount(holds, id) + if h.status.Active? && h.transfer == id then 1 else 0
  {
    assert (holds + [h])[..|holds|] == holds;
  }

  lemma {:induction false} NoneActive(holds: seq<Hold>, id: Id)
    requires forall i :: 0 <= i < |holds| && holds[i].status.Active? ==> holds[i].transfer != id
    ensures ActiveCount(holds, id) == 0
  {
    if holds == [] {
    } else {
      NoneActive(holds[..|holds| - 1], id);
    }
  }

  lemma {:induction false} NoEntries(ledger: seq<Entry>, id: Id)
    requires forall i :: 0 <= i < |ledger| ==> ledger[i].transfer != id
    ensures EntriesOf(ledger, id) == []
  {
    if ledger == [] {
    } else {
      NoEntries(ledger[..|ledger| - 1], id);
    }
  }

  // ---- a status change by itself ----

  /** Between states that are neither reversed nor a reversal's, only legs and holds are at stake. */
  lemma StatusKeeps(b: Bank, id: Id, s: Status)
    requires id in b.transfers && b.transfers[id].status.Live() && s != Reversed
    requires ReversalsOk(b) && KeysOk(b)
    ensures ReversalsOk(SetStatus(b, id, s)) && KeysOk(SetStatus(b, id, s))
  {
    var b' := SetStatus(b, id, s);
    assert forall r, o :: Reverses(b', r, o) <==> Reverses(b, r, o);
    forall o | o in b'.transfers && b'.transfers[o].status == Reversed
      ensures exists r :: Reverses(b', r, o)
    {
      var r :| Reverses(b, r, o);
      assert Reverses(b', r, o);
    }
  }

  // ---- transactions keep the contract ----

  lemma RequestKeeps(b: Bank, r: RequestArgs)
    requires Good(b)
    ensures RequestTransfer(b, r).Ok? ==> Good(RequestTransfer(b, r).bank)
    ensures RequestTransfer(b, r).Ok? ==> RequestTransfer(b, r).value.transfer in RequestTransfer(b, r).bank.transfers
  {
    hide RequestFault, Good;
    if RequestTransfer(b, r).Ok? {
      if RequestTransfer(b, r).value.replay {
        ReplayChangesNothing(b, r);
      } else {
        RequestIsNew(b, r);
        NewTransferKeeps(b, r);
      }
    }
  }

  lemma ReplayChangesNothing(b: Bank, r: RequestArgs)
    requires RequestTransfer(b, r).Ok? && RequestTransfer(b, r).value.replay
    ensures RequestTransfer(b, r).bank == b && RequestTransfer(b, r).value.transfer in b.transfers
  {
    hide RequestFault;
  }

  /** The tables after a new request. */
  function Authorised(b: Bank, r: RequestArgs): Bank
    requires r.debit in b.accounts
  {
    var a := b.accounts[r.debit];
    Bank(b.accounts[r.debit := a.(held := a.held + r.amount)],
         b.transfers[r.newId := Transfer(r.debit, r.credit, r.amount, Pending, r.kind, r.endToEnd, None)],
         b.holds + [Hold(r.newId, r.debit, r.amount, Active, r.expires)],
         b.ledger,
         b.keys[(r.owner, r.key) := KeyRecord(r.Claim(), r.newId)])
  }

  lemma RequestIsNew(b: Bank, r: RequestArgs)
    requires RequestTransfer(b, r).Ok? && !RequestTransfer(b, r).value.replay
    ensures RequestFault(b, r).None? && r.debit in b.accounts
    ensures RequestTransfer(b, r).bank == Authorised(b, r)
    ensures RequestTransfer(b, r).value == Requested(r.newId, Pending, false)
  {
  }

  lemma NewTransferKeeps(b: Bank, r: RequestArgs)
    requires Good(b) && RequestFault(b, r).None? && r.debit in b.accounts
    ensures Good(Authorised(b, r))
  {
    hide BalanceCaches, HeldCaches, Solvent, EntriesOf, Total, Running, HoldsOk, ReversalsOk;
    NewHoldIsCovered(b, r);
    NoEntries(b.ledger, r.newId);
    NewHoldKeeps(b, r);
    NewReversalsKeep(b, r);
  }

  lemma NewHoldIsCovered(b: Bank, r: RequestArgs)
    requires BalanceCaches(b) && HeldCaches(b) && Solvent(b) && RequestFault(b, r).None? && r.debit in b.accounts
    ensures BalanceCaches(Authorised(b, r)) && HeldCaches(Authorised(b, r)) && Solvent(Authorised(b, r))
  {
    hide BalanceSum, HeldSum;
    var h := Hold(r.newId, r.debit, r.amount, Active, r.expires);
    forall a
      ensures HeldSum(b.holds + [h], a) == HeldSum(b.holds, a) + if a == r.debit then r.amount else 0
    {
      AppendHold(b.holds, h, a, r.newId);
    }
  }

  lemma NewHoldKeeps(b: Bank, r: RequestArgs)
    requires HoldsOk(b) && r.debit in b.accounts && r.newId !in b.transfers
    ensures HoldsOk(Authorised(b, r))
  {
    hide ActiveCount, HeldSum;
    var b' := Authorised(b, r);
    var h := Hold(r.newId, r.debit, r.amount, Active, r.expires);
    forall x
      ensures ActiveCount(b'.holds, x) == ActiveCount(b.holds, x) + if x == r.newId then 1 else 0
    {
      AppendHold(b.holds, h, r.debit, x);
    }
    forall i | 0 <= i < |b.holds| && b.holds[i].status.Active?
      ensures b.holds[i].transfer != r.newId
    {
      assert HoldFits(b, b.holds[i]);
    }
    NoneActive(b.holds, r.newId);
    forall i | 0 <= i < |b'.holds|
      ensures HoldFits(b', b'.holds[i])
    {
      if i < |b.holds| {
        assert HoldFits(b, b.holds[i]);
      }
    }
  }

  lemma NewReversalsKeep(b: Bank, r: RequestArgs)
    requires ReversalsOk(b) && r.debit in b.accounts && r.newId !in b.transfers
    ensures ReversalsOk(Authorised(b, r))
  {
    var b' := Authorised(b, r);
    assert forall x, o :: Reverses(b', x, o) <==> Reverses(b, x, o);
    forall o | o in b'.transfers && b'.transfers[o].status == Reversed
      ensures exists x :: Reverses(b', x, o)
    {
      var x :| Reverses(b, x, o);
      assert Reverses(b', x, o);
    }
  }

  lemma PostKeeps(b: Bank, id: Id, source: Status)
    requires Good(b) && source.Live()
    ensures PostTransfer(b, id, source).Ok? ==> Good(PostTransfer(b, id, source).bank)
  {
    hide Good;
    if PostTransfer(b, id, source).Ok? && b.transfers[id].status == source {
      PostingKeeps(b, id);
      PostIs(b, id, source);
    } else if PostTransfer(b, id, source).Ok? {
      hide AddLegs, ResolveHolds;
    }
  }

  /** The tables after a posting: both balances moved, the hold captured, the transfer posted. */
  function PostedBank(b: Bank, id: Id): Bank
    requires id in b.transfers
    requires AddLegs(b, id, b.transfers[id].debit, b.transfers[id].credit, b.transfers[id].amount).Ok?
    requires ResolveHolds(AddLegs(b, id, b.transfers[id].debit, b.transfers[id].credit, b.transfers[id].amount).bank,
                          OfTransfer(id), Captured).Ok?
  {
    var t := b.transfers[id];
    var b1 := AddLegs(b, id, t.debit, t.credit, t.amount).bank;
    var b2 := ResolveHolds(b1, OfTransfer(id), Captured).bank;
    b2.(transfers := b2.transfers[id := t.(status := Posted)])
  }

  lemma PostIs(b: Bank, id: Id, source: Status)
    requires source.Live() && id in b.transfers && b.transfers[id].status == source
    requires PostTransfer(b, id, source).Ok?
    ensures AddLegs(b, id, b.transfers[id].debit, b.transfers[id].credit, b.transfers[id].amount).Ok?
    ensures ResolveHolds(AddLegs(b, id, b.transfers[id].debit, b.transfers[id].credit, b.transfers[id].amount).bank,
                         OfTransfer(id), Captured).Ok?
    ensures PostTransfer(b, id, source).bank == PostedBank(b, id)
  {
    hide AddLegs, ResolveHolds;
  }

  lemma AfterLegs(b: Bank, id: Id)
    requires Good(b) && id in b.transfers && b.transfers[id].status.Live()
    requires AddLegs(b, id, b.transfers[id].debit, b.transfers[id].credit, b.transfers[id].amount).Ok?
    ensures var t := b.transfers[id];
            var b1 := AddLegs(b, id, t.debit, t.credit, t.amount).bank;
            && HeldCaches(b1) && Amounts(b1.holds)
            && b1.holds == b.holds && b1.transfers == b.transfers && b1.keys == b.keys
            && ResolveHolds(b1, OfTransfer(id), Captured).Ok?
            && ResolveHolds(b, OfTransfer(id), Captured).Ok?
            && forall a :: PickedSum(b.holds, OfTransfer(id), a) == if a == t.debit then t.amount else 0
  {
    hide BalanceCaches, HeldSum, PickedSum, Legs, Running, Total, AddLegs, ResolveHolds, ActiveCount, ReversalsOk,
      KeysOk;
    var t := b.transfers[id];
    var b1 := AddLegs(b, id, t.debit, t.credit, t.amount).bank;
    AddLegsShape(b, id, t.debit, t.credit, t.amount);
    GoodAmounts(b);
    assert HeldCaches(b1);
    ResolveKeeps(b1, OfTransfer(id), Captured);
    ResolveKeeps(b, OfTransfer(id), Captured);
    forall i | 0 <= i < |b.holds| && b.holds[i].status.Active? && b.holds[i].transfer == id
      ensures b.holds[i].account == t.debit && b.holds[i].amount == t.amount
    {
      assert HoldFits(b, b.holds[i]);
    }
    forall a
      ensures PickedSum(b.holds, OfTransfer(id), a) == if a == t.debit then t.amount else 0
    {
      PickedAmount(b.holds, id, t, a);
    }
  }

  lemma PostingKeeps(b: Bank, id: Id)
    requires Good(b) && id in b.transfers && b.transfers[id].status.Live()
    requires AddLegs(b, id, b.transfers[id].debit, b.transfers[id].credit, b.transfers[id].amount).Ok?
    ensures ResolveHolds(AddLegs(b, id, b.transfers[id].debit, b.transfers[id].credit, b.transfers[id].amount).bank,
                         OfTransfer(id), Captured).Ok?
    ensures Good(PostedBank(b, id))
  {
    hide PickedSum, EntriesOf, Total, Running, AddLegs, ResolveHolds, Resolve, BalanceCaches, HeldCaches,
      Solvent, Legs, HoldsOk, ReversalsOk, KeysOk;
    var t := b.transfers[id];
    AfterLegs(b, id);
    var b1 := AddLegs(b, id, t.debit, t.credit, t.amount).bank;
    AddLegsShape(b, id, t.debit, t.credit, t.amount);
    AddLegsKeeps(b, id, t.debit, t.credit, t.amount);
    ResolveKeeps(b1, OfTransfer(id), Captured);
    var b2 := ResolveHolds(b1, OfTransfer(id), Captured).bank;
    var b3 := PostedBank(b, id);
    SameBalances(b1, b3);
    HeldCachesRead(b2, b3);
    PostedIsSolvent(b, b1, b3, t);
    PostedRest(b, b3, id);
    PostedLegs(b, b3, id);
  }

  lemma PostedRest(b: Bank, b3: Bank, id: Id)
    requires HoldsOk(b) && ReversalsOk(b) && KeysOk(b) && id in b.transfers && b.transfers[id].status.Live()
    requires b3.transfers == b.transfers[id := b.transfers[id].(status := Posted)] && b3.keys == b.keys
    requires b3.holds == Resolve(b.holds, OfTransfer(id), Captured)
    ensures HoldsOk(b3) && ReversalsOk(b3) && KeysOk(b3)
  {
    hide HoldsOk, ReversalsOk, KeysOk, Resolve;
    ReleaseKeepsHolds(b, id, Captured, Posted);
    HoldsRead(b.(holds := b3.holds, transfers := b3.transfers), b3);
    StatusKeeps(b, id, Posted);
    TransfersRead(SetStatus(b, id, Posted), b3);
  }

  lemma SameBalances(b: Bank, b': Bank)
    requires BalanceCaches(b) && b'.ledger == b.ledger && b'.accounts.Keys == b.accounts.Keys
    requires forall a :: a in b.accounts ==> b'.accounts[a].balance == b.accounts[a].balance
    ensures BalanceCaches(b')
  {
    hide BalanceSum;
  }

  /** What leaves the debit account was held there. */
  lemma PostedIsSolvent(b: Bank, b1: Bank, b3: Bank, t: Transfer)
    requires Solvent(b) && t.debit in b.accounts && t.credit in b.accounts && t.debit != t.credit && t.amount > 0
    requires b1.accounts == Moved(b.accounts, t.debit, t.credit, t.amount) && b3.accounts.Keys == b.accounts.Keys
    requires forall a :: a in b.accounts ==>
               b3.accounts[a] == b1.accounts[a].(held := b1.accounts[a].held - if a == t.debit then t.amount else 0)
    ensures Solvent(b3)
  {
  }

  lemma PostedLegs(b: Bank, b3: Bank, id: Id)
    requires Legs(b) && id in b.transfers && b.transfers[id].status.Live()
    requires b3.transfers == b.transfers[id := b.transfers[id].(status := Posted)]
    requires |b3.ledger| == |b.ledger| + 2
    requires IsLeg(b3.ledger[|b.ledger|], b.transfers[id].debit, Debit, b.transfers[id].amount)
    requires IsLeg(b3.ledger[|b.ledger| + 1], b.transfers[id].credit, Credit, b.transfers[id].amount)
    requires EntriesOf(b3.ledger, id) == EntriesOf(b.ledger, id) + b3.ledger[|b.ledger|..]
    requires forall x :: x != id ==> EntriesOf(b3.ledger, x) == EntriesOf(b.ledger, x)
    ensures Legs(b3)
  {
    hide EntriesOf;
    forall x | x in b3.transfers
      ensures LegsOk(EntriesOf(b3.ledger, x), b3.transfers[x])
    {
      assert LegsOk(EntriesOf(b.ledger, x), b.transfers[x]);
    }
  }

  /** What a clause reads: equal tables, equal verdicts. */
  lemma HoldsRead(b: Bank, b': Bank)
    requires HoldsOk(b) && b'.holds == b.holds && b'.transfers == b.transfers
    ensures HoldsOk(b')
  {
    forall i | 0 <= i < |b'.holds|
      ensures HoldFits(b', b'.holds[i])
    {
      assert HoldFits(b, b.holds[i]);
    }
  }

  lemma HeldCachesRead(b: Bank, b': Bank)
    requires HeldCaches(b) && b'.accounts == b.accounts && b'.holds == b.holds
    ensures HeldCaches(b')
  {
  }

  lemma TransfersRead(b: Bank, b': Bank)
    requires ReversalsOk(b) && KeysOk(b) && b'.transfers == b.transfers && b'.keys == b.keys
    ensures ReversalsOk(b') && KeysOk(b')
  {
    ReversalsRead(b, b');
  }

  // ---- transactions that only settle or park ----

  /** Statuses changed from live ones to unbooked ones, nothing else of the transfers. */
  predicate Restatused(b: Bank, b': Bank) {
    && b'.transfers.Keys == b.transfers.Keys
    && forall id :: id in b.transfers ==>
         && b'.transfers[id] == b.transfers[id].(status := b'.transfers[id].status)
         && (b'.transfers[id].status == b.transfers[id].status
             || (b.transfers[id].status.Live() && !b'.transfers[id].status.Booked()))
  }

  lemma RestatusKeeps(b: Bank, b': Bank)
    requires Refs(b) && Legs(b) && ReversalsOk(b) && KeysOk(b) && Restatused(b, b')
    requires b'.ledger == b.ledger && b'.keys == b.keys && b'.accounts.Keys == b.accounts.Keys
    ensures Refs(b') && Legs(b') && ReversalsOk(b') && KeysOk(b')
  {
    hide EntriesOf, ReversalsOk;
    RestatusKeepsReversals(b, b');
  }

  lemma RestatusKeepsReversals(b: Bank, b': Bank)
    requires ReversalsOk(b) && Restatused(b, b')
    ensures ReversalsOk(b')
  {
    assert forall r, o :: Reverses(b', r, o) <==> Reverses(b, r, o);
    forall o | o in b'.transfers && b'.transfers[o].status == Reversed
      ensures exists r :: Reverses(b', r, o)
    {
      var r :| Reverses(b, r, o);
      assert Reverses(b', r, o);
    }
  }

  /** Freed funds keep a customer solvent. */
  lemma LessHeldIsSolvent(b: Bank, b': Bank)
    requires Solvent(b) && b'.accounts.Keys == b.accounts.Keys
    requires forall a :: a in b.accounts ==>
               && b'.accounts[a] == b.accounts[a].(held := b'.accounts[a].held)
               && b'.accounts[a].held <= b.accounts[a].held
    ensures Solvent(b')
  {
  }

  lemma CancelKeeps(b: Bank, id: Id)
    requires Good(b)
    ensures CancelTransfer(b, id).Ok? ==> Good(CancelTransfer(b, id).bank)
  {
    hide PickedSum, Total, Running, ResolveHolds, Resolve, Refs, BalanceCaches, HeldCaches, Solvent, Legs, HoldsOk,
      ReversalsOk, KeysOk, Amounts;
    if CancelTransfer(b, id).Ok? && b.transfers[id].status != Canceled {
      GoodAmounts(b);
      ResolveKeeps(b, OfTransfer(id), Released);
      var b1, b2 := ResolveHolds(b, OfTransfer(id), Released).bank, CancelTransfer(b, id).bank;
      SameBalances(b, b2);
      HeldCachesRead(b1, b2);
      LessHeldIsSolvent(b, b2);
      RestatusKeeps(b, b2);
      ReleaseKeepsHolds(b, id, Released, Canceled);
      HoldsRead(b.(holds := Resolve(b.holds, OfTransfer(id), Released),
                   transfers := b.transfers[id := b.transfers[id].(status := Canceled)]), b2);
    }
  }

  lemma {:induction false} StretchSums(holds: seq<Hold>, id: Id, expires: int, a: Id, x: Id)
    ensures HeldSum(Stretch(holds, id, expires), a) == HeldSum(holds, a)
    ensures ActiveCount(Stretch(holds, id, expires), x) == ActiveCount(holds, x)
  {
    if holds == [] {
    } else {
      var holds' := holds[..|holds| - 1];
      StretchSums(holds', id, expires, a, x);
      assert Stretch(holds, id, expires)[..|holds| - 1] == Stretch(holds', id, expires);
    }
  }

  lemma PlaceHoldKeeps(b: Bank, id: Id, status: Status, expires: int)
    requires Good(b) && (status.Held? || status.UnderReview?)
    ensures PlaceHold(b, id, status, expires).Ok? ==> Good(PlaceHold(b, id, status, expires).bank)
  {
    hide HeldSum, ActiveCount, Total, Running, Refs, BalanceCaches, Legs, ReversalsOk, KeysOk;
    if PlaceHold(b, id, status, expires).Ok? {
      var b' := PlaceHold(b, id, status, expires).bank;
      SameBalances(b, b');
      RestatusKeeps(b, b');
      forall x
        ensures HeldSum(b'.holds, x) == HeldSum(b.holds, x)
        ensures ActiveCount(b'.holds, x) == ActiveCount(b.holds, x)
      {
        StretchSums(b.holds, id, expires, x, x);
      }
      forall i | 0 <= i < |b'.holds|
        ensures HoldFits(b', b'.holds[i])
      {
        assert HoldFits(b, b.holds[i]);
      }
    }
  }

  lemma AutoTransferKeeps(b: Bank, r: RequestArgs, decision: Decision)
    requires Good(b)
    ensures AutoTransfer(b, r, decision).Ok? ==> Good(AutoTransfer(b, r, decision).bank)
  {
    hide Good, RequestTransfer, PostTransfer, PlaceHold;
    if RequestTransfer(b, r).Ok? {
      RequestKeeps(b, r);
      var b', id := RequestTransfer(b, r).bank, RequestTransfer(b, r).value.transfer;
      PostKeeps(b', id, Pending);
      match decision {
        case Screen(expires) => PlaceHoldKeeps(b', id, UnderReview, expires);
        case Review(expires) => PlaceHoldKeeps(b', id, Held, expires);
        case _ =>
      }
    }
  }

  lemma ExpiredHoldsKeep(b: Bank, b': Bank, now: int)
    requires HoldsOk(b) && b'.holds == Resolve(b.holds, LapsedBy(now), Expired)
    requires b'.transfers.Keys == b.transfers.Keys
    requires forall id :: id in b.transfers ==>
               var t := b.transfers[id];
               b'.transfers[id] == if t.status.Live() && Lapses(b.holds, id, now)
                                   then t.(status := if t.status.Pending? then Failed else Canceled) else t
    ensures HoldsOk(b')
  {
    hide ActiveCount, PickedCount;
    forall id | id in b.transfers
      ensures ActiveCount(b'.holds, id) == if b'.transfers[id].status.Live() then 1 else 0
    {
      ResolveCounts(b.holds, LapsedBy(now), Expired, id);
    }
    forall i | 0 <= i < |b'.holds|
      ensures HoldFits(b', b'.holds[i])
    {
      assert HoldFits(b, b.holds[i]);
      if b'.holds[i].status.Active? {
        ActiveIsCounted(b'.holds, i);
      }
    }
  }

  lemma ActiveIsCounted(holds: seq<Hold>, i: nat)
    requires i < |holds| && holds[i].status.Active?
    ensures ActiveCount(holds, holds[i].transfer) > 0
  {
    var id := holds[i].transfer;
    hide ActiveCount, PickedCount;
    ResolveCounts(holds, OfTransfer(id), Expired, id);
    PickedOfTransfer(holds, id, id);
    assert OfTransfer(id)(holds[i]);
  }

  lemma ExpireKeeps(b: Bank, now: int)
    requires Good(b)
    ensures ExpireHolds(b, now).Ok? && Good(ExpireHolds(b, now).bank)
  {
    hide PickedSum, Total, Running, ResolveHolds, Resolve, Refs, BalanceCaches, HeldCaches, Solvent, Legs, HoldsOk,
      ReversalsOk, KeysOk, Amounts, Lapses;
    GoodAmounts(b);
    ResolveKeeps(b, LapsedBy(now), Expired);
    var b1, b2 := ResolveHolds(b, LapsedBy(now), Expired).bank, ExpireHolds(b, now).bank;
    SameBalances(b, b2);
    HeldCachesRead(b1, b2);
    LessHeldIsSolvent(b, b2);
    RestatusKeeps(b, b2);
    ExpiredHoldsKeep(b, b2, now);
  }

  // ---- the reversal ----

  /** The tables after a first reversal. */
  ghost function ReversedBank(b: Bank, id: Id, key: string, newId: Id): Bank
    requires id in b.transfers
    requires AddLegs(b, newId, b.transfers[id].credit, b.transfers[id].debit, b.transfers[id].amount).Ok?
  {
    var t := b.transfers[id];
    var b' := AddLegs(b, newId, t.credit, t.debit, t.amount).bank;
    b'.(transfers := b'.transfers[newId := Transfer(t.credit, t.debit, t.amount, Posted, Reversal, "", Some(id))]
                                 [id := t.(status := Reversed)],
        keys := b'.keys[(SENTINEL, key) := KeyRecord(ForReversal(id), newId)])
  }

  /** A first reversal is of a posted transfer whose beneficiary can still return the funds. */
  predicate FirstReversal(b: Bank, id: Id, key: string, newId: Id) {
    && (SENTINEL, key) !in b.keys && id in b.transfers && b.transfers[id].status == Posted && newId !in b.transfers
    && b.transfers[id].credit in b.accounts
    && var c := b.accounts[b.transfers[id].credit];
       (c.customer ==> c.held + b.transfers[id].amount <= c.balance)
       && AddLegs(b, newId, b.transfers[id].credit, b.transfers[id].debit, b.transfers[id].amount).Ok?
  }

  lemma ReverseIs(b: Bank, id: Id, key: string, newId: Id)
    requires ReverseTransfer(b, id, key, newId).Ok?
    ensures if FirstReversal(b, id, key, newId)
            then ReverseTransfer(b, id, key, newId) == Ok(ReversedBank(b, id, key, newId), newId)
            else
              var r := ReverseTransfer(b, id, key, newId).value;
              ReverseTransfer(b, id, key, newId).bank == b
              || (Reverses(b, r, id)
                  && ReverseTransfer(b, id, key, newId).bank
                     == b.(keys := b.keys[(SENTINEL, key) := KeyRecord(ForReversal(id), r)]))
  {
    hide AddLegs;
  }

  lemma ReversalLegs(b: Bank, id: Id, key: string, newId: Id)
    requires Refs(b) && Legs(b) && FirstReversal(b, id, key, newId) && BalanceCaches(b) && Running(b.ledger)
    ensures Legs(ReversedBank(b, id, key, newId))
  {
    hide EntriesOf, AddLegs, BalanceCaches, Running, Total;
    var t := b.transfers[id];
    AddLegsShape(b, newId, t.credit, t.debit, t.amount);
    AddLegsKeeps(b, newId, t.credit, t.debit, t.amount);
    NoEntries(b.ledger, newId);
    var b' := ReversedBank(b, id, key, newId);
    forall x | x in b'.transfers
      ensures LegsOk(EntriesOf(b'.ledger, x), b'.transfers[x])
    {
      assert x != newId ==> LegsOk(EntriesOf(b.ledger, x), b.transfers[x]);
    }
  }

  lemma ReversalPairs(b: Bank, id: Id, key: string, newId: Id)
    requires ReversalsOk(b) && KeysOk(b) && FirstReversal(b, id, key, newId)
    ensures ReversalsOk(ReversedBank(b, id, key, newId)) && KeysOk(ReversedBank(b, id, key, newId))
  {
    hide AddLegs;
    var t := b.transfers[id];
    LegsTouchOnly(b, newId, t.credit, t.debit, t.amount);
    var b' := ReversedBank(b, id, key, newId);
    forall r, o
      ensures Reverses(b', r, o) <==> Reverses(b, r, o) || (r == newId && o == id)
    {
      assert !Reverses(b, r, newId);
    }
    assert forall r :: !Reverses(b, r, id);
    forall o | o in b'.transfers && b'.transfers[o].status == Reversed
      ensures exists r :: Reverses(b', r, o)
    {
      if o == id {
        assert Reverses(b', newId, o);
      } else {
        var r :| Reverses(b, r, o);
        assert Reverses(b', r, o);
      }
    }
  }

  lemma LegsTouchOnly(b: Bank, id: Id, from: Id, to: Id, amount: int)
    requires AddLegs(b, id, from, to, amount).Ok?
    ensures var b' := AddLegs(b, id, from, to, amount).bank;
            b'.transfers == b.transfers && b'.keys == b.keys && b'.holds == b.holds
  {
  }

  lemma ReversalHolds(b: Bank, id: Id, key: string, newId: Id)
    requires Refs(b) && HoldsOk(b) && HeldCaches(b) && Solvent(b) && FirstReversal(b, id, key, newId)
    ensures var b' := ReversedBank(b, id, key, newId);
            HoldsOk(b') && HeldCaches(b') && Solvent(b') && b'.holds == b.holds
  {
    hide AddLegs, ActiveCount, HeldSum;
    var t := b.transfers[id];
    AddLegsShape(b, newId, t.credit, t.debit, t.amount);
    var b' := ReversedBank(b, id, key, newId);
    forall i | 0 <= i < |b.holds| && b.holds[i].status.Active?
      ensures b.holds[i].transfer != newId && HoldFits(b', b.holds[i])
    {
      assert HoldFits(b, b.holds[i]);
    }
    NoneActive(b.holds, newId);
  }

  lemma ReverseKeeps(b: Bank, id: Id, key: string, newId: Id)
    requires Good(b)
    ensures ReverseTransfer(b, id, key, newId).Ok? ==> Good(ReverseTransfer(b, id, key, newId).bank)
  {
    hide ReverseTransfer, AddLegs, EntriesOf, Total, Running, BalanceCaches, HeldCaches, Solvent, Legs, HoldsOk,
      ReversalsOk, FirstReversal;
    var o := ReverseTransfer(b, id, key, newId);
    if o.Ok? {
      ReverseIs(b, id, key, newId);
      if FirstReversal(b, id, key, newId) {
        FirstReversalKeeps(b, id, key, newId);
      } else if o.bank != b {
        NewKeyKeeps(b, (SENTINEL, key), KeyRecord(ForReversal(id), o.value));
      }
    }
  }

  lemma FirstReversalKeeps(b: Bank, id: Id, key: string, newId: Id)
    requires Good(b) && FirstReversal(b, id, key, newId)
    ensures Good(ReversedBank(b, id, key, newId))
  {
    hide AddLegs, EntriesOf, Total, Running, BalanceCaches, HeldCaches, Solvent, Legs, HoldsOk, ReversalsOk, KeysOk;
    var t := b.transfers[id];
    AddLegsShape(b, newId, t.credit, t.debit, t.amount);
    AddLegsKeeps(b, newId, t.credit, t.debit, t.amount);
    ReversalLegs(b, id, key, newId);
    ReversalPairs(b, id, key, newId);
    ReversalHolds(b, id, key, newId);
    SameBalances(AddLegs(b, newId, t.credit, t.debit, t.amount).bank, ReversedBank(b, id, key, newId));
  }

  lemma NewKeyKeeps(b: Bank, k: (Id, string), rec: KeyRecord)
    requires Good(b) && rec.transfer in b.transfers && ClaimFits(rec.claim, b.transfers[rec.transfer])
    ensures Good(b.(keys := b.keys[k := rec]))
  {
    hide BalanceSum, HeldSum, EntriesOf, Total, Running, Legs, ReversalsOk, HoldsOk;
    var b' := b.(keys := b.keys[k := rec]);
    HoldsRead(b, b');
    ReversalsRead(b, b');
    LegsRead(b, b');
  }

  lemma ReversalsRead(b: Bank, b': Bank)
    requires ReversalsOk(b) && b'.transfers == b.transfers
    ensures ReversalsOk(b')
  {
    assert forall r, o :: Reverses(b', r, o) <==> Reverses(b, r, o);
    forall o | o in b'.transfers && b'.transfers[o].status == Reversed
      ensures exists r :: Reverses(b', r, o)
    {
      var r :| Reverses(b, r, o);
      assert Reverses(b', r, o);
    }
  }

  lemma LegsRead(b: Bank, b': Bank)
    requires Legs(b) && b'.transfers == b.transfers && b'.ledger == b.ledger
    ensures Legs(b')
  {
    hide EntriesOf;
  }

  // ---- accounts and keys ----

  lemma {:induction false} NothingHeld(holds: seq<Hold>, a: Id)
    requires forall i :: 0 <= i < |holds| && holds[i].status.Active? ==> holds[i].account != a
    ensures HeldSum(holds, a) == 0
  {
    if holds == [] {
    } else {
      NothingHeld(holds[..|holds| - 1], a);
    }
  }

  lemma {:induction false} NothingBooked(ledger: seq<Entry>, a: Id)
    requires forall i :: 0 <= i < |ledger| ==> ledger[i].account != a
    ensures BalanceSum(ledger, a) == 0
  {
    if ledger == [] {
    } else {
      NothingBooked(ledger[..|ledger| - 1], a);
    }
  }

  lemma OpenKeeps(b: Bank, id: Id, customer: bool, limit: int)
    requires Good(b)
    ensures OpenAccount(b, id, customer, limit).Ok? ==> Good(OpenAccount(b, id, customer, limit).bank)
  {
    hide BalanceSum, HeldSum, EntriesOf, ActiveCount, Total, Running, Legs, ReversalsOk, HoldsOk;
    if id !in b.accounts && limit >= 0 {
      var b' := OpenAccount(b, id, customer, limit).bank;
      NewAccountHasNoHolds(b, id);
      NothingBooked(b.ledger, id);
      HoldsRead(b, b');
      ReversalsRead(b, b');
      LegsRead(b, b');
    }
  }

  lemma NewAccountHasNoHolds(b: Bank, id: Id)
    requires Refs(b) && HoldsOk(b) && id !in b.accounts
    ensures HeldSum(b.holds, id) == 0
  {
    hide ActiveCount, HeldSum;
    forall i | 0 <= i < |b.holds| && b.holds[i].status.Active?
      ensures b.holds[i].account != id
    {
      assert HoldFits(b, b.holds[i]);
    }
    NothingHeld(b.holds, id);
  }

  lemma SetKeeps(b: Bank, id: Id, active: bool, limit: int)
    requires Good(b)
    ensures SetAccount(b, id, active, limit).Ok? ==> Good(SetAccount(b, id, active, limit).bank)
  {
    hide BalanceSum, HeldSum, EntriesOf, ActiveCount, Total, Running, Legs, ReversalsOk, HoldsOk;
    if id in b.accounts && limit >= 0 {
      var b' := SetAccount(b, id, active, limit).bank;
      HoldsRead(b, b');
      ReversalsRead(b, b');
      LegsRead(b, b');
    }
  }

  lemma CleanupKeeps(b: Bank, expired: set<(Id, string)>)
    requires Good(b)
    ensures Good(CleanupKeys(b, expired).bank)
  {
    hide BalanceSum, HeldSum, EntriesOf, ActiveCount, Total, Running, Legs, ReversalsOk, HoldsOk;
    var b' := CleanupKeys(b, expired).bank;
    HoldsRead(b, b');
    ReversalsRead(b, b');
    LegsRead(b, b');
  }

  lemma StepKeeps(b: Bank, op: Op)
    requires Good(b) && Proper(op)
    ensures Good(Step(b, op))
  {
    hide Good, RequestTransfer, AutoTransfer, PostTransfer, CancelTransfer, ReverseTransfer, ExpireHolds, OpenAccount,
      SetAccount;
    match op {
      case DoRequest(r) => RequestKeeps(b, r);
      case DoTransfer(r, d) => AutoTransferKeeps(b, r, d);
      case DoPost(id, source) => PostKeeps(b, id, source);
      case DoCancel(id) => CancelKeeps(b, id);
      case DoReverse(id, key, newId) => ReverseKeeps(b, id, key, newId);
      case DoExpire(now) => ExpireKeeps(b, now);
      case DoOpen(id, customer, limit) => OpenKeeps(b, id, customer, limit);
      case DoSet(id, active, limit) => SetKeeps(b, id, active, limit);
      case DoCleanup(expired) => CleanupKeeps(b, expired);
    }
  }

  lemma NewBankIsGood()
    ensures Good(NEW_BANK)
  {
  }

  lemma {:induction false} RunsKeep(b: Bank, ops: seq<Op>)
    requires Good(b) && AllProper(ops)
    ensures Good(RunFrom(b, ops))
  {
    hide Good, Step;
    if ops == [] {
    } else {
      RunsKeep(b, ops[..|ops| - 1]);
      StepKeeps(RunFrom(b, ops[..|ops| - 1]), ops[|ops| - 1]);
    }
  }

  /** The contract holds after every run of transactions, committed or rolled back. */
  lemma EveryRunIsGood(ops: seq<Op>)
    requires AllProper(ops)
    ensures Good(BankAfter(ops))
  {
    hide Good, RunFrom;
    NewBankIsGood();
    RunsKeep(NEW_BANK, ops);
  }
}
