/** What a repeated payment request or a repeated reversal comes to, over whole runs. */
module LedgerReplay {
  import opened Ledger
  import opened LedgerBooks
  import opened LedgerTheorems
  import opened Wrappers

  // ---- idempotency keys ----

  /** No cleanup in the run drops the key. */
  predicate KeyKept(ops: seq<Op>, k: (Id, string)) {
    forall i :: 0 <= i < |ops| && ops[i].DoCleanup? ==> k !in ops[i].expired
  }

  lemma PostTouchesNoKey(b: Bank, id: Id, source: Status)
    ensures PostTransfer(b, id, source).Ok? ==> PostTransfer(b, id, source).bank.keys == b.keys
  {
    hide PickedSum, Resolve;
  }

  lemma RequestKeepsKeys(b: Bank, r: RequestArgs, k: (Id, string))
    requires k in b.keys
    ensures var b' := Committed(b, RequestTransfer(b, r)); k in b'.keys && b'.keys[k] == b.keys[k]
  {
    hide RequestFault;
  }

  lemma KeyPersists(b: Bank, op: Op, k: (Id, string))
    requires k in b.keys && (op.DoCleanup? ==> k !in op.expired)
    ensures k in Step(b, op).keys && Step(b, op).keys[k] == b.keys[k]
  {
    hide RequestTransfer, AutoTransfer, PostTransfer, ReverseTransfer, PickedSum, Resolve, Lapses, FirstReversal;
    match op {
      case DoRequest(r) => RequestKeepsKeys(b, r, k);
      case DoTransfer(r, d) =>
        AutoTouchesKeysAsRequest(b, r, d);
        RequestKeepsKeys(b, r, k);
      case DoPost(id, source) => PostTouchesNoKey(b, id, source);
      case DoReverse(id, key, newId) =>
        ReverseKeepsKeys(b, id, key, newId, k);
      case _ =>
    }
  }

  lemma ReverseKeepsKeys(b: Bank, id: Id, key: string, newId: Id, k: (Id, string))
    requires k in b.keys
    ensures var b' := Committed(b, ReverseTransfer(b, id, key, newId)); k in b'.keys && b'.keys[k] == b.keys[k]
  {
    if id in b.transfers {
      var t := b.transfers[id];
      if AddLegs(b, newId, t.credit, t.debit, t.amount).Ok? {
        LegsTouchOnly(b, newId, t.credit, t.debit, t.amount);
      }
    }
    hide AddLegs;
  }

  /** A payment's record that a transaction writes names a transfer the transaction makes. */
  lemma NewKeyNamesNew(b: Bank, op: Op, k: (Id, string))
    requires k in Step(b, op).keys && Step(b, op).keys[k].claim.ForTransfer?
    ensures (k in b.keys && b.keys[k] == Step(b, op).keys[k]) || Step(b, op).keys[k].transfer !in b.transfers
  {
    hide RequestTransfer, AutoTransfer, PostTransfer, ReverseTransfer, PickedSum, Resolve, Lapses, FirstReversal;
    match op {
      case DoRequest(r) => RequestNamesNew(b, r, k);
      case DoTransfer(r, d) =>
        AutoTouchesKeysAsRequest(b, r, d);
        RequestNamesNew(b, r, k);
      case DoPost(id, source) => PostTouchesNoKey(b, id, source);
      case DoReverse(id, key, newId) => ReverseNamesNoPayment(b, id, key, newId, k);
      case _ =>
    }
  }

  lemma RequestNamesNew(b: Bank, r: RequestArgs, k: (Id, string))
    ensures RequestTransfer(b, r).Ok? ==>
              var b' := RequestTransfer(b, r).bank;
              k in b'.keys ==> (k in b.keys && b.keys[k] == b'.keys[k]) || b'.keys[k].transfer !in b.transfers
  {
    hide HeldSum;
  }

  lemma AutoTouchesKeysAsRequest(b: Bank, r: RequestArgs, decision: Decision)
    ensures AutoTransfer(b, r, decision).Ok? ==>
              && RequestTransfer(b, r).Ok?
              && AutoTransfer(b, r, decision).bank.keys == RequestTransfer(b, r).bank.keys
              && AutoTransfer(b, r, decision).value.transfer == RequestTransfer(b, r).value.transfer
              && AutoTransfer(b, r, decision).value.replay == RequestTransfer(b, r).value.replay
  {
    hide RequestTransfer, PostTransfer, Stretch;
    if RequestTransfer(b, r).Ok? {
      PostTouchesNoKey(RequestTransfer(b, r).bank, RequestTransfer(b, r).value.transfer, Pending);
    }
  }

  lemma ReverseNamesNoPayment(b: Bank, id: Id, key: string, newId: Id, k: (Id, string))
    ensures var b' := Committed(b, ReverseTransfer(b, id, key, newId));
            k in b'.keys && b'.keys[k].claim.ForTransfer? ==> k in b.keys && b.keys[k] == b'.keys[k]
  {
    hide ReverseTransfer, AddLegs, FirstReversal;
    if ReverseTransfer(b, id, key, newId).Ok? {
      ReverseIs(b, id, key, newId);
      if FirstReversal(b, id, key, newId) {
        FirstReversalKeys(b, id, key, newId);
      }
    }
  }

  lemma FirstReversalKeys(b: Bank, id: Id, key: string, newId: Id)
    requires FirstReversal(b, id, key, newId)
    ensures ReversedBank(b, id, key, newId).keys == b.keys[(SENTINEL, key) := KeyRecord(ForReversal(id), newId)]
  {
    LegsTouchOnly(b, newId, b.transfers[id].credit, b.transfers[id].debit, b.transfers[id].amount);
    hide AddLegs;
  }

  /** Transfer t exists, but no payment under the key will be taken for it. */
  predicate Forgotten(b: Bank, k: (Id, string), t: Id) {
    t in b.transfers && (k in b.keys && b.keys[k].claim.ForTransfer? ==> b.keys[k].transfer != t)
  }

  lemma ForgottenStays(b: Bank, op: Op, k: (Id, string), t: Id)
    requires Forgotten(b, k, t) && Proper(op)
    ensures Forgotten(Step(b, op), k, t)
  {
    hide Step;
    StatusOnlyAdvances(b, op, t);
    if k in Step(b, op).keys && Step(b, op).keys[k].claim.ForTransfer? {
      NewKeyNamesNew(b, op, k);
    }
  }

  lemma CleanupForgets(b: Bank, expired: set<(Id, string)>, k: (Id, string))
    requires Good(b) && k in b.keys && k in expired
    ensures Forgotten(Step(b, DoCleanup(expired)), k, b.keys[k].transfer)
  {
    hide Good;
    KeyTargets(b, k);
  }

  /** What becomes of a payment's key in a run: its record is still there, or the payment is forgotten. */
  lemma {:induction false} KeyAfterRun(b: Bank, ops: seq<Op>, k: (Id, string))
    requires Good(b) && AllProper(ops) && k in b.keys
    ensures Good(RunFrom(b, ops))
    ensures if KeyKept(ops, k)
            then k in RunFrom(b, ops).keys && RunFrom(b, ops).keys[k] == b.keys[k]
            else Forgotten(RunFrom(b, ops), k, b.keys[k].transfer)
  {
    hide Good, Step, Forgotten, KeyKept;
    RunsKeep(b, ops);
    if ops == [] {
      KeptByNothing(k);
    } else {
      var before, op := ops[..|ops| - 1], ops[|ops| - 1];
      assert ops == before + [op];
      KeyAfterRun(b, before, k);
      KeptStep(before, op, k);
      if !KeyKept(before, k) {
        ForgottenStays(RunFrom(b, before), op, k, b.keys[k].transfer);
      } else if op.DoCleanup? && k in op.expired {
        CleanupForgets(RunFrom(b, before), op.expired, k);
      } else {
        KeyPersists(RunFrom(b, before), op, k);
      }
    }
  }

  lemma KeptByNothing(k: (Id, string))
    ensures KeyKept([], k)
  {
  }

  lemma KeptStep(before: seq<Op>, op: Op, k: (Id, string))
    ensures KeyKept(before + [op], k) <==> KeyKept(before, k) && (op.DoCleanup? ==> k !in op.expired)
  {
    var ops := before + [op];
    assert ops[|before|] == op;
    assert forall i :: 0 <= i < |before| ==> ops[i] == before[i];
  }

  /** The two ways to ask for a payment: request_transfer alone, or transfer with what its gates decide. */
  datatype Route = ToPending | ToPosted(decision: Decision)

  function Submit(b: Bank, r: RequestArgs, route: Route): Outcome<Requested> {
    match route
    case ToPending => RequestTransfer(b, r)
    case ToPosted(decision) => AutoTransfer(b, r, decision)
  }

  /** An accepted payment is on record under its key. */
  lemma SubmitRecords(b: Bank, r: RequestArgs, route: Route)
    requires Good(b) && Submit(b, r, route).Ok?
    ensures var o := Submit(b, r, route);
            && r.key != "" && Good(o.bank) && (r.owner, r.key) in o.bank.keys
            && o.bank.keys[(r.owner, r.key)] == KeyRecord(r.Claim(), o.value.transfer)
  {
    hide Good, RequestTransfer, AutoTransfer;
    RequestKeeps(b, r);
    if route.ToPosted? {
      AutoTransferKeeps(b, r, route.decision);
      AutoTouchesKeysAsRequest(b, r, route.decision);
    }
    RequestRecords(b, r);
  }

  lemma RequestRecords(b: Bank, r: RequestArgs)
    requires RequestTransfer(b, r).Ok?
    ensures var o := RequestTransfer(b, r);
            && r.key != "" && (r.owner, r.key) in o.bank.keys
            && o.bank.keys[(r.owner, r.key)] == KeyRecord(r.Claim(), o.value.transfer)
  {
    hide RequestFault;
  }

  /** A request is answered with an old transfer, changing nothing, exactly when the record under its key names it. */
  lemma ReplayIsRecord(b: Bank, r: RequestArgs, route: Route, t: Id)
    requires Good(b) && r.key != ""
    ensures var o := Submit(b, r, route);
            (o.Ok? && o.bank == b && o.value.transfer == t)
            <==> (r.owner, r.key) in b.keys && b.keys[(r.owner, r.key)] == KeyRecord(r.Claim(), t)
    ensures (r.owner, r.key) in b.keys ==>
              var o := Submit(b, r, route);
              if b.keys[(r.owner, r.key)].claim == r.Claim()
              then o.Ok? && o.value.replay && o.value.transfer in b.transfers
                   && o.value.status == b.transfers[o.value.transfer].status
              else o == Raised(KeyConflict)
  {
    hide Good, RequestTransfer, AutoTransfer;
    if (r.owner, r.key) in b.keys {
      KeyTargets(b, (r.owner, r.key));
      RequestReplays(b, r);
      if route.ToPosted? {
        AutoReplays(b, r, route.decision);
      }
    } else if Submit(b, r, route).Ok? {
      SubmitRecords(b, r, route);
    }
  }

  lemma RequestReplays(b: Bank, r: RequestArgs)
    requires r.key != "" && (r.owner, r.key) in b.keys && b.keys[(r.owner, r.key)].transfer in b.transfers
    ensures var rec, o := b.keys[(r.owner, r.key)], RequestTransfer(b, r);
            if rec.claim == r.Claim() then o == Ok(b, Requested(rec.transfer, b.transfers[rec.transfer].status, true))
            else o == Raised(KeyConflict)
  {
    hide RequestFault;
  }

  lemma AutoReplays(b: Bank, r: RequestArgs, decision: Decision)
    requires RequestTransfer(b, r).Ok? ==> RequestTransfer(b, r).value.replay
    ensures AutoTransfer(b, r, decision) == RequestTransfer(b, r)
  {
    hide RequestTransfer, PostTransfer, PlaceHold;
  }

  /**
   Replay safety over whole runs, exactly: once a payment is accepted, through either function, the
   same request through either function is answered with the same transfer and changes nothing
   if and only if no cleanup in between drops its key. While the key is kept the answer says it is
   a replay, and any other request under the key is refused.
   */
  lemma ReplayIsHarmless(b: Bank, r: RequestArgs, route: Route, ops: seq<Op>, again: RequestArgs, route': Route)
    requires Good(b) && Submit(b, r, route).Ok? && AllProper(ops)
    requires (again.owner, again.key) == (r.owner, r.key)
    ensures var first := Submit(b, r, route);
            var later := RunFrom(first.bank, ops);
            var o := Submit(later, again, route');
            var k := (r.owner, r.key);
            if again.Claim() == r.Claim() then
              && ((o.Ok? && o.bank == later && o.value.transfer == first.value.transfer) <==> KeyKept(ops, k))
              && (KeyKept(ops, k) ==>
                    && o.value.replay && o.value.transfer in later.transfers
                    && o.value.status == later.transfers[o.value.transfer].status)
            else KeyKept(ops, k) ==> o == Raised(KeyConflict)
  {
    hide Good, RunFrom, Submit, KeyKept;
    SubmitRecords(b, r, route);
    var first := Submit(b, r, route);
    KeyAfterRun(first.bank, ops, (r.owner, r.key));
    ReplayIsRecord(RunFrom(first.bank, ops), again, route', first.value.transfer);
  }

  /** A request between two of the bank's own accounts. */
  function Again(newId: Id): RequestArgs { RequestArgs(SENTINEL, "k", 1, 2, 100, Payment, "", 0, newId) }

  /** For example: once a key's record is dropped, a replay authorises a second transfer on the same terms. */
  lemma CleanedKeyIsForgotten()
    ensures var accounts := [DoOpen(1, false, 0), DoOpen(2, false, 0)];
            var rest := [DoRequest(Again(7)), DoCleanup({(SENTINEL, "k")}), DoRequest(Again(8))];
            var b := RunFrom(NEW_BANK, accounts + rest);
            b.transfers.Keys == {7, 8} && b.transfers[7] == b.transfers[8]
  {
    hide RunFrom, Step;
    var accounts := [DoOpen(1, false, 0), DoOpen(2, false, 0)];
    var r1, c, r2 := DoRequest(Again(7)), DoCleanup({(SENTINEL, "k")}), DoRequest(Again(8));
    RunStep(NEW_BANK, [], accounts[0]);
    RunStep(NEW_BANK, [accounts[0]], accounts[1]);
    RunStep(NEW_BANK, accounts, r1);
    RunStep(NEW_BANK, accounts + [r1], c);
    RunStep(NEW_BANK, accounts + [r1, c], r2);
    assert [] + [accounts[0]] == [accounts[0]] && [accounts[0]] + [accounts[1]] == accounts;
    assert accounts + [r1] + [c] == accounts + [r1, c] && accounts + [r1, c] + [r2] == accounts + [r1, c, r2];
    TwoRequests();
  }

  lemma RunStep(b: Bank, ops: seq<Op>, op: Op)
    ensures RunFrom(b, []) == b && RunFrom(b, ops + [op]) == Step(RunFrom(b, ops), op)
  {
    hide Step;
    assert (ops + [op])[..|ops|] == ops;
  }

  lemma TwoRequests()
    ensures var b0 := Step(Step(NEW_BANK, DoOpen(1, false, 0)), DoOpen(2, false, 0));
            var b1 := Step(Step(b0, DoRequest(Again(7))), DoCleanup({(SENTINEL, "k")}));
            var b := Step(b1, DoRequest(Again(8)));
            b.transfers.Keys == {7, 8} && b.transfers[7] == b.transfers[8]
  {
    hide HeldSum;
  }

  lemma KeyTargets(b: Bank, k: (Id, string))
    requires Good(b) && k in b.keys
    ensures b.keys[k].transfer in b.transfers
  {
    hide Refs, BalanceCaches, HeldCaches, Solvent, Legs, HoldsOk, ReversalsOk, Running, Total;
  }

  // ---- reversals ----

  function AccountNet(es: seq<Entry>, a: Id): int {
    if es == [] then 0
    else AccountNet(es[..|es| - 1], a) + if es[|es| - 1].account == a then es[|es| - 1].Signed() else 0
  }

  lemma AccountNetOfLegs(es: seq<Entry>, from: Id, to: Id, amount: int, a: Id)
    requires |es| == 2 && from != to && IsLeg(es[0], from, Debit, amount) && IsLeg(es[1], to, Credit, amount)
    ensures AccountNet(es, a) == (if a == to then amount else 0) - (if a == from then amount else 0)
  {
    assert es[..1][..0] == [];
    assert AccountNet(es[..1], a) == if es[0].account == a then es[0].Signed() else 0;
  }

  /** In any correct books, a reversed transfer and its one reversal cancel on every account. */
  lemma ReversalNetsToNothing(b: Bank, id: Id)
    requires Good(b) && id in b.transfers && b.transfers[id].status == Reversed
    ensures exists r :: Reverses(b, r, id) && (forall r' :: Reverses(b, r', id) ==> r' == r)
                        && forall a ::
                             AccountNet(EntriesOf(b.ledger, id), a) + AccountNet(EntriesOf(b.ledger, r), a) == 0
  {
    hide AccountNet, EntriesOf, Total, Running, HoldsOk, KeysOk, BalanceCaches, HeldCaches, Solvent;
    var t := b.transfers[id];
    var r :| Reverses(b, r, id);
    assert LegsOk(EntriesOf(b.ledger, id), t) && LegsOk(EntriesOf(b.ledger, r), b.transfers[r]);
    forall a
      ensures AccountNet(EntriesOf(b.ledger, id), a) + AccountNet(EntriesOf(b.ledger, r), a) == 0
    {
      AccountNetOfLegs(EntriesOf(b.ledger, id), t.debit, t.credit, t.amount, a);
      AccountNetOfLegs(EntriesOf(b.ledger, r), t.credit, t.debit, t.amount, a);
    }
  }

  /** Whatever reverse_transfer returns is a reversal of what it was asked to reverse. */
  lemma ReverseReturnsReversal(b: Bank, id: Id, key: string, newId: Id)
    requires Good(b) && ReverseTransfer(b, id, key, newId).Ok?
    ensures Reverses(ReverseTransfer(b, id, key, newId).bank, ReverseTransfer(b, id, key, newId).value, id)
  {
    hide AddLegs, EntriesOf, Total, Running, BalanceCaches, HeldCaches, Solvent, Legs, HoldsOk, ReversalsOk, Refs;
    if (SENTINEL, key) in b.keys {
      assert ClaimFits(b.keys[(SENTINEL, key)].claim, b.transfers[b.keys[(SENTINEL, key)].transfer]);
    }
  }

  lemma SecondIsNotFirst(b: Bank, id: Id, r: Id, key: string, newId: Id)
    requires Good(b) && Reverses(b, r, id)
    ensures !FirstReversal(b, id, key, newId)
  {
    hide AddLegs, EntriesOf, Total, Running, BalanceCaches, HeldCaches, Solvent, Legs, HoldsOk, Refs, KeysOk;
  }

  lemma OneReversal(b: Bank, r: Id, r': Id, id: Id)
    requires Good(b) && Reverses(b, r, id) && Reverses(b, r', id)
    ensures r == r'
  {
    hide EntriesOf, Total, Running, BalanceCaches, HeldCaches, Solvent, Legs, HoldsOk, Refs, KeysOk;
  }

  /** A transfer's row survives every run with its terms fixed. */
  lemma {:induction false} RowSurvives(b: Bank, ops: seq<Op>, id: Id)
    requires AllProper(ops) && id in b.transfers
    ensures id in RunFrom(b, ops).transfers
    ensures RunFrom(b, ops).transfers[id] == b.transfers[id].(status := RunFrom(b, ops).transfers[id].status)
  {
    hide Step;
    if ops == [] {
    } else {
      RowSurvives(b, ops[..|ops| - 1], id);
      StatusOnlyAdvances(RunFrom(b, ops[..|ops| - 1]), ops[|ops| - 1], id);
    }
  }

  /** Once a transfer has a reversal, asking again gives that one and books nothing, or the key is another request's. */
  lemma ReversedStays(b: Bank, id: Id, r: Id, key: string, newId: Id)
    requires Good(b) && Reverses(b, r, id)
    ensures var o := ReverseTransfer(b, id, key, newId);
            && (o.Ok? <==> ((SENTINEL, key) in b.keys ==> b.keys[(SENTINEL, key)].claim == ForReversal(id)))
            && (o.Ok? ==> o.value == r && o.bank == b.(keys := o.bank.keys))
            && (o.Raised? ==> o.fault == KeyConflict)
  {
    hide Good, ReverseTransfer, FirstReversal, Reverses;
    ReversalAnswered(b, id, r, key, newId);
    var o := ReverseTransfer(b, id, key, newId);
    if o.Ok? {
      ReverseKeeps(b, id, key, newId);
      ReverseReturnsReversal(b, id, key, newId);
      SecondIsNotFirst(b, id, r, key, newId);
      ReverseIs(b, id, key, newId);
      ReversesReads(b, o.bank, r, id);
      OneReversal(o.bank, r, o.value, id);
    }
  }

  lemma ReversesReads(b: Bank, b': Bank, r: Id, id: Id)
    requires Reverses(b, r, id) && b'.transfers == b.transfers
    ensures Reverses(b', r, id)
  {
  }

  lemma ReversalAnswered(b: Bank, id: Id, r: Id, key: string, newId: Id)
    requires Good(b) && Reverses(b, r, id)
    ensures var o := ReverseTransfer(b, id, key, newId);
            && (o.Ok? <==> ((SENTINEL, key) in b.keys ==> b.keys[(SENTINEL, key)].claim == ForReversal(id)))
            && (o.Raised? ==> o.fault == KeyConflict)
  {
    hide AddLegs, EntriesOf, Total, Running, BalanceCaches, HeldCaches, Solvent, Legs, HoldsOk, Refs, KeysOk;
  }

  /**
   Over whole runs, reversing again converges: whatever happens after a reversal, asking for it again
   succeeds exactly when the key is unused or was used for this reversal, returns the same reversal,
   and books nothing; otherwise it is refused as a reused key.
   */
  lemma ReversalConverges(b: Bank, id: Id, key: string, newId: Id, ops: seq<Op>, key': string, newId': Id)
    requires Good(b) && ReverseTransfer(b, id, key, newId).Ok? && AllProper(ops)
    ensures var o := ReverseTransfer(b, id, key, newId);
            var later := RunFrom(o.bank, ops);
            var o' := ReverseTransfer(later, id, key', newId');
            && (o'.Ok? <==> ((SENTINEL, key') in later.keys ==> later.keys[(SENTINEL, key')].claim == ForReversal(id)))
            && (o'.Ok? ==> o'.value == o.value && o'.bank == later.(keys := o'.bank.keys))
            && (o'.Raised? ==> o'.fault == KeyConflict)
  {
    hide Good, ReverseTransfer, RunFrom;
    var o := ReverseTransfer(b, id, key, newId);
    ReverseKeeps(b, id, key, newId);
    ReverseReturnsReversal(b, id, key, newId);
    RunsKeep(o.bank, ops);
    RowSurvives(o.bank, ops, o.value);
    ReversedStays(RunFrom(o.bank, ops), id, o.value, key', newId');
  }
}
