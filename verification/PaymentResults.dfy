/** The payment guarantees as a reader of the tables sees them. */
module PaymentResults {
  import opened Options
  import opened CreditEngine
  import opened CreditInvariants
  import opened PaymentSaga
  import opened PaymentSafety

  /** How many ledger entries carry a key. */
  function KeyCount(ledger: seq<Entry>, key: Key): nat {
    if |ledger| == 0 then 0
    else KeyCount(ledger[..|ledger| - 1], key) + if ledger[|ledger| - 1].key == key then 1 else 0
  }

  /** The sum of the ledger amounts posted under a key. */
  function KeySum(ledger: seq<Entry>, key: Key): int {
    if |ledger| == 0 then 0
    else KeySum(ledger[..|ledger| - 1], key) + if ledger[|ledger| - 1].key == key then ledger[|ledger| - 1].amount
        else 0
  }

  lemma {:induction false} UniqueKeyCount(ledger: seq<Entry>, key: Key)
    requires forall i, j :: 0 <= i < j < |ledger| ==> ledger[i].key != ledger[j].key
    ensures KeyCount(ledger, key) == if Lookup(ledger, key).Some? then 1 else 0
    ensures KeySum(ledger, key) == if Lookup(ledger, key).Some? then Lookup(ledger, key).value.amount else 0
  {
    if |ledger| > 0 {
      var earlier, last := ledger[..|ledger| - 1], ledger[|ledger| - 1];
      UniqueKeyCount(earlier, key);
      assert ledger == earlier + [last];
      assert FindEntry(earlier, last.key).None?;
      AppendLookup(earlier, last, key);
    }
  }

  /** What the tables say about one order whose plan gives `credits`. */
  ghost predicate ExactlyOnce(x: World, id: OrderId, credits: nat)
    requires id in x.orders
  {
    var status, ledger := x.orders[id].status, x.credit.ledger;
    var grants, reversals := KeyCount(ledger, GrantKey(id)), KeyCount(ledger, ReversalKey(id));
    && !status.Canceled?
    && reversals <= grants <= 1
    && (0 < credits && Settled(status) ==> grants == 1)
    && (0 < credits && status.Refunded? ==> reversals == 1)
    && (0 < reversals ==> Settled(status))
    && (0 < grants ==> !status.Pending?)
    && (credits == 0 ==> grants == 0)
    && KeySum(ledger, GrantKey(id)) == grants * credits
    && KeySum(ledger, ReversalKey(id)) == 0 - reversals * credits
    && RefundCount(x.refunds, id) == if status.Refunded? then 1 else 0
  }

  lemma BooksSayExactlyOnce(x: World, b: Books, id: OrderId)
    requires RowsInv(x, b) && BooksMatch(x, b) && id in x.orders
    ensures x.orders[id].plan in x.plans && ExactlyOnce(x, id, CreditsOf(x, id))
  {
    assert OrderOk(x, b, id);
    UniqueKeyCount(x.credit.ledger, GrantKey(id));
    UniqueKeyCount(x.credit.ledger, ReversalKey(id));
    assert Lookup(x.credit.ledger, GrantKey(id)) == Recorded(b.grants, id);
    assert Lookup(x.credit.ledger, ReversalKey(id)) == Recorded(b.reversals, id);
    assert RefundCount(x.refunds, id) == if id in b.refunded then 1 else 0;
  }

  /** Under any schedule of confirmations, refunds, sweeps, webhooks, replays, crashes
      and lost or late answers, and whatever other credit traffic runs beside it: a paid
      or refunded order has exactly one grant, a refunded one exactly one reversal and
      one refund row, and a reversal never exists without its grant. */
  lemma SagaIsExactlyOnce(x: World, actions: seq<Action>, id: OrderId)
    requires Opening(x) && id in Schedule(x, actions).orders
    ensures var y := Schedule(x, actions); y.orders[id].plan in y.plans && ExactlyOnce(y, id, CreditsOf(y, id))
  {
    OpeningMatches(x);
    var b := ScheduleSteps(x, NO_BOOKS, actions);
    BooksSayExactlyOnce(Schedule(x, actions), b, id);
  }

  lemma {:induction false} ScheduleAppend(x: World, first: seq<Action>, second: seq<Action>)
    ensures Schedule(x, first + second) == Schedule(Schedule(x, first), second)
    decreases |first|
  {
    if |first| == 0 {
      assert first + second == second;
    } else {
      assert (first + second)[1..] == first[1..] + second;
      ScheduleAppend(Act(x, first[0]), first[1..], second);
    }
  }

  /** From any reachable point on, orders only move forward (pending, confirming, paid,
      refunded) and keep their terms, and a processed event stays processed. */
  lemma NothingIsTakenBack(x: World, before: seq<Action>, after: seq<Action>)
    requires Opening(x)
    ensures RowsProgress(Schedule(x, before), Schedule(x, before + after))
  {
    OpeningMatches(x);
    ScheduleAppend(x, before, after);
    var b := ScheduleSteps(x, NO_BOOKS, before);
    var c := ScheduleSteps(Schedule(x, before), b, after);
  }

  /** A processed payment event has its order paid or refunded; a processed refund event
      has its order refunded, with one refund row. */
  lemma ProcessedMeansDone(x: World, actions: seq<Action>, event: EventId)
    requires Opening(x)
    requires var y := Schedule(x, actions); event in y.events && y.events[event].status.Processed?
    ensures var y := Schedule(x, actions);
            match y.events[event].kind
            case PaymentSucceeded(order) =>
              order.Some? && order.value in y.orders && Settled(y.orders[order.value].status)
            case RefundSucceeded(order) =>
              order.Some? && order.value in y.orders && y.orders[order.value].status.Refunded?
              && RefundCount(y.refunds, order.value) == 1
            case Ignored => true
  {
    OpeningMatches(x);
    var b := ScheduleSteps(x, NO_BOOKS, actions);
    var y := Schedule(x, actions);
    assert EventMet(y, y.events[event].kind);
    if y.events[event].kind.RefundSucceeded? {
      BooksSayExactlyOnce(y, b, y.events[event].kind.order.value);
    }
  }

  /** Both events of the order are in and processed. */
  ghost predicate BothProcessed(x: World, id: OrderId, payment: EventId, refund: EventId) {
    && payment in x.events && x.events[payment] == Event(PaymentSucceeded(Some(id)), Processed)
    && refund in x.events && x.events[refund] == Event(RefundSucceeded(Some(id)), Processed)
  }

  /** What the order came to: status, grants, reversals, refund rows and net credit. */
  datatype Outcome = Outcome(status: OrderStatus, grants: nat, reversals: nat, refunds: nat, net: int)

  function OutcomeOf(x: World, id: OrderId): Outcome
    requires id in x.orders
  {
    var ledger := x.credit.ledger;
    Outcome(x.orders[id].status, KeyCount(ledger, GrantKey(id)), KeyCount(ledger, ReversalKey(id)),
            RefundCount(x.refunds, id),
            KeySum(ledger, GrantKey(id)) + KeySum(ledger, ReversalKey(id)))
  }

  /** Confluence: every schedule of duplicate, reordered and replayed deliveries that
      ends with both events processed ends in one and the same outcome. */
  lemma DeliveriesConverge(x: World, actions: seq<Action>, id: OrderId, payment: EventId, refund: EventId)
    requires Opening(x) && BothProcessed(Schedule(x, actions), id, payment, refund)
    ensures var y := Schedule(x, actions);
            && id in y.orders && y.orders[id].plan in y.plans
            && var posted := if 0 < CreditsOf(y, id) then 1 else 0;
               OutcomeOf(y, id) == Outcome(Refunded, posted, posted, 1, 0)
  {
    ProcessedMeansDone(x, actions, refund);
    SagaIsExactlyOnce(x, actions, id);
  }
}
