/**
  The credit-lot ledger of `internal/storage/finance.go`. The table of lots is kept as its
  rows in the order of its index on (expires_at, id), which is the order in which credit is
  consumed; amounts are whole kWh.
 */
module Credits {
  import opened Common

  datatype Lot = Lot(id: nat, origin: Option<nat>, available: int, expiresAt: int, isPartial: bool)

  datatype Cycle = Cycle(readingStart: int, readingEnd: int, activeConsumption: int, injected: int, creditsUsed: int,
                         creditBalance: int, totalPaid: int, flagCharge: int, tariffVersion: int)

  datatype Error = InvalidCycle | NoTariff | ProjectionFailed | CreditsExceedLots | BalanceBelowLots

  /** A stored tariff, and whether the money projection of a cycle under it can be computed. */
  datatype Tariff = Tariff(id: nat, projects: Cycle -> bool)

  datatype Result<+T> = Ok(value: T) | Err(error: Error)

  predicate ValidCycle(c: Cycle) {
    && c.readingStart != ZERO_TIME && c.readingEnd != ZERO_TIME && c.readingEnd > c.readingStart
    && c.activeConsumption >= 0 && c.injected >= 0 && c.creditsUsed >= 0 && c.creditBalance >= 0
    && c.totalPaid >= 0 && c.flagCharge >= 0 && c.tariffVersion >= 0
    && c.creditsUsed <= c.activeConsumption
  }

  // ----- the table

  predicate Precedes(a: Lot, b: Lot) {
    a.expiresAt < b.expiresAt || (a.expiresAt == b.expiresAt && a.id < b.id)
  }

  ghost predicate Ordered(lots: seq<Lot>) {
    forall i, j :: 0 <= i < j < |lots| ==> Precedes(lots[i], lots[j])
  }

  ghost predicate NonNegative(lots: seq<Lot>) {
    forall i :: 0 <= i < |lots| ==> lots[i].available >= 0
  }

  ghost predicate IdsBelow(lots: seq<Lot>, next: nat) {
    forall i :: 0 <= i < |lots| ==> lots[i].id < next
  }

  ghost predicate TableOk(lots: seq<Lot>, next: nat) {
    Ordered(lots) && NonNegative(lots) && IdsBelow(lots, next)
  }

  function Total(lots: seq<Lot>): int {
    if lots == [] then 0 else lots[0].available + Total(lots[1..])
  }

  function Insert(lots: seq<Lot>, lot: Lot): (r: seq<Lot>)
    ensures |r| == |lots| + 1
  {
    if lots == [] || Precedes(lot, lots[0]) then [lot] + lots else [lots[0]] + Insert(lots[1..], lot)
  }

  lemma {:induction false} InsertKeeps(lots: seq<Lot>, lot: Lot, next: nat)
    requires TableOk(lots, next) && lot.id == next && lot.available >= 0
    ensures TableOk(Insert(lots, lot), next + 1)
    ensures Total(Insert(lots, lot)) == Total(lots) + lot.available
    ensures forall l :: l in Insert(lots, lot) <==> l in lots || l == lot
    decreases lots
  {
    if lots != [] && !Precedes(lot, lots[0]) {
      InsertKeeps(lots[1..], lot, next);
      var rest := Insert(lots[1..], lot);
      forall l | l in rest ensures Precedes(lots[0], l) {
        if l != lot {
          assert l in lots[1..];
        }
      }
      assert ([lots[0]] + rest)[1..] == rest;
    } else {
      assert ([lot] + lots)[1..] == lots;
    }
  }

  // ----- consuming, earliest expiry first

  /** Each lot in turn gives what is still needed, or all it has. */
  function Consume(lots: seq<Lot>, needed: int): (r: seq<Lot>)
    ensures |r| == |lots|
  {
    if lots == [] then []
    else
      var used := Min(needed, lots[0].available);
      [lots[0].(available := lots[0].available - used)] + Consume(lots[1..], needed - used)
  }

  lemma {:induction false} ConsumeNothing(lots: seq<Lot>)
    requires NonNegative(lots)
    ensures Consume(lots, 0) == lots
    decreases lots
  {
    if lots != [] {
      ConsumeNothing(lots[1..]);
    }
  }

  lemma {:induction false} ConsumePrefix(lots: seq<Lot>, needed: int, i: nat)
    requires NonNegative(lots) && needed >= 0 && i < |lots|
    ensures Consume(lots, needed)[i] == lots[i].(available := lots[i].available - Min(Max(needed - Total(lots[..i]), 0), lots[i].available))
    ensures Total(lots[..i]) >= 0
    decreases i
  {
    if i > 0 {
      var used := Min(needed, lots[0].available);
      ConsumePrefix(lots[1..], needed - used, i - 1);
      assert lots[..i][1..] == lots[1..][..i - 1];
    }
  }

  method ConsumeCreditLots(lots: seq<Lot>, amount: int) returns (r: Result<seq<Lot>>)
    requires NonNegative(lots) && amount >= 0
    ensures r == if amount <= Total(lots) then Ok(Consume(lots, amount)) else Err(CreditsExceedLots)
  {
    hide Min, Consume, Total;
    var table, needed, i := lots, amount, 0;
    while i < |lots| && needed > 0
      invariant 0 <= i <= |lots| == |table| && needed >= 0
      invariant table[i..] == lots[i..]
      invariant Consume(lots, amount) == table[..i] + Consume(lots[i..], needed)
      invariant amount - needed <= Total(lots) - Total(lots[i..])
      invariant needed > 0 ==> amount - needed == Total(lots) - Total(lots[i..])
      decreases |lots| - i
    {
      var row := table[i];
      ConsumeFirst(lots[i..], needed);
      assert lots[i..][1..] == lots[i + 1..] && lots[i..][0] == row;
      var used := Min(needed, row.available);
      MinFacts(needed, row.available);
      ghost var before := table[..i];
      table := table[i := row.(available := row.available - used)];
      assert table[..i + 1] == before + [table[i]];
      needed := needed - used;
      i := i + 1;
    }
    assert table == table[..i] + table[i..];
    if needed == 0 {
      ConsumeNothing(lots[i..]);
      TotalNonNegative(lots[i..]);
      r := Ok(table);
    } else {
      assert lots[i..] == [];
      TotalOfNothing();
      r := Err(CreditsExceedLots);
    }
  }

  lemma ConsumeFirst(lots: seq<Lot>, needed: int)
    requires lots != []
    ensures var used := Min(needed, lots[0].available);
            Consume(lots, needed) == [lots[0].(available := lots[0].available - used)] + Consume(lots[1..], needed - used)
    ensures Total(lots) == lots[0].available + Total(lots[1..])
  {}

  lemma TotalOfNothing()
    ensures Total([]) == 0
  {}

  lemma MinFacts(a: int, b: int)
    ensures Min(a, b) <= a && Min(a, b) <= b && (Min(a, b) == a || Min(a, b) == b)
  {}

  lemma {:induction false} TotalAppend(lots: seq<Lot>, lot: Lot)
    ensures Total(lots + [lot]) == Total(lots) + lot.available
    decreases lots
  {
    if lots == [] {
      assert (lots + [lot])[1..] == [];
    } else {
      assert (lots + [lot])[1..] == lots[1..] + [lot];
      TotalAppend(lots[1..], lot);
    }
  }

  lemma {:induction false} TotalNonNegative(lots: seq<Lot>)
    requires NonNegative(lots)
    ensures Total(lots) >= 0
    decreases lots
  {
    if lots != [] {
      TotalNonNegative(lots[1..]);
    }
  }

  // ----- what consumption does

  lemma {:induction false} ConsumeKeeps(lots: seq<Lot>, needed: int, next: nat)
    requires TableOk(lots, next) && 0 <= needed <= Total(lots)
    ensures TableOk(Consume(lots, needed), next)
    ensures Total(Consume(lots, needed)) == Total(lots) - needed
    decreases lots
  {
    var r := Consume(lots, needed);
    ConsumeSameRows(lots, needed);
    if lots != [] {
      TotalNonNegative(lots[1..]);
      ConsumeKeeps(lots[1..], needed - Min(needed, lots[0].available), next);
      assert r[1..] == Consume(lots[1..], needed - Min(needed, lots[0].available));
    }
  }

  lemma {:induction false} ConsumeSameRows(lots: seq<Lot>, needed: int)
    ensures forall i :: 0 <= i < |lots| ==> Consume(lots, needed)[i].(available := lots[i].available) == lots[i]
    decreases lots
  {
    if lots != [] {
      ConsumeSameRows(lots[1..], needed - Min(needed, lots[0].available));
    }
  }

  /** A prefix of the lots is emptied, at most the next one is left partly used, and the rest is untouched. */
  lemma ConsumptionShape(lots: seq<Lot>, needed: int) returns (cut: nat)
    requires NonNegative(lots) && 0 <= needed <= Total(lots)
    ensures cut <= |lots|
    ensures var r := Consume(lots, needed);
            && (forall i :: 0 <= i < cut ==> r[i].available == 0)
            && (forall i :: cut < i < |lots| ==> r[i] == lots[i])
            && (cut < |lots| ==> 0 < r[cut].available <= lots[cut].available)
  {
    cut := 0;
    while cut < |lots| && Consume(lots, needed)[cut].available == 0
      invariant cut <= |lots|
      invariant forall i :: 0 <= i < cut ==> Consume(lots, needed)[i].available == 0
    {
      cut := cut + 1;
    }
    if cut < |lots| {
      ConsumePrefix(lots, needed, cut);
      forall i | cut < i < |lots| ensures Consume(lots, needed)[i] == lots[i] {
        ConsumePrefix(lots, needed, i);
        TotalPrefix(lots, cut, i);
      }
    }
  }

  lemma {:induction false} TotalPrefix(lots: seq<Lot>, i: nat, j: nat)
    requires NonNegative(lots) && i < j <= |lots|
    ensures Total(lots[..i]) + lots[i].available <= Total(lots[..j])
    decreases j
  {
    assert lots[..j] == lots[..j - 1] + [lots[j - 1]];
    TotalAppend(lots[..j - 1], lots[j - 1]);
    if i < j - 1 {
      TotalPrefix(lots, i, j - 1);
    }
  }

  // ----- optimality

  /** Credit that is gone once `cutoff` has passed. */
  function ExpiringBy(lots: seq<Lot>, cutoff: int): int {
    if lots == [] then 0
    else (if lots[0].expiresAt <= cutoff then lots[0].available else 0) + ExpiringBy(lots[1..], cutoff)
  }

  lemma {:induction false} NothingExpires(lots: seq<Lot>, cutoff: int)
    requires forall i :: 0 <= i < |lots| ==> lots[i].expiresAt > cutoff
    ensures ExpiringBy(lots, cutoff) == 0
    decreases lots
  {
    if lots != [] {
      NothingExpires(lots[1..], cutoff);
    }
  }

  lemma {:induction false} ExpiringNonNegative(lots: seq<Lot>, cutoff: int)
    requires NonNegative(lots)
    ensures 0 <= ExpiringBy(lots, cutoff) <= Total(lots)
    decreases lots
  {
    if lots != [] {
      ExpiringNonNegative(lots[1..], cutoff);
    }
  }

  /** At every cutoff, consumption takes as much of the expiring credit as it can. */
  lemma {:induction false} ConsumeLeavesLeast(lots: seq<Lot>, needed: int, cutoff: int)
    requires Ordered(lots) && NonNegative(lots) && needed >= 0
    ensures ExpiringBy(Consume(lots, needed), cutoff) == Max(ExpiringBy(lots, cutoff) - needed, 0)
    decreases lots
  {
    if lots != [] {
      var used := Min(needed, lots[0].available);
      var r := Consume(lots, needed);
      assert r[1..] == Consume(lots[1..], needed - used);
      ConsumeLeavesLeast(lots[1..], needed - used, cutoff);
      ExpiringNonNegative(lots[1..], cutoff);
      if lots[0].expiresAt > cutoff {
        assert forall i :: 0 <= i < |lots[1..]| ==> Precedes(lots[0], lots[1..][i]);
        NothingExpires(lots[1..], cutoff);
      }
    }
  }

  /** Another way to take the same amount from the same lots. */
  ghost predicate Alternative(lots: seq<Lot>, other: seq<Lot>) {
    |other| == |lots| &&
    forall i :: 0 <= i < |lots| ==> other[i].(available := lots[i].available) == lots[i] && 0 <= other[i].available <= lots[i].available
  }

  lemma {:induction false} AlternativeLeavesMore(lots: seq<Lot>, other: seq<Lot>, cutoff: int)
    requires Alternative(lots, other)
    ensures ExpiringBy(other, cutoff) >= ExpiringBy(lots, cutoff) - (Total(lots) - Total(other))
    ensures ExpiringBy(other, cutoff) >= 0 && Total(other) <= Total(lots)
    decreases lots
  {
    if lots != [] {
      AlternativeLeavesMore(lots[1..], other[1..], cutoff);
    }
  }

  /**
    Earliest-expiry consumption is optimal at every date: no other way of using the same amount
    leaves less credit expiring by then.
   */
  lemma EarliestExpiryIsOptimal(lots: seq<Lot>, other: seq<Lot>, needed: int, cutoff: int)
    requires Ordered(lots) && NonNegative(lots) && 0 <= needed <= Total(lots)
    requires Alternative(lots, other) && Total(other) == Total(lots) - needed
    ensures ExpiringBy(Consume(lots, needed), cutoff) <= ExpiringBy(other, cutoff)
  {
    ConsumeLeavesLeast(lots, needed, cutoff);
    AlternativeLeavesMore(lots, other, cutoff);
  }

  // ----- saving a billing cycle

  datatype Ledger = Ledger(lots: seq<Lot>, nextLot: nat, cycles: seq<Cycle>)

  const EMPTY_LEDGER: Ledger := Ledger([], 1, [])

  function AddLot(l: Ledger, origin: Option<nat>, available: int, expiresAt: int, isPartial: bool): Ledger {
    l.(lots := Insert(l.lots, Lot(l.nextLot, origin, available, expiresAt, isPartial)), nextLot := l.nextLot + 1)
  }

  /** What must be left over after the bill's own credits and use, at least. */
  function Leftover(total: int, c: Cycle): int {
    Max(total + c.injected - c.creditsUsed, 0)
  }

  ghost predicate LedgerOk(l: Ledger) {
    TableOk(l.lots, l.nextLot)
  }

  lemma AddLotKeeps(l: Ledger, origin: Option<nat>, available: int, expiresAt: int, isPartial: bool)
    requires LedgerOk(l) && available >= 0
    ensures LedgerOk(AddLot(l, origin, available, expiresAt, isPartial))
    ensures Total(AddLot(l, origin, available, expiresAt, isPartial).lots) == Total(l.lots) + available
  {
    hide Insert, Total, TableOk;
    InsertKeeps(l.lots, Lot(l.nextLot, origin, available, expiresAt, isPartial), l.nextLot);
  }

  /** Credit injected by the bill becomes a lot of its own, named after the bill's row. */
  function Inject(l: Ledger, c: Cycle, expiresAt: int): Ledger {
    if c.injected > 0 then AddLot(l, Some(|l.cycles|), c.injected, expiresAt, false) else l
  }

  /** Use the ledger does not know the origin of becomes an estimated lot. */
  function TopUp(l: Ledger, c: Cycle, expiresAt: int): Ledger {
    if c.creditsUsed - Total(l.lots) > 0 then AddLot(l, None, c.creditsUsed - Total(l.lots), expiresAt, true) else l
  }

  /** What the bill reports beyond the remaining lots becomes one more estimated lot. */
  function Reconcile(l: Ledger, c: Cycle, expiresAt: int): Ledger {
    if c.creditBalance - Total(l.lots) > 0 then AddLot(l, None, c.creditBalance - Total(l.lots), expiresAt, true) else l
  }

  function Used(l: Ledger, c: Cycle): Ledger {
    l.(lots := Consume(l.lots, c.creditsUsed))
  }

  function Posted(l: Ledger, c: Cycle, expiresAt: int): Ledger {
    Reconcile(Used(TopUp(Inject(l.(cycles := l.cycles + [c]), c, expiresAt), c, expiresAt), c), c, expiresAt)
  }

  /** The cycle with its tariff written in. */
  function Under(c: Cycle, tariff: Tariff): Cycle { c.(tariffVersion := tariff.id) }

  predicate Accepts(l: Ledger, c: Cycle, tariff: Option<Tariff>) {
    ValidCycle(c) && tariff.Some? && tariff.value.projects(Under(c, tariff.value)) && c.creditBalance >= Leftover(Total(l.lots), c)
  }

  /** The stages of posting a bill, with the total after each. */
  lemma PostingStages(l: Ledger, c: Cycle, expiresAt: int)
    requires LedgerOk(l) && ValidCycle(c)
    ensures var i := Inject(l.(cycles := l.cycles + [c]), c, expiresAt);
            var t := TopUp(i, c, expiresAt);
            var u := Used(t, c);
            && LedgerOk(i) && Total(i.lots) == Total(l.lots) + c.injected
            && LedgerOk(t) && Total(t.lots) == Max(Total(i.lots), c.creditsUsed)
            && LedgerOk(u) && Total(u.lots) == Leftover(Total(l.lots), c)
            && (c.creditBalance >= Total(u.lots) ==>
                  LedgerOk(Reconcile(u, c, expiresAt)) && Total(Reconcile(u, c, expiresAt).lots) == c.creditBalance)
    ensures Total(l.lots) >= 0
  {
    hide Insert, Total, TableOk, Consume;
    var i := Inject(l.(cycles := l.cycles + [c]), c, expiresAt);
    if c.injected > 0 {
      AddLotKeeps(l.(cycles := l.cycles + [c]), Some(|l.cycles| + 1), c.injected, expiresAt, false);
    }
    var t := TopUp(i, c, expiresAt);
    if c.creditsUsed - Total(i.lots) > 0 {
      AddLotKeeps(i, None, c.creditsUsed - Total(i.lots), expiresAt, true);
    }
    TableNonNegative(l);
    TotalNonNegative(l.lots);
    ConsumeKeeps(t.lots, c.creditsUsed, t.nextLot);
    var u := Used(t, c);
    if c.creditBalance - Total(u.lots) > 0 {
      AddLotKeeps(u, None, c.creditBalance - Total(u.lots), expiresAt, true);
    }
  }

  class CreditRepository {
    var lots: seq<Lot>
    var nextLot: nat
    var cycles: seq<Cycle>
    /** Five calendar years after a reading. */
    const fiveYearsAfter: int -> int

    constructor (fiveYearsAfter: int -> int)
      ensures Contents() == EMPTY_LEDGER && Valid()
    {
      this.fiveYearsAfter := fiveYearsAfter;
      lots, nextLot, cycles := [], 1, [];
    }

    function Contents(): Ledger
      reads this
    {
      Ledger(lots, nextLot, cycles)
    }

    ghost predicate Valid()
      reads this
    {
      LedgerOk(Contents())
    }

    /** Records a bill in one transaction; `tariff` is the approved tariff covering the reading, if any. */
    method SaveCycle(cycle: Cycle, tariff: Option<Tariff>) returns (r: Result<Cycle>)
      requires Valid()
      modifies this
      ensures Valid()
      ensures r.Ok? <==> Accepts(old(Contents()), cycle, tariff)
      ensures r.Ok? ==> r.value == Under(cycle, tariff.value) &&
                        Contents() == Posted(old(Contents()), r.value, fiveYearsAfter(cycle.readingEnd)) &&
                        Total(lots) == cycle.creditBalance
      ensures r.Err? ==> Contents() == old(Contents()) &&
                         r.error == if !ValidCycle(cycle) then InvalidCycle
                                    else if tariff.None? then NoTariff
                                    else if !tariff.value.projects(Under(cycle, tariff.value)) then ProjectionFailed
                                    else BalanceBelowLots
    {
      hide Insert, Total, TableOk, Consume;
      if !ValidCycle(cycle) {
        return Err(InvalidCycle);
      }
      if tariff.None? {
        return Err(NoTariff);
      }
      var saved := Under(cycle, tariff.value);
      if !tariff.value.projects(saved) {
        return Err(ProjectionFailed);
      }
      var expiresAt := fiveYearsAfter(cycle.readingEnd);
      PostingStages(Contents(), saved, expiresAt);
      var tx := Contents().(cycles := cycles + [saved]);
      if cycle.injected > 0 {
        tx := AddLot(tx, Some(|cycles| + 1), cycle.injected, expiresAt, false);
      }
      var missing := cycle.creditsUsed - Total(tx.lots);
      if missing > 0 {
        tx := AddLot(tx, None, missing, expiresAt, true);
      }
      TableNonNegative(tx);
      var consumed := ConsumeCreditLots(tx.lots, cycle.creditsUsed);
      // The lots cover the use by now, so consuming them cannot fail.
      tx := tx.(lots := consumed.value);
      var difference := cycle.creditBalance - Total(tx.lots);
      if difference < 0 {
        return Err(BalanceBelowLots);
      }
      if difference > 0 {
        tx := AddLot(tx, None, difference, expiresAt, true);
      }
      lots, nextLot, cycles := tx.lots, tx.nextLot, tx.cycles;
      r := Ok(saved);
    }

    /** The whole balance, and the earliest expiry of a lot that still has credit. */
    method CreditSummary() returns (balance: int, expiry: Option<int>)
      requires Valid()
      ensures balance == Total(lots)
      ensures expiry.None? <==> forall i :: 0 <= i < |lots| ==> lots[i].available == 0
      ensures expiry.Some? ==>
                (exists i :: 0 <= i < |lots| && lots[i].available > 0 && lots[i].expiresAt == expiry.value) &&
                (forall i :: 0 <= i < |lots| && lots[i].available > 0 ==> expiry.value <= lots[i].expiresAt)
    {
      balance := 0;
      expiry := None;
      for i := 0 to |lots|
        invariant balance == Total(lots[..i])
        invariant expiry.None? <==> forall k :: 0 <= k < i ==> lots[k].available == 0
        invariant expiry.Some? ==>
                    (exists k :: 0 <= k < i && lots[k].available > 0 && lots[k].expiresAt == expiry.value) &&
                    (forall k :: 0 <= k < i && lots[k].available > 0 ==> expiry.value <= lots[k].expiresAt)
      {
        assert lots[..i + 1] == lots[..i] + [lots[i]];
        TotalAppend(lots[..i], lots[i]);
        balance := balance + lots[i].available;
        if lots[i].available > 0 && (expiry.None? || lots[i].expiresAt < expiry.value) {
          expiry := Some(lots[i].expiresAt);
        }
      }
      assert lots[..|lots|] == lots;
    }
  }

  lemma TableNonNegative(l: Ledger)
    requires LedgerOk(l)
    ensures NonNegative(l.lots)
  {}

  // ----- whole runs

  datatype Bill = Bill(cycle: Cycle, tariff: Option<Tariff>)

  function Save(l: Ledger, b: Bill, fiveYearsAfter: int -> int): Ledger {
    if Accepts(l, b.cycle, b.tariff)
    then Posted(l, Under(b.cycle, b.tariff.value), fiveYearsAfter(b.cycle.readingEnd))
    else l
  }

  function Run(bills: seq<Bill>, fiveYearsAfter: int -> int): Ledger {
    if bills == [] then EMPTY_LEDGER
    else Save(Run(bills[..|bills| - 1], fiveYearsAfter), bills[|bills| - 1], fiveYearsAfter)
  }

  function LastBalance(cycles: seq<Cycle>): int {
    if cycles == [] then 0 else cycles[|cycles| - 1].creditBalance
  }

  /** Each recorded bill reports at least what the one before it leaves over. */
  ghost predicate Reconciled(cycles: seq<Cycle>) {
    forall k :: 0 <= k < |cycles| ==> ValidCycle(cycles[k]) && cycles[k].creditBalance >= Leftover(LastBalance(cycles[..k]), cycles[k])
  }

  lemma PostedCycles(l: Ledger, c: Cycle, expiresAt: int)
    ensures Posted(l, c, expiresAt).cycles == l.cycles + [c]
  {
    hide Insert, Total, Consume;
  }

  /**
    After any bills, accepted or not, no lot is negative, the lots add up to the balance the
    last recorded bill reported, and every recorded bill met the balance before it.
   */
  lemma {:induction false} LotsMatchLastBalance(bills: seq<Bill>, fiveYearsAfter: int -> int)
    ensures var l := Run(bills, fiveYearsAfter);
            LedgerOk(l) && Total(l.lots) == LastBalance(l.cycles) && Reconciled(l.cycles)
    decreases |bills|
  {
    hide Posted, Total, TableOk, ValidCycle;
    if bills == [] {
      EmptyLedgerOk();
    } else {
      var b, l := bills[|bills| - 1], Run(bills[..|bills| - 1], fiveYearsAfter);
      LotsMatchLastBalance(bills[..|bills| - 1], fiveYearsAfter);
      if Accepts(l, b.cycle, b.tariff) {
        PostedOk(l, b, fiveYearsAfter(b.cycle.readingEnd));
      }
    }
  }

  lemma EmptyLedgerOk()
    ensures LedgerOk(EMPTY_LEDGER) && Total(EMPTY_LEDGER.lots) == 0
  {}

  lemma PostedOk(l: Ledger, b: Bill, expiresAt: int)
    requires LedgerOk(l) && Accepts(l, b.cycle, b.tariff) && Total(l.lots) == LastBalance(l.cycles) && Reconciled(l.cycles)
    ensures var p := Posted(l, Under(b.cycle, b.tariff.value), expiresAt);
            LedgerOk(p) && Total(p.lots) == LastBalance(p.cycles) && Reconciled(p.cycles)
  {
    hide Insert, Total, Consume, TableOk, Inject, TopUp, Used, Reconcile;
    var c := Under(b.cycle, b.tariff.value);
    PostingStages(l, c, expiresAt);
    PostedCycles(l, c, expiresAt);
    var p := Posted(l, c, expiresAt);
    forall k | 0 <= k < |p.cycles|
      ensures ValidCycle(p.cycles[k]) && p.cycles[k].creditBalance >= Leftover(LastBalance(p.cycles[..k]), p.cycles[k])
    {
      if k < |l.cycles| {
        assert p.cycles[..k] == l.cycles[..k];
      } else {
        assert p.cycles[..k] == l.cycles;
      }
    }
  }

  // ----- what a bill does to old credit

  lemma {:induction false} InsertExpiring(lots: seq<Lot>, lot: Lot, cutoff: int)
    ensures ExpiringBy(Insert(lots, lot), cutoff) == ExpiringBy(lots, cutoff) + (if lot.expiresAt <= cutoff then lot.available else 0)
    decreases lots
  {
    if lots == [] || Precedes(lot, lots[0]) {
      assert ([lot] + lots)[1..] == lots;
    } else {
      InsertExpiring(lots[1..], lot, cutoff);
      assert ([lots[0]] + Insert(lots[1..], lot))[1..] == Insert(lots[1..], lot);
    }
  }

  /**
    Credit that expires before the bill's own is used first, and nothing is added to it: for every
    earlier cutoff what is left is the old credit less the use, but never less than nothing.
   */
  lemma OldCreditIsUsedFirst(l: Ledger, c: Cycle, expiresAt: int, cutoff: int)
    requires LedgerOk(l) && ValidCycle(c) && cutoff < expiresAt
    ensures ExpiringBy(Posted(l, c, expiresAt).lots, cutoff) == Max(ExpiringBy(l.lots, cutoff) - c.creditsUsed, 0)
  {
    hide Insert, Total, Consume, ExpiringBy;
    PostingStages(l, c, expiresAt);
    var i := Inject(l.(cycles := l.cycles + [c]), c, expiresAt);
    InsertExpiring(l.lots, Lot(l.nextLot, Some(|l.cycles| + 1), c.injected, expiresAt, false), cutoff);
    var t := TopUp(i, c, expiresAt);
    InsertExpiring(i.lots, Lot(i.nextLot, None, c.creditsUsed - Total(i.lots), expiresAt, true), cutoff);
    ConsumeLeavesLeast(t.lots, c.creditsUsed, cutoff);
    var u := Used(t, c);
    InsertExpiring(u.lots, Lot(u.nextLot, None, c.creditBalance - Total(u.lots), expiresAt, true), cutoff);
  }
}
