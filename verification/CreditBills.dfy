/** Which bills are recorded, and which lots a recorded bill opens. */
module CreditBills {
  import opened Common
  import opened Credits

  /**
    A bill is recorded, under the tariff covering it, if and only if its dates and amounts make sense, the
    tariff is there and can be projected, and the reported balance is at least what the bill leaves over.
    Otherwise nothing changes.
   */
  lemma BillIsRecordedIff(l: Ledger, b: Bill, fiveYearsAfter: int -> int)
    ensures var c, after := b.cycle, Save(l, b, fiveYearsAfter);
            var sensible :=
              && c.readingStart != 0 && c.readingEnd != 0 && c.readingStart < c.readingEnd
              && c.injected >= 0 && c.creditBalance >= 0 && c.totalPaid >= 0 && c.flagCharge >= 0 && c.tariffVersion >= 0
              && 0 <= c.creditsUsed <= c.activeConsumption;
            if sensible && b.tariff.Some? && b.tariff.value.projects(c.(tariffVersion := b.tariff.value.id)) &&
               c.creditBalance >= Total(l.lots) + c.injected - c.creditsUsed
            then after.cycles == l.cycles + [c.(tariffVersion := b.tariff.value.id)]
            else after == l
  {
    hide Posted;
    if Accepts(l, b.cycle, b.tariff) {
      PostedCycles(l, Under(b.cycle, b.tariff.value), fiveYearsAfter(b.cycle.readingEnd));
    }
  }

  /** A lot of before the bill, perhaps with less in it, or one that the bill opened. */
  ghost predicate Explained(lot: Lot, l: Ledger, c: Cycle, expiresAt: int) {
    if lot.id < l.nextLot then exists i :: 0 <= i < |l.lots| && Drawn(l.lots[i], lot)
    else
      && lot.expiresAt == expiresAt && (lot.isPartial <==> lot.origin.None?)
      && (lot.origin.Some? ==> c.injected > 0 && lot.origin.value == |l.cycles| + 1)
  }

  predicate Drawn(before: Lot, after: Lot) {
    after == before.(available := after.available) && after.available <= before.available
  }

  ghost predicate AllExplained(lots: seq<Lot>, l: Ledger, c: Cycle, expiresAt: int) {
    forall i :: 0 <= i < |lots| ==> Explained(lots[i], l, c, expiresAt)
  }

  lemma AddExplained(x: Ledger, origin: Option<nat>, available: int, isPartial: bool, l: Ledger, c: Cycle, expiresAt: int)
    requires LedgerOk(x) && available >= 0 && AllExplained(x.lots, l, c, expiresAt) && x.nextLot >= l.nextLot
    requires isPartial <==> origin.None?
    requires origin.Some? ==> c.injected > 0 && origin.value == |l.cycles| + 1
    ensures AllExplained(AddLot(x, origin, available, expiresAt, isPartial).lots, l, c, expiresAt)
  {
    hide Insert, TableOk, Explained;
    var lot := Lot(x.nextLot, origin, available, expiresAt, isPartial);
    InsertKeeps(x.lots, lot, x.nextLot);
    assert Explained(lot, l, c, expiresAt) by { NewIsExplained(lot, l, c, expiresAt); }
    var lots := Insert(x.lots, lot);
    forall i | 0 <= i < |lots| ensures Explained(lots[i], l, c, expiresAt) {
      assert lots[i] in lots;
    }
  }

  lemma NewIsExplained(lot: Lot, l: Ledger, c: Cycle, expiresAt: int)
    requires lot.id >= l.nextLot && lot.expiresAt == expiresAt && (lot.isPartial <==> lot.origin.None?)
    requires lot.origin.Some? ==> c.injected > 0 && lot.origin.value == |l.cycles| + 1
    ensures Explained(lot, l, c, expiresAt)
  {}

  lemma ConsumeExplained(x: seq<Lot>, needed: int, l: Ledger, c: Cycle, expiresAt: int)
    requires NonNegative(x) && needed >= 0 && AllExplained(x, l, c, expiresAt)
    ensures AllExplained(Consume(x, needed), l, c, expiresAt)
  {
    hide Consume, Total;
    var u := Consume(x, needed);
    forall i | 0 <= i < |u| ensures Explained(u[i], l, c, expiresAt) {
      ConsumePrefix(x, needed, i);
      assert Explained(x[i], l, c, expiresAt) && Drawn(x[i], u[i]);
      if x[i].id < l.nextLot {
        var j :| 0 <= j < |l.lots| && Drawn(l.lots[j], x[i]);
        assert Drawn(l.lots[j], u[i]);
      }
    }
  }

  lemma OldIsExplained(l: Ledger, c: Cycle, expiresAt: int)
    requires LedgerOk(l)
    ensures AllExplained(l.lots, l, c, expiresAt)
  {
    forall i | 0 <= i < |l.lots| ensures Explained(l.lots[i], l, c, expiresAt) {
      assert Drawn(l.lots[i], l.lots[i]);
    }
  }

  function One(b: bool): nat { if b then 1 else 0 }

  /**
    What a recorded bill does to the table of lots. No old lot goes, and none gains. A lot named after the bill
    holds what it injected; estimated ones, of no known origin, are opened if the use exceeds what there is, and if
    the reported balance exceeds what is left. All of them expire five years after the reading.
   */
  lemma LotsAfterBill(l: Ledger, c: Cycle, expiresAt: int)
    requires LedgerOk(l) && ValidCycle(c) && c.creditBalance >= Leftover(Total(l.lots), c)
    ensures var p, total := Posted(l, c, expiresAt), Total(l.lots);
            && AllExplained(p.lots, l, c, expiresAt)
            && |p.lots| - |l.lots| == p.nextLot - l.nextLot
               == One(c.injected > 0) + One(c.creditsUsed > total + c.injected)
                  + One(c.creditBalance > total + c.injected - c.creditsUsed && c.creditBalance > 0)
  {
    hide Insert, Total, TableOk, Consume, AllExplained;
    PostingStages(l, c, expiresAt);
    var booked := l.(cycles := l.cycles + [c]);
    OldIsExplained(l, c, expiresAt);
    var i := Inject(booked, c, expiresAt);
    if c.injected > 0 {
      AddExplained(booked, Some(|l.cycles| + 1), c.injected, false, l, c, expiresAt);
    }
    var t := TopUp(i, c, expiresAt);
    if c.creditsUsed - Total(i.lots) > 0 {
      AddExplained(i, None, c.creditsUsed - Total(i.lots), true, l, c, expiresAt);
    }
    TableNonNegative(t);
    ConsumeExplained(t.lots, c.creditsUsed, l, c, expiresAt);
    var u := Used(t, c);
    if c.creditBalance - Total(u.lots) > 0 {
      AddExplained(u, None, c.creditBalance - Total(u.lots), true, l, c, expiresAt);
    }
  }

  /** After any bills the lots stand in the order in which they expire, and of those that expire together the older first. */
  lemma LotsStayInOrder(bills: seq<Bill>, fiveYearsAfter: int -> int, i: nat, j: nat)
    requires i < j < |Run(bills, fiveYearsAfter).lots|
    ensures var a, b := Run(bills, fiveYearsAfter).lots[i], Run(bills, fiveYearsAfter).lots[j];
            a.expiresAt < b.expiresAt || (a.expiresAt == b.expiresAt && a.id < b.id)
  {
    LotsMatchLastBalance(bills, fiveYearsAfter);
    hide Run;
  }
}
