/** What every counter of the order manager counts, in every run, with any reports. */
module OmsCounts {
  import opened Words
  import opened OmsModel
  import opened OmsSafety
  import opened OmsLedger
  import opened OmsOrders
  import opened OmsAccounts

  // ----- counts over trades -----

  function CountOf(ts: seq<Trade>, side: Side): nat {
    if ts == [] then 0 else
    CountOf(ts[..|ts| - 1], side) + (if ts[|ts| - 1].side == side then 1 else 0)
  }

  function TradedOn(ts: seq<Trade>, side: Side): nat {
    if ts == [] then 0 else
    TradedOn(ts[..|ts| - 1], side) + (if ts[|ts| - 1].side == side then ts[|ts| - 1].qty else 0)
  }

  function Low32(n: nat): u32 {
    n % 0x1_0000_0000
  }

  lemma AddLow32(n: nat, q: u32)
    ensures U32(Low32(n) + q) == Low32(n + q)
  {
  }

  /** The counters that fills move, all of them. */
  ghost predicate Traded(t: Stats, ts: seq<Trade>) {
    && t.fills == |ts| && t.buyFills == CountOf(ts, Buy) && t.sellFills == CountOf(ts, Sell)
    && t.buyQty == Low32(TradedOn(ts, Buy)) && t.sellQty == Low32(TradedOn(ts, Sell))
    && t.totalQty == Low32(TradedOn(ts, Buy) + TradedOn(ts, Sell))
  }

  lemma TradeCounted(t: Stats, t': Stats, ts: seq<Trade>, d: Trade)
    requires Traded(t, ts)
    requires t'.fills == t.fills + 1 && t'.totalQty == U32(t.totalQty + d.qty)
    requires t'.buyFills == (if d.side.Buy? then t.buyFills + 1 else t.buyFills)
    requires t'.sellFills == (if d.side.Buy? then t.sellFills else t.sellFills + 1)
    requires t'.buyQty == (if d.side.Buy? then U32(t.buyQty + d.qty) else t.buyQty)
    requires t'.sellQty == (if d.side.Buy? then t.sellQty else U32(t.sellQty + d.qty))
    ensures Traded(t', ts + [d])
  {
    assert (ts + [d])[..|ts|] == ts;
    AddLow32(TradedOn(ts, Buy), d.qty);
    AddLow32(TradedOn(ts, Sell), d.qty);
    AddLow32(TradedOn(ts, Buy) + TradedOn(ts, Sell), d.qty);
  }

  lemma FillCounted(s: Oms, slot: nat, r: Report, ts: seq<Trade>)
    requires Shape(s) && slot < |s.orders| && Open(s.orders[slot]) && Traded(s.stats, ts)
    ensures Traded(OnFill(s, slot, r).stats, ts + [Trade(r.id, s.orders[slot].side, r.qty, r.price)])
  {
    TradeCounted(s.stats, OnFill(s, slot, r).stats, ts, Trade(r.id, s.orders[slot].side, r.qty, r.price));
  }

  lemma StepTraded(s: Oms, e: Event, ts: seq<Trade>)
    requires Safe(s) && Traded(s.stats, ts)
    ensures Traded(Step(s, e).stats, ts + TradeOf(s, e))
  {
    if TradeOf(s, e) == [] {
      assert ts + [] == ts;
    } else {
      FillCounted(s, s.index[e.report.id], e.report, ts);
    }
  }

  /** In every run the fill counters are those of the trades booked: of all, of the buys and of the sells, with the
      quantities modulo 2^32. */
  lemma {:induction false} FillsAreTrades(s0: Oms, es: seq<Event>)
    requires Initial(s0)
    ensures Traded(Run(s0, es).stats, Trades(s0, es))
  {
    if es != [] {
      FillsAreTrades(s0, es[..|es| - 1]);
      EveryRunIsSafe(s0, es[..|es| - 1]);
      StepTraded(Run(s0, es[..|es| - 1]), es[|es| - 1], Trades(s0, es[..|es| - 1]));
    }
  }

  // ----- counts over reports -----

  /** A report that accepts its order: an acknowledgement, or a fill that comes before it. */
  function Accepting(o: Order, r: Report): int {
    if r.exec.NewAck? || r.exec.Fill? || r.exec.PartialFill? then SentBit(o) else 0
  }

  /** A fill of an order that has none yet. */
  function FirstHit(o: Order, r: Report): int {
    if (r.exec.Fill? || r.exec.PartialFill?) && o.filled == 0 then 1 else 0
  }

  /** A cancel of an immediate-or-cancel order that has no fill. */
  function Missing(o: Order, r: Report): int {
    if r.exec.CancelAck? && o.kind.IOC? && o.filled == 0 then 1 else 0
  }

  function CancelBit(o: Order, r: Report): int {
    if r.exec.CancelAck? then 1 else 0
  }

  function RejectBit(o: Order, r: Report): int {
    if r.exec.Reject? then 1 else 0
  }

  ghost predicate Moved(t: Stats, t': Stats, accepted: int, hit: int, missed: int, cancels: int, rejects: int) {
    && t'.accepted == t.accepted + accepted && t'.filledOrders == t.filledOrders + hit
    && t'.missedIoc == t.missedIoc + missed && t'.cancels == t.cancels + cancels && t'.rejects == t.rejects + rejects
  }

  lemma FillKeepsCancels(s: Oms, slot: nat, r: Report)
    requires Shape(s) && slot < |s.orders|
    ensures OnFill(s, slot, r).stats.cancels == s.stats.cancels
  {
  }

  lemma ReportMoves(s: Oms, r: Report)
    requires Safe(s) && r.id in s.index
    ensures var o := s.orders[s.index[r.id]];
            Moved(s.stats, OnExecution(s, r).stats, Accepting(o, r), FirstHit(o, r), Missing(o, r), CancelBit(o, r),
                  RejectBit(o, r))
  {
    if r.exec.Fill? || r.exec.PartialFill? {
      FirstFill(s.orders[s.index[r.id]], r);
      FillCounters(s, s.index[r.id], r);
      FillKeepsCancels(s, s.index[r.id], r);
    }
  }

  lemma StepMoves(s: Oms, e: Event)
    requires Safe(s)
    ensures Moved(s.stats, Step(s, e).stats, Stray(Accepting, s, e), Stray(FirstHit, s, e), Stray(Missing, s, e),
                  Stray(CancelBit, s, e), Stray(RejectBit, s, e))
  {
    if e.Exec? && e.report.id in s.index {
      ReportMoves(s, e.report);
    }
  }

  /** In every run each of these counters is the number of the reports it stands for, for orders that are mapped. */
  lemma {:induction false} ReportsAreCounted(s0: Oms, es: seq<Event>)
    requires Initial(s0)
    ensures Moved(NO_STATS, Run(s0, es).stats, Tally(Accepting, s0, es), Tally(FirstHit, s0, es),
                  Tally(Missing, s0, es), Tally(CancelBit, s0, es), Tally(RejectBit, s0, es))
  {
    if es != [] {
      ReportsAreCounted(s0, es[..|es| - 1]);
      EveryRunIsSafe(s0, es[..|es| - 1]);
      StepMoves(Run(s0, es[..|es| - 1]), es[|es| - 1]);
    }
  }
}
