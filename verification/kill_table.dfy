/** The kill table of the replay statistics page
    (src/renderer/containers/ReplayFileStats/KillTable.tsx): one row per stock the table's player
    took from an opponent, and for each ended stock the punish that ended it, found among the
    player's killing punishes by the stock's end frame. */
module KillTable {
  import opened Wrappers
  import opened Seqs

  /** slippi-js `Frames.FIRST`, the frame a game starts on. */
  const FirstFrame: int := -123

  /** A stock of `playerIndex`, lost to `opponentIndex`; `endFrame` is None while it lasts. */
  datatype Stock = Stock(
    playerIndex: int,
    opponentIndex: int,
    startFrame: int,
    endFrame: Option<int>,
    deathAnimation: Option<int>)

  datatype Move = Move(moveId: int, frame: int)

  /** A punish (conversion) performed by `playerIndex`. */
  datatype Conversion = Conversion(playerIndex: int, endFrame: Option<int>, didKill: bool, moves: seq<Move>)

  /** What ended a stock: a punish whose last move is known, a punish with no moves (a grab
      release), or no punish of the player at all (a self destruct). */
  datatype KilledBy = SelfDestruct | GrabRelease | KillMove(moveId: int)

  /** A table cell: a dash, or a value to be formatted. */
  datatype Cell<T> = Dash | Shown(value: T)

  /** A row of the table; the percent column (a float) is not modelled. */
  datatype StockRow = StockRow(start: Cell<int>, end: Cell<int>, killedBy: Cell<KilledBy>, direction: Cell<Option<int>>)

  /** `if (stock.endFrame)`: null and frame 0 both count as "not ended". */
  predicate Ended(s: Stock)
  {
    s.endFrame.Some? && s.endFrame.value != 0
  }

  function TakenBy(playerIndex: int): Stock -> bool
  {
    (s: Stock) => s.opponentIndex == playerIndex
  }

  /** `groupBy(stocks, "opponentIndex")[playerIndex] || []`: the stocks the player took, in the
      order of the statistics. */
  function OpponentStocks(stocks: seq<Stock>, playerIndex: int): (r: seq<Stock>)
    ensures forall s :: s in r <==> s in stocks && s.opponentIndex == playerIndex
    ensures IsSubseq(r, stocks) && |r| == Count(stocks, TakenBy(playerIndex))
  {
    Filter(stocks, TakenBy(playerIndex))
  }

  /** Any subsequence of the stocks holding only the player's takes, and all of them, is the
      table's list of stocks: the rows are determined by that rule alone. */
  lemma OpponentStocksUnique(r: seq<Stock>, stocks: seq<Stock>, playerIndex: int)
    requires IsSubseq(r, stocks)
    requires forall i :: 0 <= i < |r| ==> r[i].opponentIndex == playerIndex
    requires |r| == Count(stocks, TakenBy(playerIndex))
    ensures r == OpponentStocks(stocks, playerIndex)
  {
    FilterUnique(r, stocks, TakenBy(playerIndex));
  }

  function KillingBy(playerIndex: int): Conversion -> bool
  {
    (c: Conversion) => c.playerIndex == playerIndex && c.didKill
  }

  /** `filter(groupBy(conversions, "playerIndex")[playerIndex] || [], "didKill")`. */
  function KillingPunishes(conversions: seq<Conversion>, playerIndex: int): (r: seq<Conversion>)
    ensures forall c :: c in r <==> c in conversions && c.playerIndex == playerIndex && c.didKill
    ensures IsSubseq(r, conversions) && |r| == Count(conversions, KillingBy(playerIndex))
  {
    Filter(conversions, KillingBy(playerIndex))
  }

  /** lodash `keyBy(punishes, "endFrame")`: every punish is stored under its end frame, going
      left to right, so a later punish replaces an earlier one with the same end frame. */
  function KeyByEndFrame(punishes: seq<Conversion>): (m: map<Option<int>, Conversion>)
    ensures forall k :: k in m <==> exists i :: 0 <= i < |punishes| && punishes[i].endFrame == k
  {
    if punishes == [] then map[]
    else
      var init := punishes[..|punishes| - 1];
      var last := punishes[|punishes| - 1];
      var m := KeyByEndFrame(init)[last.endFrame := last];
      assert forall i :: 0 <= i < |init| ==> init[i] == punishes[i];
      m
  }

  /** The punish stored under an end frame is the last one with that end frame. */
  lemma {:induction false} KeyByKeepsLast(punishes: seq<Conversion>, k: Option<int>)
    requires k in KeyByEndFrame(punishes)
    ensures exists i :: 0 <= i < |punishes| && punishes[i] == KeyByEndFrame(punishes)[k]
                        && punishes[i].endFrame == k
                        && forall j :: i < j < |punishes| ==> punishes[j].endFrame != k
  {
    var n := |punishes| - 1;
    var init := punishes[..n];
    var last := punishes[n];
    assert KeyByEndFrame(punishes) == KeyByEndFrame(init)[last.endFrame := last];
    if last.endFrame == k {
      assert punishes[n] == KeyByEndFrame(punishes)[k];
    } else {
      assert k in KeyByEndFrame(init);
      KeyByKeepsLast(init, k);
      var i :| 0 <= i < |init| && init[i] == KeyByEndFrame(init)[k] && init[i].endFrame == k
                && forall j :: i < j < |init| ==> init[j].endFrame != k;
      assert punishes[i] == KeyByEndFrame(punishes)[k];
      assert forall j :: i < j < |punishes| ==> punishes[j].endFrame != k by {
        forall j | i < j < |punishes| ensures punishes[j].endFrame != k {
          if j < n { assert punishes[j] == init[j]; }
        }
      }
    }
  }

  /** The punish that ended a stock ending on frame `endFrame`: among the player's killing
      punishes, the last one ending on that frame. */
  function PunishThatEndedStock(conversions: seq<Conversion>, playerIndex: int, endFrame: int): (r: Option<Conversion>)
    ensures var kills := KillingPunishes(conversions, playerIndex);
      r.None? <==> forall c :: c in kills ==> c.endFrame != Some(endFrame)
    ensures var kills := KillingPunishes(conversions, playerIndex);
      r.Some? ==>
        exists i :: 0 <= i < |kills| && kills[i] == r.value && r.value.endFrame == Some(endFrame)
                    && forall j :: i < j < |kills| ==> kills[j].endFrame != Some(endFrame)
  {
    var byEndFrame := KeyByEndFrame(KillingPunishes(conversions, playerIndex));
    if Some(endFrame) in byEndFrame then
      KeyByKeepsLast(KillingPunishes(conversions, playerIndex), Some(endFrame));
      Some(byEndFrame[Some(endFrame)])
    else None
  }

  /** What a punish that ended a stock is shown as: its last move, or a grab release when it
      has no moves. */
  function KillerOf(punish: Conversion): KilledBy
  {
    if punish.moves == [] then GrabRelease else KillMove(punish.moves[|punish.moves| - 1].moveId)
  }

  /** `renderKilledBy(stock)` for a stock ending on `endFrame`. */
  function RenderKilledBy(conversions: seq<Conversion>, playerIndex: int, endFrame: int): (r: KilledBy)
    ensures var kills := KillingPunishes(conversions, playerIndex);
      r != SelfDestruct ==>
        exists i :: 0 <= i < |kills| && kills[i].endFrame == Some(endFrame)
                    && (forall j :: i < j < |kills| ==> kills[j].endFrame != Some(endFrame))
                    && r == KillerOf(kills[i])
    ensures r == SelfDestruct <==>
      forall c :: c in conversions && c.playerIndex == playerIndex && c.didKill ==> c.endFrame != Some(endFrame)
    ensures r == GrabRelease ==>
      exists c :: c in conversions && c.playerIndex == playerIndex && c.didKill && c.endFrame == Some(endFrame) && c.moves == []
    ensures r.KillMove? ==>
      exists c :: c in conversions && c.playerIndex == playerIndex && c.didKill && c.endFrame == Some(endFrame)
                  && c.moves != [] && c.moves[|c.moves| - 1].moveId == r.moveId
  {
    match PunishThatEndedStock(conversions, playerIndex, endFrame)
    case None => SelfDestruct
    case Some(punish) => KillerOf(punish)
  }

  /** When exactly one killing punish of the player ends on the stock's end frame, it is the
      one the table names. */
  lemma KilledByUniquePunish(conversions: seq<Conversion>, playerIndex: int, endFrame: int, c: Conversion)
    requires c in conversions && c.playerIndex == playerIndex && c.didKill && c.endFrame == Some(endFrame)
    requires forall d :: d in conversions && d.playerIndex == playerIndex && d.didKill && d.endFrame == Some(endFrame) ==> d == c
    ensures RenderKilledBy(conversions, playerIndex, endFrame) == KillerOf(c)
  {
    var p := PunishThatEndedStock(conversions, playerIndex, endFrame);
    assert c in KillingPunishes(conversions, playerIndex);
    var kills := KillingPunishes(conversions, playerIndex);
    var i :| 0 <= i < |kills| && kills[i] == p.value && p.value.endFrame == Some(endFrame);
    assert kills[i] in kills;
  }

  /** `generateStockRow(stock)`: the start is a dash exactly for a stock that began on the
      first frame; the end, the killer and the direction are shown exactly for an ended stock. */
  function GenerateStockRow(stock: Stock, conversions: seq<Conversion>, playerIndex: int): (row: StockRow)
    ensures row.start == Dash <==> stock.startFrame == FirstFrame
    ensures row.start.Shown? ==> row.start.value == stock.startFrame
    ensures row.end == Dash <==> !Ended(stock)
    ensures row.killedBy == Dash <==> !Ended(stock)
    ensures row.direction == Dash <==> !Ended(stock)
    ensures Ended(stock) ==>
      && row.end == Shown(stock.endFrame.value)
      && row.killedBy == Shown(RenderKilledBy(conversions, playerIndex, stock.endFrame.value))
      && row.direction == Shown(stock.deathAnimation)
  {
    var start := if stock.startFrame == FirstFrame then Dash else Shown(stock.startFrame);
    if Ended(stock) then
      StockRow(start, Shown(stock.endFrame.value),
               Shown(RenderKilledBy(conversions, playerIndex, stock.endFrame.value)),
               Shown(stock.deathAnimation))
    else StockRow(start, Dash, Dash, Dash)
  }

  /** `renderStocksRows()`: one row per stock the player took, in order. */
  function RenderStocksRows(stocks: seq<Stock>, conversions: seq<Conversion>, playerIndex: int): (rows: seq<StockRow>)
    ensures |rows| == Count(stocks, TakenBy(playerIndex))
    ensures forall i :: 0 <= i < |rows| ==>
      rows[i] == GenerateStockRow(OpponentStocks(stocks, playerIndex)[i], conversions, playerIndex)
  {
    var taken := OpponentStocks(stocks, playerIndex);
    seq(|taken|, i requires 0 <= i < |taken| => GenerateStockRow(taken[i], conversions, playerIndex))
  }
}
