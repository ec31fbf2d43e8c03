/** Concrete cases of the detector's behaviour, stated on the model. */
module Scenarios {
  import opened JsonValues
  import opened SwapClassifier
  import opened PatternMatcher
  import opened AnalyzeEndpoint

  function Swap(signature: string, time: int, d: Direction): ClassifiedTx {
    ClassifiedTx(signature, JNum(time), true, Some(d), JObj(map[]))
  }

  /** buy, buy, sell at t = 0, 5, 10: one buy-victim-sell finding with gaps 5 and 5. */
  lemma CloseTripleReported()
    ensures var dex := [Swap("a", 0, Buy), Swap("b", 5, Buy), Swap("c", 10, Sell)];
      Sandwiches(dex) == [Finding(BuyVictimSell, dex[0], dex[1], dex[2], 5, 5)]
  {
  }

  /** The same directions at t = 0, 40, 80: the gaps exceed 30 s, nothing is reported. */
  lemma DistantTripleIgnored()
    ensures Sandwiches([Swap("a", 0, Buy), Swap("b", 40, Buy), Swap("c", 80, Sell)]) == []
  {
  }

  /** A gap of exactly 30 s is allowed, 31 s is not; gaps are absolute, so
      timestamps going backwards count the same. */
  lemma GapBoundary()
    ensures |Sandwiches([Swap("a", 100, Sell), Swap("b", 70, Sell), Swap("c", 100, Buy)])| == 1
    ensures Sandwiches([Swap("a", 0, Sell), Swap("b", 31, Sell), Swap("c", 40, Buy)]) == []
  {
  }

  /** An empty transfer list gives no direction, so the record is no DEX swap. */
  lemma EmptyTransfersNoDirection(token: string)
    ensures SwapDirection(JObj(map["tokenTransfers" := JArr([])]), token) == None
    ensures DexSwaps([ClassifiedTx("s", JNum(0), true, SwapDirection(JObj(map["tokenTransfers" := JArr([])]), token), JObj(map[]))]) == []
  {
  }

  /** A requested limit of 2000 with a maximum of 1000 becomes 1000; a negative one stays. */
  lemma LimitClamped(dexPrograms: seq<string>)
    ensures ResolveLimit(Config(dexPrograms, 100, 1000), Integer(2000)) == Limit(1000)
    ensures ResolveLimit(Config(dexPrograms, 100, 1000), Integer(-5)) == Limit(-5)
  {
  }

  function TokenLeg(token: string, kind: string): Json {
    JObj(map["mint" := JStr(token), "tokenAmount" := JObj(map["amount" := JStr("100")]), "transferType" := JStr(kind)])
  }

  /** The target token leaving the wallet for SOL still reads as a buy: the
      classifier looks only at which mints appear, not at who sends them. */
  lemma SellLooksLikeBuy(token: string)
    requires token != "So11111111111111111111111111111111111111112"
    ensures var sol := JObj(map["mint" := JStr("So11111111111111111111111111111111111111112")]);
      SwapDirection(JObj(map["tokenTransfers" := JArr([TokenLeg(token, "transfer"), sol])]), token) == Some(Buy)
  {
    var sol := JObj(map["mint" := JStr("So11111111111111111111111111111111111111112")]);
    var transfers := [TokenLeg(token, "transfer"), sol];
    assert IsOutputLeg(transfers[0], token);
    assert LastInputLeg(transfers, token) == JStr("So11111111111111111111111111111111111111112");
  }

  /** Last one wins, even when the last non-target transfer has no mint: it resets
      `input_token` to None and the swap is no longer a buy. */
  lemma MintlessTransferResetsInput(token: string)
    requires token != "USDC"
    ensures var usdc := JObj(map["mint" := JStr("USDC")]);
      SwapDirection(JObj(map["tokenTransfers" := JArr([usdc, TokenLeg(token, "mintTo"), JObj(map[])])]), token) == None
  {
    var usdc := JObj(map["mint" := JStr("USDC")]);
    var transfers := [usdc, TokenLeg(token, "mintTo"), JObj(map[])];
    assert LastInputLeg(transfers, token) == JNull;
  }
}
