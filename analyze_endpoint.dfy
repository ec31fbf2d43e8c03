/** The request-level logic of the `/analyze` route of app.py: resolve the
    lookback limit, require a token address, process every listed transaction
    with a detail, run detect_sandwich_patterns, and assemble the counts. */
module AnalyzeEndpoint {
  import opened JsonValues
  import opened SwapClassifier
  import opened PatternMatcher
  import opened TransactionBatch

  /** The configuration values the route reads. */
  datatype Config = Config(dexPrograms: seq<string>, defaultLookbackLimit: int, maxLookbackLimit: int)

  /** The start-up check that the default limit does not exceed the maximum. */
  predicate ValidConfig(c: Config) {
    c.defaultLookbackLimit <= c.maxLookbackLimit
  }

  /** The `lookbackLimit` field of the request as `int()` sees it: absent (the
      default is used), a value int() converts, a value on which int() raises
      ValueError (a non-numeric string), or one on which it raises TypeError
      (None, a list, a dict). */
  datatype LimitArg = Omitted | Integer(n: int) | NotAnInteger | NotConvertible

  datatype Request = Request(tokenAddress: Option<string>, lookbackLimit: LimitArg)

  datatype Stats = Stats(totalTransactions: nat, dexTransactions: nat, potentialAttacks: nat)

  /** The route's answers: the success document, a 400 with an error message,
      or a 500 (the broad `except`, or Flask's handler for the TypeError that
      escapes the `except ValueError`). */
  datatype Response =
    | Success(tokenAddress: string, transactions: seq<ClassifiedTx>, potentialSandwiches: seq<Finding>, stats: Stats)
    | BadRequest(message: string)
    | ServerError

  const InvalidLimitMessage := "Invalid lookback limit"
  const TokenRequiredMessage := "Token address is required"

  datatype LimitResult = Limit(n: int) | LimitRejected | LimitCrashed

  /** `min(int(lookback_limit), MAX_LOOKBACK_LIMIT)`, with the default when the
      field is absent. There is no lower bound. */
  function ResolveLimit(c: Config, arg: LimitArg): (r: LimitResult)
    ensures arg.Integer? ==> r.Limit? && r.n <= c.maxLookbackLimit && (r.n == arg.n || r.n == c.maxLookbackLimit)
    ensures arg.Integer? && arg.n <= c.maxLookbackLimit ==> r == Limit(arg.n)
    ensures arg.Omitted? && ValidConfig(c) ==> r == Limit(c.defaultLookbackLimit)
    ensures arg.NotAnInteger? ==> r == LimitRejected
    ensures arg.NotConvertible? ==> r == LimitCrashed
  {
    match arg
    case Omitted => Limit(if c.defaultLookbackLimit < c.maxLookbackLimit then c.defaultLookbackLimit else c.maxLookbackLimit)
    case Integer(n) => Limit(if n < c.maxLookbackLimit then n else c.maxLookbackLimit)
    case NotAnInteger => LimitRejected
    case NotConvertible => LimitCrashed
  }

  /** The loop body of the route for one listing entry: skip a falsy signature
      or a falsy detail, otherwise record it with `isDex` and `direction`
      (no deduplication, no timestamp check). is_dex_interaction may raise. */
  function AnalyzeStep(t: Summary, token: string, dexPrograms: seq<string>, p: Provider): Step {
    match t.signature
    case None => Skip
    case Some(signature) =>
      if signature == "" then Skip
      else
        match FetchDetail(p, signature)
        case None => Skip
        case Some(details) =>
          if !Truthy(details) then Skip
          else
            var dex := IsDexInteraction(details, dexPrograms);
            if dex.Raised? then Crash
            else Keep(ClassifiedTx(signature, t.timestamp, dex.value, SwapDirection(details, token), details))
  }

  function AnalyzeSteps(txs: seq<Summary>, token: string, dexPrograms: seq<string>, p: Provider): (r: seq<Step>)
    ensures |r| == |txs|
  {
    seq(|txs|, i requires 0 <= i < |txs| => AnalyzeStep(txs[i], token, dexPrograms, p))
  }

  /** `len([t for t in processed_transactions if t["isDex"]])`. */
  function CountDex(txs: seq<ClassifiedTx>): (n: nat)
    ensures n <= |txs|
    ensures n == |txs| <==> forall k :: 0 <= k < |txs| ==> txs[k].isDex
    decreases |txs|
  {
    if txs == [] then 0
    else
      assert forall k :: 1 <= k < |txs| ==> txs[k] == txs[1..][k - 1];
      (if txs[0].isDex then 1 else 0) + CountDex(txs[1..])
  }

  /** The DEX count adds up over concatenation. */
  lemma {:induction false} CountDexAppend(a: seq<ClassifiedTx>, b: seq<ClassifiedTx>)
    ensures CountDex(a + b) == CountDex(a) + CountDex(b)
    decreases |a|
  {
    if a == [] {
      assert a + b == b;
    } else {
      assert (a + b)[1..] == a[1..] + b;
      CountDexAppend(a[1..], b);
    }
  }

  /** A single record counts 1 exactly when it has `isDex`; with CountDexAppend
      this makes CountDex the number of records with `isDex`. */
  lemma CountDexOne(t: ClassifiedTx)
    ensures CountDex([t]) == if t.isDex then 1 else 0
  {
    assert [t][1..] == [];
  }

  /** The guard of the scan: detect_sandwich_patterns raises on a non-numeric
      timestamp once there are three DEX swaps. */
  predicate ScanRaises(dex: seq<ClassifiedTx>) {
    |dex| >= 3 && exists k :: 0 <= k < |dex| && !Numeric(dex[k].timestamp)
  }

  /** The route's answer as a function of the configuration, the provider and the request. */
  function AnalyzeResponse(c: Config, p: Provider, req: Request): (r: Response)
    ensures req.lookbackLimit.NotAnInteger? ==> r == BadRequest(InvalidLimitMessage)
    ensures req.lookbackLimit.NotConvertible? ==> r == ServerError
    ensures ResolveLimit(c, req.lookbackLimit).Limit? && (req.tokenAddress.None? || req.tokenAddress == Some("")) ==>
      r == BadRequest(TokenRequiredMessage)
    ensures r.Success? ==> req.tokenAddress == Some(r.tokenAddress) && r.tokenAddress != ""
  {
    match ResolveLimit(c, req.lookbackLimit)
    case LimitRejected => BadRequest(InvalidLimitMessage)
    case LimitCrashed => ServerError
    case Limit(limit) =>
      if req.tokenAddress.None? || req.tokenAddress.value == "" then BadRequest(TokenRequiredMessage)
      else
        var token := req.tokenAddress.value;
        var txs := p.listing(token, limit);
        var steps := AnalyzeSteps(txs, token, c.dexPrograms, p);
        if AnyCrash(steps) then ServerError
        else
          var processed := Kept(steps);
          var dex := DexSwaps(processed);
          if ScanRaises(dex) then ServerError
          else
            var found := Sandwiches(dex);
            Success(token, processed, found, Stats(|txs|, CountDex(processed), |found|))
  }

  /** The loop of the route over the listing: skip a falsy signature or detail,
      otherwise append the record with `isDex` and `direction`. A raise in the
      body ends the loop (and becomes the 500 answer). */
  method ProcessTransactions(transactions: seq<Summary>, token: string, dexPrograms: seq<string>, p: Provider)
    returns (r: Outcome<seq<ClassifiedTx>>)
    ensures var steps := AnalyzeSteps(transactions, token, dexPrograms, p);
      r == if AnyCrash(steps) then Raised else Returned(Kept(steps))
  {
    ghost var steps := AnalyzeSteps(transactions, token, dexPrograms, p);
    var processedTransactions: seq<ClassifiedTx> := [];
    for i := 0 to |transactions|
      invariant !AnyCrash(steps[..i])
      invariant processedTransactions == Kept(steps[..i])
    {
      assert steps[..i + 1][..i] == steps[..i];
      var tx := transactions[i];
      assert steps[i] == AnalyzeStep(tx, token, dexPrograms, p);
      var signature := tx.signature;
      if signature.None? || signature.value == "" {
        continue;
      }
      var txDetails := FetchDetail(p, signature.value);
      if txDetails.None? || !Truthy(txDetails.value) {
        continue;
      }
      var isDex := IsDexInteraction(txDetails.value, dexPrograms);
      if isDex.Raised? {
        assert steps[i].Crash?;
        return Raised;
      }
      var direction := ClassifyDirection(txDetails.value, token);
      processedTransactions := processedTransactions +
        [ClassifiedTx(signature.value, tx.timestamp, isDex.value, direction, txDetails.value)];
    }
    assert steps[..|transactions|] == steps;
    return Returned(processedTransactions);
  }

  /** The `/analyze` route. */
  method Analyze(c: Config, p: Provider, req: Request) returns (resp: Response)
    ensures resp == AnalyzeResponse(c, p, req)
  {
    var limit := ResolveLimit(c, req.lookbackLimit);
    if limit.LimitRejected? {
      return BadRequest(InvalidLimitMessage);
    } else if limit.LimitCrashed? {
      return ServerError;
    }
    var lookbackLimit := limit.n;
    if req.tokenAddress.None? || req.tokenAddress.value == "" {
      return BadRequest(TokenRequiredMessage);
    }
    var tokenAddress := req.tokenAddress.value;
    var transactions := p.listing(tokenAddress, lookbackLimit);
    var processed := ProcessTransactions(transactions, tokenAddress, c.dexPrograms, p);
    if processed.Raised? {
      return ServerError;
    }
    var processedTransactions := processed.value;
    var potentialSandwiches := DetectSandwichPatterns(processedTransactions);
    if potentialSandwiches.Raised? {
      return ServerError;
    }
    var stats := Stats(|transactions|, CountDex(processedTransactions), |potentialSandwiches.value|);
    return Success(tokenAddress, processedTransactions, potentialSandwiches.value, stats);
  }

  // ---------------------------------------------------------------------------
  // Lemmas
  // ---------------------------------------------------------------------------

  /** The counts of a successful answer: the listing's length, the records
      marked isDex, and the findings; the records are the listed entries with a
      signature and a detail, in listing order, so there are at most as many. */
  lemma SuccessStats(c: Config, p: Provider, req: Request)
    requires AnalyzeResponse(c, p, req).Success?
    ensures var r := AnalyzeResponse(c, p, req);
      var limit := ResolveLimit(c, req.lookbackLimit).n;
      r.stats.totalTransactions == |p.listing(r.tokenAddress, limit)| &&
      r.stats.dexTransactions == CountDex(r.transactions) &&
      r.stats.dexTransactions <= |r.transactions| <= r.stats.totalTransactions &&
      r.stats.potentialAttacks == |r.potentialSandwiches| &&
      r.transactions == Kept(AnalyzeSteps(p.listing(r.tokenAddress, limit), r.tokenAddress, c.dexPrograms, p))
  {
    var r := AnalyzeResponse(c, p, req);
    var limit := ResolveLimit(c, req.lookbackLimit).n;
    KeptInOrder(AnalyzeSteps(p.listing(r.tokenAddress, limit), r.tokenAddress, c.dexPrograms, p));
  }

  /** Every record of a successful answer has a truthy signature and the direction
      analyze_swap_direction gives its detail, which is never "sell". */
  lemma {:induction false} ProcessedDirections(txs: seq<Summary>, token: string, dexPrograms: seq<string>, p: Provider)
    ensures var processed := Kept(AnalyzeSteps(txs, token, dexPrograms, p));
      forall k :: 0 <= k < |processed| ==>
        processed[k].signature != "" &&
        Summary(Some(processed[k].signature), processed[k].timestamp) in txs &&
        FetchDetail(p, processed[k].signature) == Some(processed[k].details) &&
        Truthy(processed[k].details) &&
        IsDexInteraction(processed[k].details, dexPrograms) == Returned(processed[k].isDex) &&
        processed[k].direction == SwapDirection(processed[k].details, token) &&
        processed[k].direction != Some(Sell)
  {
    var steps := AnalyzeSteps(txs, token, dexPrograms, p);
    KeptInOrder(steps);
    var pos := KeptPositions(steps);
    forall k | 0 <= k < |Kept(steps)|
      ensures Kept(steps)[k].signature != ""
      ensures Summary(Some(Kept(steps)[k].signature), Kept(steps)[k].timestamp) == txs[pos[k]]
      ensures FetchDetail(p, Kept(steps)[k].signature) == Some(Kept(steps)[k].details)
      ensures Truthy(Kept(steps)[k].details)
      ensures IsDexInteraction(Kept(steps)[k].details, dexPrograms) == Returned(Kept(steps)[k].isDex)
      ensures Kept(steps)[k].direction == SwapDirection(Kept(steps)[k].details, token)
    {
      assert steps[pos[k]] == AnalyzeStep(txs[pos[k]], token, dexPrograms, p);
    }
  }

  /** The converse: every listing entry with a truthy signature and a truthy
      detail on which is_dex_interaction returns is processed into a record. */
  lemma ProcessedComplete(txs: seq<Summary>, token: string, dexPrograms: seq<string>, p: Provider, i: nat)
    requires i < |txs| && txs[i].signature.Some? && txs[i].signature.value != ""
    requires FetchDetail(p, txs[i].signature.value).Some? && Truthy(FetchDetail(p, txs[i].signature.value).value)
    requires IsDexInteraction(FetchDetail(p, txs[i].signature.value).value, dexPrograms).Returned?
    ensures var details := FetchDetail(p, txs[i].signature.value).value;
      ClassifiedTx(txs[i].signature.value, txs[i].timestamp, IsDexInteraction(details, dexPrograms).value,
                   SwapDirection(details, token), details)
        in Kept(AnalyzeSteps(txs, token, dexPrograms, p))
  {
    var steps := AnalyzeSteps(txs, token, dexPrograms, p);
    assert steps[i] == AnalyzeStep(txs[i], token, dexPrograms, p);
    KeptComplete(steps);
    KeptInOrder(steps);
    var j :| 0 <= j < |KeptPositions(steps)| && KeptPositions(steps)[j] == i;
    assert Kept(steps)[j] == steps[i].entry;
  }

  /** The route never reports a sandwich: no record is a sell, so no window matches. */
  lemma NoSandwichEverReported(c: Config, p: Provider, req: Request)
    requires AnalyzeResponse(c, p, req).Success?
    ensures AnalyzeResponse(c, p, req).potentialSandwiches == []
    ensures AnalyzeResponse(c, p, req).stats.potentialAttacks == 0
  {
    var r := AnalyzeResponse(c, p, req);
    var limit := ResolveLimit(c, req.lookbackLimit).n;
    var txs := p.listing(r.tokenAddress, limit);
    SuccessStats(c, p, req);
    ProcessedDirections(txs, r.tokenAddress, c.dexPrograms, p);
    var dex := DexSwaps(r.transactions);
    forall k | 0 <= k < |dex|
      ensures dex[k].direction != Some(Sell)
    {
      assert dex[k] in r.transactions;
      var idx :| 0 <= idx < |r.transactions| && r.transactions[idx] == dex[k];
    }
    NoSellNoSandwiches(dex);
  }

  /** An empty (or failed) listing is no error: the answer is a success with no
      records, no findings and all counts zero. */
  lemma EmptyListing(c: Config, p: Provider, req: Request)
    requires ResolveLimit(c, req.lookbackLimit).Limit?
    requires req.tokenAddress.Some? && req.tokenAddress.value != ""
    requires p.listing(req.tokenAddress.value, ResolveLimit(c, req.lookbackLimit).n) == []
    ensures AnalyzeResponse(c, p, req) == Success(req.tokenAddress.value, [], [], Stats(0, 0, 0))
  {
    var steps := AnalyzeSteps([], req.tokenAddress.value, c.dexPrograms, p);
    assert steps == [];
  }
}
