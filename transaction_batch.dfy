/** The batch loop of `detect_sandwich_attacks` in app.py: list the token's
    recent transactions, classify each distinct signature once, keep the DEX
    swaps with a direction, and scan them for sandwiches. The Helius API is an
    input: a listing function and the raw response body per signature. */
module TransactionBatch {
  import opened JsonValues
  import opened SwapClassifier
  import opened PatternMatcher

  /** One entry of the address-transactions listing: `tx.get("signature")` and
      `tx.get("timestamp")` (an absent key reads as None, i.e. JNull). */
  datatype Summary = Summary(signature: Option<string>, timestamp: Json)

  /** The transaction provider: the listing it returns for (token, limit), and
      the body it answers to a parse request per signature (a signature with no
      entry stands for a request that raised RequestException). */
  datatype Provider = Provider(
    listing: (string, int) -> seq<Summary>,
    responses: map<string, Json>)

  /** fetch_transaction_details: the first element of a non-empty list
      response, provided it is a dict; None otherwise. */
  function FetchDetail(p: Provider, signature: string): (r: Option<Json>)
    ensures r.Some? ==> r.value.JObj?
    ensures r.Some? <==>
      signature in p.responses && p.responses[signature].JArr? &&
      p.responses[signature].items != [] && p.responses[signature].items[0].JObj?
    ensures r.Some? ==> r.value == p.responses[signature].items[0]
  {
    if signature !in p.responses then None
    else
      match p.responses[signature]
      case JArr(items) => if items != [] && items[0].JObj? then Some(items[0]) else None
      case _ => None
  }

  // ---------------------------------------------------------------------------
  // Per-entry outcomes, shared with the analyze endpoint
  // ---------------------------------------------------------------------------

  /** What the loop body does with one listing entry: skip it (`continue`),
      append a record, or raise. */
  datatype Step = Skip | Keep(entry: ClassifiedTx) | Crash

  /** Some entry raises, which aborts the whole loop. */
  predicate AnyCrash(steps: seq<Step>) {
    exists i :: 0 <= i < |steps| && steps[i].Crash?
  }

  /** The appended records, in order. */
  function Kept(steps: seq<Step>): seq<ClassifiedTx>
    decreases |steps|
  {
    if steps == [] then []
    else
      Kept(steps[..|steps| - 1]) +
      (match steps[|steps| - 1]
       case Keep(entry) => [entry]
       case _ => [])
  }

  /** The positions of the appending steps, in order. */
  function KeptPositions(steps: seq<Step>): seq<nat>
    decreases |steps|
  {
    if steps == [] then []
    else KeptPositions(steps[..|steps| - 1]) + (if steps[|steps| - 1].Keep? then [|steps| - 1] else [])
  }

  // ---------------------------------------------------------------------------
  // Deduplication with analyzed_signatures
  // ---------------------------------------------------------------------------

  /** The contents of `analyzed_signatures` after the loop has seen `txs`: every
      truthy signature among them. */
  function Signatures(txs: seq<Summary>): set<string>
    decreases |txs|
  {
    if txs == [] then {}
    else
      var t := txs[|txs| - 1];
      Signatures(txs[..|txs| - 1]) +
      (if t.signature.Some? && t.signature.value != "" then {t.signature.value} else {})
  }

  /** The loop goes on to process `t` after `earlier`: its signature is truthy
      and not yet in `analyzed_signatures`. */
  predicate IsFirstOccurrence(t: Summary, earlier: seq<Summary>) {
    t.signature.Some? && t.signature.value != "" && t.signature.value !in Signatures(earlier)
  }

  /** The entries the loop processes: the first entry of each truthy signature, in order. */
  function FirstOccurrences(txs: seq<Summary>): seq<Summary>
    decreases |txs|
  {
    if txs == [] then []
    else
      var earlier := txs[..|txs| - 1];
      FirstOccurrences(earlier) + (if IsFirstOccurrence(txs[|txs| - 1], earlier) then [txs[|txs| - 1]] else [])
  }

  /** The loop body of detect_sandwich_attacks for a first occurrence: fetch the
      detail (skip if falsy), check the timestamp is an int or float (skip if
      not), then keep the entry when it is a DEX interaction with a direction.
      is_dex_interaction may raise, which ends the whole call. */
  function AttackStep(t: Summary, token: string, dexPrograms: seq<string>, p: Provider): Step {
    match t.signature
    case None => Skip
    case Some(signature) =>
      match FetchDetail(p, signature)
      case None => Skip
      case Some(details) =>
        if !Truthy(details) || !Numeric(t.timestamp) then Skip
        else
          var dex := IsDexInteraction(details, dexPrograms);
          if dex.Raised? then Crash
          else if !dex.value then Skip
          else
            match SwapDirection(details, token)
            case None => Skip
            case Some(d) => Keep(ClassifiedTx(signature, t.timestamp, true, Some(d), details))
  }

  function AttackSteps(firsts: seq<Summary>, token: string, dexPrograms: seq<string>, p: Provider): (r: seq<Step>)
    ensures |r| == |firsts|
  {
    seq(|firsts|, i requires 0 <= i < |firsts| => AttackStep(firsts[i], token, dexPrograms, p))
  }

  /** The records detect_sandwich_attacks appends to `dex_transactions` for a listing. */
  function AttackRecords(txs: seq<Summary>, token: string, dexPrograms: seq<string>, p: Provider): seq<ClassifiedTx> {
    Kept(AttackSteps(FirstOccurrences(txs), token, dexPrograms, p))
  }

  /** What detect_sandwich_attacks computes before printing its report. */
  datatype AttackReport =
    | NoTransactions
    | Report(dexTransactions: seq<ClassifiedTx>, sandwiches: seq<Finding>)
    | Crashed

  /** detect_sandwich_attacks: an empty listing ends the call; otherwise the
      distinct signatures are processed in order and the DEX swaps scanned. */
  method DetectSandwichAttacks(token: string, lookbackLimit: int, dexPrograms: seq<string>, p: Provider)
    returns (out: AttackReport)
    ensures var txs := p.listing(token, lookbackLimit);
      var records := AttackRecords(txs, token, dexPrograms, p);
      out == if txs == [] then NoTransactions
             else if AnyCrash(AttackSteps(FirstOccurrences(txs), token, dexPrograms, p)) then Crashed
             else Report(records, Sandwiches(records))
  {
    var transactions := p.listing(token, lookbackLimit);
    if transactions == [] {
      return NoTransactions;
    }
    var dexTransactions := CollectDexTransactions(transactions, token, dexPrograms, p);
    if dexTransactions.Raised? {
      return Crashed;
    }
    DexTransactionsFacts(transactions, token, dexPrograms, p);
    var sandwiches := ScanForSandwiches(dexTransactions.value);
    return Report(dexTransactions.value, sandwiches.value);
  }

  /** The first loop of detect_sandwich_attacks: skip falsy and already analysed
      signatures, record the rest in `analyzed_signatures`, and append the DEX
      swaps with a direction to `dex_transactions`. A raise in the body ends it. */
  method CollectDexTransactions(transactions: seq<Summary>, token: string, dexPrograms: seq<string>, p: Provider)
    returns (r: Outcome<seq<ClassifiedTx>>)
    ensures r.Raised? <==> AnyCrash(AttackSteps(FirstOccurrences(transactions), token, dexPrograms, p))
    ensures r.Returned? ==> r.value == AttackRecords(transactions, token, dexPrograms, p)
  {
    var analyzedSignatures: set<string> := {};
    var dexTransactions: seq<ClassifiedTx> := [];
    ghost var firsts: seq<Summary> := [];
    for i := 0 to |transactions|
      invariant firsts == FirstOccurrences(transactions[..i])
      invariant analyzedSignatures == Signatures(transactions[..i])
      invariant !AnyCrash(AttackSteps(firsts, token, dexPrograms, p))
      invariant dexTransactions == Kept(AttackSteps(firsts, token, dexPrograms, p))
    {
      var tx := transactions[i];
      AdvanceOne(transactions, i);
      var signature := tx.signature;
      if signature.None? || signature.value == "" || signature.value in analyzedSignatures {
        assert !IsFirstOccurrence(tx, transactions[..i]);
        continue;
      }
      assert IsFirstOccurrence(tx, transactions[..i]);
      analyzedSignatures := analyzedSignatures + {signature.value};
      AttackStepsSnoc(firsts, tx, token, dexPrograms, p);
      firsts := firsts + [tx];
      var outcome := ProcessEntry(tx, signature.value, token, dexPrograms, p);
      if outcome.Crash? {
        FirstOccurrencesPrefix(transactions, i + 1);
        CrashPersists(firsts, FirstOccurrences(transactions), token, dexPrograms, p);
        assert transactions[..|transactions|] == transactions;
        return Raised;
      }
      if outcome.Keep? {
        dexTransactions := dexTransactions + [outcome.entry];
      }
    }
    assert transactions[..|transactions|] == transactions;
    return Returned(dexTransactions);
  }

  /** The body of the loop of detect_sandwich_attacks for a new signature:
      fetch the detail, check it and the timestamp, and classify the entry. */
  method ProcessEntry(tx: Summary, signature: string, token: string, dexPrograms: seq<string>, p: Provider)
    returns (step: Step)
    requires tx.signature == Some(signature)
    ensures step == AttackStep(tx, token, dexPrograms, p)
    ensures step.Keep? ==>
      step.entry.signature == signature && step.entry.timestamp == tx.timestamp &&
      Numeric(step.entry.timestamp) && step.entry.direction == SwapDirection(step.entry.details, token)
  {
    var txDetails := FetchDetail(p, signature);
    if txDetails.None? || !Truthy(txDetails.value) {
      return Skip;
    }
    var timestamp := tx.timestamp;
    if !Numeric(timestamp) {
      return Skip;
    }
    var isDex := IsDexInteraction(txDetails.value, dexPrograms);
    if isDex.Raised? {
      return Crash;
    }
    if !isDex.value {
      return Skip;
    }
    var swapDir := ClassifyDirection(txDetails.value, token);
    if swapDir.None? {
      return Skip;
    }
    step := Keep(ClassifiedTx(signature, timestamp, true, swapDir, txDetails.value));
  }

  // ---------------------------------------------------------------------------
  // Lemmas
  // ---------------------------------------------------------------------------

  /** One more entry seen: the signature set and the first occurrences grow as the loop body says. */
  lemma AdvanceOne(txs: seq<Summary>, i: nat)
    requires i < |txs|
    ensures var t := txs[i];
      Signatures(txs[..i + 1]) ==
        Signatures(txs[..i]) + (if t.signature.Some? && t.signature.value != "" then {t.signature.value} else {})
    ensures FirstOccurrences(txs[..i + 1]) ==
      FirstOccurrences(txs[..i]) + (if IsFirstOccurrence(txs[i], txs[..i]) then [txs[i]] else [])
  {
    assert txs[..i + 1][..i] == txs[..i];
  }

  /** One more first occurrence processed: its step is appended. */
  lemma AttackStepsSnoc(firsts: seq<Summary>, t: Summary, token: string, dexPrograms: seq<string>, p: Provider)
    ensures var steps := AttackSteps(firsts + [t], token, dexPrograms, p);
      var step := AttackStep(t, token, dexPrograms, p);
      steps[..|firsts|] == AttackSteps(firsts, token, dexPrograms, p) && steps[|firsts|] == step &&
      Kept(steps) == Kept(AttackSteps(firsts, token, dexPrograms, p)) + (if step.Keep? then [step.entry] else []) &&
      (AnyCrash(steps) <==> AnyCrash(AttackSteps(firsts, token, dexPrograms, p)) || step.Crash?)
  {
    var steps := AttackSteps(firsts + [t], token, dexPrograms, p);
    var init := AttackSteps(firsts, token, dexPrograms, p);
    assert steps[..|firsts|] == init;
    assert steps == init + [steps[|firsts|]];
  }

  /** Processing a prefix of the first occurrences crashes only if processing all of them does. */
  lemma CrashPersists(prefix: seq<Summary>, all: seq<Summary>, token: string, dexPrograms: seq<string>, p: Provider)
    requires |prefix| <= |all| && all[..|prefix|] == prefix
    requires AnyCrash(AttackSteps(prefix, token, dexPrograms, p))
    ensures AnyCrash(AttackSteps(all, token, dexPrograms, p))
  {
    var steps := AttackSteps(prefix, token, dexPrograms, p);
    var i :| 0 <= i < |steps| && steps[i].Crash?;
    assert prefix[i] == all[i];
    assert AttackSteps(all, token, dexPrograms, p)[i].Crash?;
  }

  /** The first occurrences of a prefix are a prefix of the first occurrences. */
  lemma {:induction false} FirstOccurrencesPrefix(txs: seq<Summary>, n: nat)
    requires n <= |txs|
    ensures |FirstOccurrences(txs[..n])| <= |FirstOccurrences(txs)|
    ensures FirstOccurrences(txs)[..|FirstOccurrences(txs[..n])|] == FirstOccurrences(txs[..n])
    decreases |txs|
  {
    if n == |txs| {
      assert txs[..n] == txs;
    } else {
      var earlier := txs[..|txs| - 1];
      FirstOccurrencesPrefix(earlier, n);
      assert earlier[..n] == txs[..n];
    }
  }

  /** The signatures recorded are exactly the truthy signatures seen. */
  lemma {:induction false} SignaturesExact(txs: seq<Summary>)
    ensures forall s :: s in Signatures(txs) <==>
      exists i :: 0 <= i < |txs| && txs[i].signature == Some(s) && s != ""
    decreases |txs|
  {
    if txs != [] {
      var earlier := txs[..|txs| - 1];
      SignaturesExact(earlier);
      assert forall i :: 0 <= i < |earlier| ==> earlier[i] == txs[i];
    }
  }

  /** Each processed entry has a truthy signature, comes from the listing, and
      no two processed entries share a signature. */
  lemma {:induction false} FirstOccurrencesDistinct(txs: seq<Summary>)
    ensures forall k :: 0 <= k < |FirstOccurrences(txs)| ==>
      FirstOccurrences(txs)[k].signature.Some? && FirstOccurrences(txs)[k].signature.value != "" &&
      FirstOccurrences(txs)[k].signature.value in Signatures(txs) && FirstOccurrences(txs)[k] in txs
    ensures forall j, k :: 0 <= j < k < |FirstOccurrences(txs)| ==>
      FirstOccurrences(txs)[j].signature != FirstOccurrences(txs)[k].signature
    decreases |txs|
  {
    if txs != [] {
      var earlier := txs[..|txs| - 1];
      FirstOccurrencesDistinct(earlier);
      assert Signatures(earlier) <= Signatures(txs);
      assert forall t :: t in earlier ==> t in txs;
    }
  }

  /** First occurrence wins: the first entry of every truthy signature is processed. */
  lemma {:induction false} FirstOccurrenceProcessed(txs: seq<Summary>, i: nat)
    requires i < |txs| && IsFirstOccurrence(txs[i], txs[..i])
    ensures txs[i] in FirstOccurrences(txs)
    decreases |txs|
  {
    if i < |txs| - 1 {
      var earlier := txs[..|txs| - 1];
      assert earlier[..i] == txs[..i];
      FirstOccurrenceProcessed(earlier, i);
    } else {
      assert txs[..|txs| - 1] == txs[..i];
    }
  }

  /** The appended records, in order: the j-th record comes from the step at
      the j-th appending position, and the positions increase. */
  lemma {:induction false} KeptInOrder(steps: seq<Step>)
    ensures |Kept(steps)| == |KeptPositions(steps)| <= |steps|
    ensures forall j :: 0 <= j < |KeptPositions(steps)| ==>
      KeptPositions(steps)[j] < |steps| && steps[KeptPositions(steps)[j]] == Keep(Kept(steps)[j])
    ensures forall j, k :: 0 <= j < k < |KeptPositions(steps)| ==> KeptPositions(steps)[j] < KeptPositions(steps)[k]
    decreases |steps|
  {
    if steps != [] {
      var init := steps[..|steps| - 1];
      KeptInOrder(init);
      var pos, initPos := KeptPositions(steps), KeptPositions(init);
      assert pos[..|initPos|] == initPos;
      assert forall j :: 0 <= j < |initPos| ==> initPos[j] < |init|;
      assert forall i :: 0 <= i < |init| ==> init[i] == steps[i];
    }
  }

  /** Every appending step is among the appending positions. */
  lemma {:induction false} KeptComplete(steps: seq<Step>)
    ensures forall i :: 0 <= i < |steps| && steps[i].Keep? ==> i in KeptPositions(steps)
    decreases |steps|
  {
    if steps != [] {
      var init := steps[..|steps| - 1];
      KeptComplete(init);
      assert forall i :: 0 <= i < |init| ==> init[i] == steps[i];
    }
  }

  /** What detect_sandwich_attacks keeps: one record per distinct signature at
      most, each the first occurrence of its signature in the listing, with a
      numeric timestamp, a detail on which is_dex_interaction returned True, and
      the (truthy) direction analyze_swap_direction gives for it. */
  lemma DexTransactionsFacts(txs: seq<Summary>, token: string, dexPrograms: seq<string>, p: Provider)
    ensures forall j, k :: 0 <= j < k < |AttackRecords(txs, token, dexPrograms, p)| ==>
      AttackRecords(txs, token, dexPrograms, p)[j].signature != AttackRecords(txs, token, dexPrograms, p)[k].signature
    ensures forall k :: 0 <= k < |AttackRecords(txs, token, dexPrograms, p)| ==>
      var t := AttackRecords(txs, token, dexPrograms, p)[k];
      IsDexSwap(t) && Numeric(t.timestamp) &&
      IsDexInteraction(t.details, dexPrograms) == Returned(true) &&
      t.direction == SwapDirection(t.details, token) &&
      FetchDetail(p, t.signature) == Some(t.details) && Truthy(t.details) &&
      Summary(Some(t.signature), t.timestamp) in FirstOccurrences(txs)
  {
    var firsts := FirstOccurrences(txs);
    var steps := AttackSteps(firsts, token, dexPrograms, p);
    KeptInOrder(steps);
    FirstOccurrencesDistinct(txs);
    var dex := Kept(steps);
    var pos := KeptPositions(steps);
    forall k | 0 <= k < |dex|
      ensures firsts[pos[k]].signature == Some(dex[k].signature)
      ensures firsts[pos[k]] == Summary(Some(dex[k].signature), dex[k].timestamp)
    {
      assert steps[pos[k]] == AttackStep(firsts[pos[k]], token, dexPrograms, p);
    }
  }

  /** The converse: a first occurrence whose detail is fetched and truthy, whose
      timestamp is numeric, on which is_dex_interaction returns True and which
      has a direction, is among the records kept. */
  lemma FirstOccurrenceKept(txs: seq<Summary>, token: string, dexPrograms: seq<string>, p: Provider, t: Summary)
    requires t in FirstOccurrences(txs) && t.signature.Some?
    requires FetchDetail(p, t.signature.value).Some? && Truthy(FetchDetail(p, t.signature.value).value)
    requires Numeric(t.timestamp)
    requires IsDexInteraction(FetchDetail(p, t.signature.value).value, dexPrograms) == Returned(true)
    requires SwapDirection(FetchDetail(p, t.signature.value).value, token).Some?
    ensures var details := FetchDetail(p, t.signature.value).value;
      ClassifiedTx(t.signature.value, t.timestamp, true, SwapDirection(details, token), details)
        in AttackRecords(txs, token, dexPrograms, p)
  {
    var firsts := FirstOccurrences(txs);
    var steps := AttackSteps(firsts, token, dexPrograms, p);
    var i :| 0 <= i < |firsts| && firsts[i] == t;
    assert steps[i] == AttackStep(t, token, dexPrograms, p);
    KeptComplete(steps);
    KeptInOrder(steps);
    var j :| 0 <= j < |KeptPositions(steps)| && KeptPositions(steps)[j] == i;
    assert Kept(steps)[j] == steps[i].entry;
  }

  /** The classifier never says "sell", so detect_sandwich_attacks never reports a sandwich. */
  lemma AttacksNeverReported(txs: seq<Summary>, token: string, dexPrograms: seq<string>, p: Provider)
    ensures Sandwiches(AttackRecords(txs, token, dexPrograms, p)) == []
  {
    var dex := AttackRecords(txs, token, dexPrograms, p);
    DexTransactionsFacts(txs, token, dexPrograms, p);
    forall j | 0 <= j < |dex|
      ensures dex[j].direction != Some(Sell)
    {
      assert dex[j].direction == SwapDirection(dex[j].details, token);
    }
    NoSellNoSandwiches(dex);
  }
}
