/** The swap classifier of app.py: `is_dex_interaction` decides whether a
    parsed transaction touches a configured DEX program, and
    `analyze_swap_direction` decides whether it is a "buy" or a "sell" of the
    target token. */
module SwapClassifier {
  import opened JsonValues

  datatype Direction = Buy | Sell

  // ---------------------------------------------------------------------------
  // DEX check (is_dex_interaction)
  // ---------------------------------------------------------------------------

  /** `instruction.get("programId") in DEX_PROGRAM_IDS`, for an instruction that is a dict. */
  predicate IsDexInstruction(instruction: Json, dexPrograms: seq<string>) {
    instruction.JObj? &&
    (match Get(instruction.fields, "programId", JNull)
     case JStr(id) => id in dexPrograms
     case _ => false)
  }

  /** Every instruction in `s` is a dict, so `.get` on it does not raise. */
  predicate AllDicts(s: seq<Json>) {
    forall j :: 0 <= j < |s| ==> s[j].JObj?
  }

  /** No instruction in `s` names a DEX program. */
  predicate NoDex(s: seq<Json>, dexPrograms: seq<string>) {
    forall j :: 0 <= j < |s| ==> !IsDexInstruction(s[j], dexPrograms)
  }

  /** The early-exit loop over an instruction list: it returns True at the first
      DEX instruction, and `.get` on an element that is not a dict raises
      AttributeError before that. */
  function ScanInstructions(instructions: seq<Json>, dexPrograms: seq<string>): (r: Outcome<bool>)
    ensures r == Returned(true) <==>
      exists i :: 0 <= i < |instructions| && IsDexInstruction(instructions[i], dexPrograms) && AllDicts(instructions[..i])
    ensures r == Raised <==>
      exists i :: 0 <= i < |instructions| && !instructions[i].JObj? && NoDex(instructions[..i], dexPrograms)
    ensures r == Returned(false) <==> AllDicts(instructions) && NoDex(instructions, dexPrograms)
    decreases |instructions|
  {
    if instructions == [] then Returned(false)
    else if !instructions[0].JObj? then
      assert instructions[..0] == [];
      Raised
    else if IsDexInstruction(instructions[0], dexPrograms) then
      assert instructions[..0] == [];
      Returned(true)
    else
      ScanPastOrdinary(instructions, dexPrograms);
      ScanInstructions(instructions[1..], dexPrograms)
  }

  /** Skipping a leading dict that is no DEX instruction changes none of the
      three conditions of ScanInstructions. */
  lemma ScanPastOrdinary(instructions: seq<Json>, dexPrograms: seq<string>)
    requires instructions != [] && instructions[0].JObj? && !IsDexInstruction(instructions[0], dexPrograms)
    ensures (exists i :: 0 <= i < |instructions| && IsDexInstruction(instructions[i], dexPrograms) && AllDicts(instructions[..i])) <==>
      (exists i :: 0 <= i < |instructions[1..]| && IsDexInstruction(instructions[1..][i], dexPrograms) && AllDicts(instructions[1..][..i]))
    ensures (exists i :: 0 <= i < |instructions| && !instructions[i].JObj? && NoDex(instructions[..i], dexPrograms)) <==>
      (exists i :: 0 <= i < |instructions[1..]| && !instructions[1..][i].JObj? && NoDex(instructions[1..][..i], dexPrograms))
    ensures AllDicts(instructions) <==> AllDicts(instructions[1..])
    ensures NoDex(instructions, dexPrograms) <==> NoDex(instructions[1..], dexPrograms)
  {
    ShiftPrefixes(instructions, dexPrograms);
    ShiftDexReached(instructions, dexPrograms);
    ShiftRaises(instructions, dexPrograms);
    assert instructions[..|instructions|] == instructions;
    assert instructions[1..][..|instructions| - 1] == instructions[1..];
  }

  /** The prefixes of the list after a leading ordinary dict satisfy AllDicts
      and NoDex exactly when the one-longer prefixes of the whole list do. */
  lemma ShiftPrefixes(instructions: seq<Json>, dexPrograms: seq<string>)
    requires instructions != [] && instructions[0].JObj? && !IsDexInstruction(instructions[0], dexPrograms)
    ensures forall i :: 0 < i <= |instructions| ==>
      (AllDicts(instructions[..i]) <==> AllDicts(instructions[1..][..i - 1]))
    ensures forall i :: 0 < i <= |instructions| ==>
      (NoDex(instructions[..i], dexPrograms) <==> NoDex(instructions[1..][..i - 1], dexPrograms))
  {
    var rest := instructions[1..];
    forall i | 0 < i <= |instructions|
      ensures AllDicts(instructions[..i]) <==> AllDicts(rest[..i - 1])
      ensures NoDex(instructions[..i], dexPrograms) <==> NoDex(rest[..i - 1], dexPrograms)
    {
      assert forall j :: 0 < j < i ==> instructions[..i][j] == rest[..i - 1][j - 1];
    }
  }

  lemma ShiftDexReached(instructions: seq<Json>, dexPrograms: seq<string>)
    requires instructions != [] && instructions[0].JObj? && !IsDexInstruction(instructions[0], dexPrograms)
    requires forall i :: 0 < i <= |instructions| ==>
      (AllDicts(instructions[..i]) <==> AllDicts(instructions[1..][..i - 1]))
    ensures (exists i :: 0 <= i < |instructions| && IsDexInstruction(instructions[i], dexPrograms) && AllDicts(instructions[..i])) <==>
      (exists i :: 0 <= i < |instructions[1..]| && IsDexInstruction(instructions[1..][i], dexPrograms) && AllDicts(instructions[1..][..i]))
  {
    var rest := instructions[1..];
    if exists i :: 0 <= i < |instructions| && IsDexInstruction(instructions[i], dexPrograms) && AllDicts(instructions[..i]) {
      var i :| 0 <= i < |instructions| && IsDexInstruction(instructions[i], dexPrograms) && AllDicts(instructions[..i]);
      assert rest[i - 1] == instructions[i];
    }
    if exists i :: 0 <= i < |rest| && IsDexInstruction(rest[i], dexPrograms) && AllDicts(rest[..i]) {
      var i :| 0 <= i < |rest| && IsDexInstruction(rest[i], dexPrograms) && AllDicts(rest[..i]);
      assert instructions[i + 1] == rest[i];
    }
  }

  lemma ShiftRaises(instructions: seq<Json>, dexPrograms: seq<string>)
    requires instructions != [] && instructions[0].JObj? && !IsDexInstruction(instructions[0], dexPrograms)
    requires forall i :: 0 < i <= |instructions| ==>
      (NoDex(instructions[..i], dexPrograms) <==> NoDex(instructions[1..][..i - 1], dexPrograms))
    ensures (exists i :: 0 <= i < |instructions| && !instructions[i].JObj? && NoDex(instructions[..i], dexPrograms)) <==>
      (exists i :: 0 <= i < |instructions[1..]| && !instructions[1..][i].JObj? && NoDex(instructions[1..][..i], dexPrograms))
  {
    var rest := instructions[1..];
    if exists i :: 0 <= i < |instructions| && !instructions[i].JObj? && NoDex(instructions[..i], dexPrograms) {
      var i :| 0 <= i < |instructions| && !instructions[i].JObj? && NoDex(instructions[..i], dexPrograms);
      assert rest[i - 1] == instructions[i];
    }
    if exists i :: 0 <= i < |rest| && !rest[i].JObj? && NoDex(rest[..i], dexPrograms) {
      var i :| 0 <= i < |rest| && !rest[i].JObj? && NoDex(rest[..i], dexPrograms);
      assert instructions[i + 1] == rest[i];
    }
  }

  /** is_dex_interaction: a value that is falsy or not a dict is no DEX
      interaction; otherwise `tx_data.get("instructions", [])` is iterated.
      Iterating a non-empty string or dict yields strings, on which `.get`
      raises; None, a bool and a number are not iterable. */
  function IsDexInteraction(tx: Json, dexPrograms: seq<string>): (r: Outcome<bool>)
    ensures !tx.JObj? || "instructions" !in tx.fields ==> r == Returned(false)
    ensures r == Returned(true) <==>
      tx.JObj? && "instructions" in tx.fields && tx.fields["instructions"].JArr? &&
      exists i :: 0 <= i < |tx.fields["instructions"].items| &&
        IsDexInstruction(tx.fields["instructions"].items[i], dexPrograms) &&
        AllDicts(tx.fields["instructions"].items[..i])
    ensures r == Raised <==>
      tx.JObj? && "instructions" in tx.fields &&
      match tx.fields["instructions"]
      case JArr(items) =>
        exists i :: 0 <= i < |items| && !items[i].JObj? && NoDex(items[..i], dexPrograms)
      case JStr(s) => s != ""
      case JObj(m) => m != map[]
      case _ => true
  {
    if !Truthy(tx) || !tx.JObj? then Returned(false)
    else
      match Get(tx.fields, "instructions", JArr([]))
      case JArr(items) => ScanInstructions(items, dexPrograms)
      case JStr(s) => if s == "" then Returned(false) else Raised
      case JObj(m) => if m == map[] then Returned(false) else Raised
      case _ => Raised
  }

  // ---------------------------------------------------------------------------
  // Swap direction (analyze_swap_direction)
  // ---------------------------------------------------------------------------

  /** `transfer.get("mint")`. */
  function Mint(transfer: Json): Json
    requires transfer.JObj?
  {
    Get(transfer.fields, "mint", JNull)
  }

  /** The amount string: `tokenAmount.get("amount", "0")` when `tokenAmount`
      (default `{}`) is a dict, and "0" otherwise. */
  function Amount(transfer: Json): Json
    requires transfer.JObj?
  {
    var tokenAmount := Get(transfer.fields, "tokenAmount", JObj(map[]));
    if tokenAmount.JObj? then Get(tokenAmount.fields, "amount", JStr("0")) else JStr("0")
  }

  /** A transfer the loop records as the input leg: a dict whose mint is not the target token. */
  predicate IsInputLeg(transfer: Json, token: string) {
    transfer.JObj? && Mint(transfer) != JStr(token)
  }

  /** A transfer the loop records as the output leg: a dict moving a non-"0"
      amount of the target token as a transfer, mintTo or burn. */
  predicate IsOutputLeg(transfer: Json, token: string) {
    transfer.JObj? && Mint(transfer) == JStr(token) && Amount(transfer) != JStr("0") &&
    Get(transfer.fields, "transferType", JNull) in {JStr("transfer"), JStr("mintTo"), JStr("burn")}
  }

  /** The value `input_token` holds after the loop: the mint of the last input
      leg, or None when there is none. It is never the target token. */
  function LastInputLeg(transfers: seq<Json>, token: string): (r: Json)
    ensures r != JStr(token)
    decreases |transfers|
  {
    if transfers == [] then JNull
    else
      var last := transfers[|transfers| - 1];
      if IsInputLeg(last, token) then Mint(last)
      else LastInputLeg(transfers[..|transfers| - 1], token)
  }

  /** The value `output_token` holds after the loop: the target token when some
      transfer is an output leg, None otherwise. */
  function OutputLeg(transfers: seq<Json>, token: string): Json {
    if exists i :: 0 <= i < |transfers| && IsOutputLeg(transfers[i], token) then JStr(token) else JNull
  }

  /** The transfer list the loop scans, or None when the guards return early:
      the record is not a dict, `successful` (default True) is falsy, or
      `tokenTransfers` (default []) is not a list. */
  function TransferList(tx: Json): Option<seq<Json>> {
    if !tx.JObj? then None
    else if !Truthy(Get(tx.fields, "successful", JBool(true))) then None
    else
      match Get(tx.fields, "tokenTransfers", JArr([]))
      case JArr(items) => Some(items)
      case _ => None
  }

  /** The final decision on the two legs. */
  function Decide(input: Json, output: Json, token: string): Option<Direction> {
    if Truthy(input) && output == JStr(token) then Some(Buy)
    else if input == JStr(token) && Truthy(output) && output != JStr(token) then Some(Sell)
    else None
  }

  /** analyze_swap_direction as a function of the record and the target token.
      Its result is never a sell: `input_token` only ever holds a mint other
      than the target, so the sell condition cannot hold. */
  function SwapDirection(tx: Json, token: string): (r: Option<Direction>)
    ensures !tx.JObj? ==> r == None
    ensures tx.JObj? && !Truthy(Get(tx.fields, "successful", JBool(true))) ==> r == None
    ensures tx.JObj? && !Get(tx.fields, "tokenTransfers", JArr([])).JArr? ==> r == None
    ensures r != Some(Sell)
  {
    match TransferList(tx)
    case None => None
    case Some(transfers) => Decide(LastInputLeg(transfers, token), OutputLeg(transfers, token), token)
  }

  /** The loop of analyze_swap_direction, updating `input_token` and
      `output_token` transfer by transfer. */
  method ClassifyDirection(tx: Json, token: string) returns (d: Option<Direction>)
    ensures d == SwapDirection(tx, token)
    ensures d == None || d == Some(Buy)
  {
    if !tx.JObj? {
      return None;
    }
    if !Truthy(Get(tx.fields, "successful", JBool(true))) {
      return None;
    }
    var tokenTransfers := Get(tx.fields, "tokenTransfers", JArr([]));
    if !tokenTransfers.JArr? {
      return None;
    }
    var transfers := tokenTransfers.items;
    var input := JNull;
    var output := JNull;
    for i := 0 to |transfers|
      invariant input == LastInputLeg(transfers[..i], token)
      invariant output == OutputLeg(transfers[..i], token)
    {
      assert transfers[..i + 1][..i] == transfers[..i];
      assert forall k :: 0 <= k < i ==> transfers[..i + 1][k] == transfers[..i][k];
      var transfer := transfers[i];
      if !transfer.JObj? {
        continue;
      }
      var mint := Get(transfer.fields, "mint", JNull);
      var tokenAmount := Get(transfer.fields, "tokenAmount", JObj(map[]));
      var amount := if tokenAmount.JObj? then Get(tokenAmount.fields, "amount", JStr("0")) else JStr("0");
      if mint == JStr(token) {
        if amount == JStr("0") {
          continue;
        }
        var transferType := Get(transfer.fields, "transferType", JNull);
        if transferType == JStr("transfer") || transferType == JStr("mintTo") {
          output := JStr(token);
        } else if transferType == JStr("burn") {
          output := JStr(token);
        }
      } else {
        input := mint;
      }
    }
    assert transfers[..|transfers|] == transfers;
    d := Decide(input, output, token);
  }

  // ---------------------------------------------------------------------------
  // Lemmas
  // ---------------------------------------------------------------------------

  /** Last one wins: `input_token` ends as the mint of the last input leg. */
  lemma {:induction false} LastInputLegIsLast(transfers: seq<Json>, token: string, i: nat)
    requires i < |transfers| && IsInputLeg(transfers[i], token)
    requires forall j :: i < j < |transfers| ==> !IsInputLeg(transfers[j], token)
    ensures LastInputLeg(transfers, token) == Mint(transfers[i])
    decreases |transfers|
  {
    if i < |transfers| - 1 {
      var init := transfers[..|transfers| - 1];
      LastInputLegIsLast(init, token, i);
    }
  }

  /** Without any input leg, `input_token` stays None. */
  lemma {:induction false} LastInputLegAbsent(transfers: seq<Json>, token: string)
    requires forall j :: 0 <= j < |transfers| ==> !IsInputLeg(transfers[j], token)
    ensures LastInputLeg(transfers, token) == JNull
    decreases |transfers|
  {
    if transfers != [] {
      LastInputLegAbsent(transfers[..|transfers| - 1], token);
    }
  }

  /** A record is classified as a buy exactly when its transfer list passes the
      guards, some transfer is an output leg, and the LAST input leg has a
      truthy mint (an earlier input leg does not count). */
  lemma BuyExactly(tx: Json, token: string)
    ensures SwapDirection(tx, token) == Some(Buy) <==>
      TransferList(tx).Some? &&
      (var transfers := TransferList(tx).value;
       (exists i :: 0 <= i < |transfers| && IsOutputLeg(transfers[i], token)) &&
       (exists i :: 0 <= i < |transfers| && IsInputLeg(transfers[i], token) && Truthy(Mint(transfers[i])) &&
          forall j :: i < j < |transfers| ==> !IsInputLeg(transfers[j], token)))
  {
    if TransferList(tx).Some? {
      var transfers := TransferList(tx).value;
      if exists i :: 0 <= i < |transfers| && IsInputLeg(transfers[i], token) {
        var i := LastInputIndex(transfers, token);
        LastInputLegIsLast(transfers, token, i);
        forall i' | 0 <= i' < |transfers| && IsInputLeg(transfers[i'], token) &&
            forall j :: i' < j < |transfers| ==> !IsInputLeg(transfers[j], token)
          ensures i' == i
        {
        }
      } else {
        LastInputLegAbsent(transfers, token);
      }
    }
  }

  /** The position of the last input leg, when there is one. */
  lemma LastInputIndex(transfers: seq<Json>, token: string) returns (i: nat)
    requires exists k :: 0 <= k < |transfers| && IsInputLeg(transfers[k], token)
    ensures i < |transfers| && IsInputLeg(transfers[i], token)
    ensures forall j :: i < j < |transfers| ==> !IsInputLeg(transfers[j], token)
  {
    var k :| 0 <= k < |transfers| && IsInputLeg(transfers[k], token);
    i := k;
    while i + 1 < |transfers| && exists j :: i < j < |transfers| && IsInputLeg(transfers[j], token)
      invariant i < |transfers| && IsInputLeg(transfers[i], token)
      decreases |transfers| - i
    {
      var j :| i < j < |transfers| && IsInputLeg(transfers[j], token);
      i := j;
    }
  }
}
