# Sandwich-attack detector for Solana tokens, modelled in Dafny

The Flask back-end of `solana-sandwich-alert` lists the recent transactions of a token through the Helius API, fetches the parsed detail of each one, and classifies it. A transaction is a *DEX interaction* when one of its instructions calls a configured DEX program. Its *swap direction* is "buy", "sell" or none. The back-end then slides a window of three consecutive DEX swaps over the list. It reports every buy-buy-sell and sell-sell-buy window whose two time gaps are at most 30 seconds.

This project models that pipeline in Dafny:

- `json_values.dfy` (module `JsonValues`): decoded JSON values and the Python operations the code applies to them. These are truthiness, `dict.get` with a default, `isinstance(x, (int, float))` and `abs` of a difference. `Outcome` says whether a Python call returns or raises.
- `swap_classifier.dfy` (`SwapClassifier`): `is_dex_interaction` as the function `IsDexInteraction`. `analyze_swap_direction` as the specification function `SwapDirection` and the loop method `ClassifyDirection`, which is proved equal to it.
- `pattern_matcher.dfy` (`PatternMatcher`): the filter comprehension of `detect_sandwich_patterns` (`DexSwaps`) and the window scan, as the loop method `ScanForSandwiches`. The method is proved equal to the specification `Sandwiches`, and lemmas state which windows are reported, in what order, and how many. `detect_sandwich_attacks` has its own copy of the scan; the model uses this one method for both.
- `transaction_batch.dfy` (`TransactionBatch`): the loop of `detect_sandwich_attacks`. It deduplicates signatures with `analyzed_signatures`, skips entries with no detail or a non-numeric timestamp, and builds `dex_transactions`. The method is proved equal to a specification built from the first occurrence of each signature.
- `analyze_endpoint.dfy` (`AnalyzeEndpoint`): the `/analyze` route. It resolves and clamps the lookback limit, checks the token address (after the limit), processes every listed entry, runs the pattern detection, and assembles `stats`.
- `scenarios.dfy` (`Scenarios`): concrete cases, including the 30-second boundary and two quirks of the classifier.

The Helius API is an input, the `Provider`: a listing function from (token, limit) to listing entries, and the raw response body of the parse request for each signature. A signature with no response stands for a request that raised. `DEX_PROGRAM_IDS`, `DEFAULT_LOOKBACK_LIMIT` and `MAX_LOOKBACK_LIMIT` are parameters (`Config`).

Python exceptions are modelled where the code lets them happen:

- In `is_dex_interaction`, `instruction.get` raises when an element of `instructions` is not a dict and comes before any DEX instruction. Iterating a non-empty string or dict yields strings, so `.get` raises on the first of them. `None`, a number or a bool is not iterable, so the `for` raises. An empty string or dict gives an empty loop and False.
- Subtracting a non-numeric timestamp raises in `detect_sandwich_patterns`. `analyze()` does not validate timestamps.
- In `analyze()` both become the 500 answer of the broad `except`. In `detect_sandwich_attacks` they end the call (`Crashed`).

The main results proved:

- `analyze_swap_direction` never returns "sell". `input_token` only ever holds a mint other than the target token, and the sell test needs it to equal the target token.
- Every buy-buy-sell or sell-sell-buy window needs a sell. So neither `analyze()` nor `detect_sandwich_attacks` can ever report a sandwich (`AnalyzeEndpoint.NoSandwichEverReported`, `TransactionBatch.AttacksNeverReported`).
- The pattern matcher itself behaves as documented. It reports exactly the windows of three consecutive DEX swaps whose absolute gaps are both at most 30 seconds (30 included) and whose directions are buy,buy,sell or sell,sell,buy. It reports them in window order, at most `len - 2` of them, and two neighbouring windows never both report.

## Model

| member | source | states |
|---|---|---|
| `SwapClassifier.ScanInstructions` | app.py:136-141 | the instruction loop returns True iff some instruction is DEX with only dicts before it; it raises iff a non-dict comes before any DEX instruction; it returns False iff all are dicts and none is DEX |
| `SwapClassifier.IsDexInteraction` | app.py:131-141 | a non-dict record, or a dict without `instructions`, gives False; True iff `instructions` is a list in which a DEX-program instruction appears with only dicts before it; it raises iff `instructions` is a list with a non-dict before any DEX instruction, a non-empty string or dict, or None, a number or a bool |
| `SwapClassifier.LastInputLeg` | app.py:163-190 | the value `input_token` ends with is never the target token |
| `SwapClassifier.SwapDirection` | app.py:143-200 | no direction when the record is not a dict, `successful` is falsy, or `tokenTransfers` is not a list; the result is never a sell |
| `SwapClassifier.ClassifyDirection` | app.py:143-200 | the transfer loop with `input_token`/`output_token` computes `SwapDirection` exactly, and only ever answers buy or none |
| `SwapClassifier.LastInputLegIsLast` | app.py:182-190 | last one wins: `input_token` is the mint of the last dict transfer whose mint is not the target |
| `SwapClassifier.LastInputLegAbsent` | app.py:163-190 | with no such transfer `input_token` stays None |
| `SwapClassifier.BuyExactly` | app.py:168-194 | "buy" iff the guards pass, some transfer moves a non-"0" amount of the target as transfer/mintTo/burn, and the last non-target transfer has a truthy mint |
| `PatternMatcher.DexSwaps` | app.py:396 | the filter keeps only records with `isDex` and a direction, keeps every such record, draws only from its input, and is no longer than it |
| `PatternMatcher.DexSwapsAppend` | app.py:396 | the filter distributes over concatenation, so it keeps input order |
| `PatternMatcher.WindowFinding` | app.py:399-428 | a window reports iff both absolute gaps are at most 30 and its directions are buy,buy,sell or sell,sell,buy; the finding holds the three consecutive records and the two gaps; its kind is buy-victim-sell iff buy,buy,sell, and sell-victim-buy iff sell,sell,buy |
| `PatternMatcher.ScanForSandwiches` | app.py:398-428 | the index loop raises iff there are at least three swaps and one has a non-numeric timestamp; otherwise it returns exactly `Sandwiches` |
| `PatternMatcher.DetectSandwichPatterns` | app.py:393-430 | filtering then scanning yields the findings of the filtered list, or raises as above |
| `PatternMatcher.NoAdjacentWindows` | app.py:410-428 | two neighbouring windows never both report |
| `PatternMatcher.WindowsBelowExact` | app.py:398-428 | the reporting centres are exactly the centres whose window reports; they are at least two apart, so strictly increasing; there are at most as many as centres |
| `PatternMatcher.SandwichesBelowMatch` | app.py:398-428 | the j-th finding is the finding of the j-th reporting window |
| `PatternMatcher.SandwichesExact` | app.py:398-428 | one finding per reporting window, in increasing window order; fewer than three swaps give none; there are at most `len(dex) - 2` |
| `PatternMatcher.SandwichesSound` | app.py:398-428 | every finding comes from a window of three consecutive swaps |
| `PatternMatcher.SandwichesComplete` | app.py:398-428 | every reporting window's finding is in the output |
| `PatternMatcher.FindingsReferToDexSwaps` | app.py:396-428 | every reported record has `isDex` and a direction and comes from the input |
| `PatternMatcher.NoSellNoSandwichesBelow` | app.py:410-428 | without a sell no window below k reports |
| `PatternMatcher.NoSellNoSandwiches` | app.py:410-428 | without a sell among the swaps nothing is reported |
| `TransactionBatch.FetchDetail` | app.py:91-103 | a detail is returned iff the signature was answered with a non-empty list whose first element is a dict, and it is that dict |
| `TransactionBatch.DetectSandwichAttacks` | app.py:202-304 | an empty listing ends the call; if processing a first occurrence raises, the call raises; otherwise it yields the records kept from the first occurrences and their sandwiches |
| `TransactionBatch.CollectDexTransactions` | app.py:212-246 | the deduplicating loop raises iff processing some first occurrence raises; otherwise `dex_transactions` is exactly the records kept from the first occurrences, in order |
| `TransactionBatch.ProcessEntry` | app.py:225-246 | the body for a new signature computes `AttackStep`: no detail or a falsy one, or a timestamp that is not a number, skips; a raising `is_dex_interaction` raises; a kept record carries the signature, the listed numeric timestamp, and the direction `analyze_swap_direction` gives the detail |
| `TransactionBatch.SignaturesExact` | app.py:218-223 | `analyzed_signatures` holds exactly the truthy signatures seen so far |
| `TransactionBatch.FirstOccurrencesDistinct` | app.py:217-223 | each processed entry has a truthy signature and comes from the listing; no two share a signature |
| `TransactionBatch.FirstOccurrenceProcessed` | app.py:217-223 | the first entry of each truthy signature is processed (first occurrence wins) |
| `TransactionBatch.FirstOccurrencesPrefix` | app.py:217-223 | the entries processed from a prefix of the listing are a prefix of those processed from all of it |
| `TransactionBatch.KeptInOrder` | app.py:236-241 | the appended records correspond one to one, in increasing position, to the appending steps |
| `TransactionBatch.KeptComplete` | app.py:236-241 | every appending step contributes its record |
| `TransactionBatch.DexTransactionsFacts` | app.py:217-246 | `dex_transactions` has distinct signatures; each record is the first occurrence of its signature, has a numeric timestamp, carries the truthy detail `fetch_transaction_details` returned for its signature, on which `is_dex_interaction` returned True, and the truthy direction `analyze_swap_direction` gives it |
| `TransactionBatch.FirstOccurrenceKept` | app.py:217-241 | the converse: a first occurrence whose fetched detail is truthy, whose timestamp is numeric, on which `is_dex_interaction` returns True and which has a direction, is in `dex_transactions` |
| `TransactionBatch.AttacksNeverReported` | app.py:252-304 | the inline scan of `detect_sandwich_attacks` never finds a sandwich |
| `AnalyzeEndpoint.ResolveLimit` | app.py:340-345 | an integer limit becomes the smaller of it and the maximum, with no lower bound; an absent one becomes the default; a non-numeric string is rejected; a value `int()` cannot take raises |
| `AnalyzeEndpoint.CountDex` | app.py:385 | the DEX count is at most the number of records, and equals it iff every record has `isDex` |
| `AnalyzeEndpoint.CountDexAppend` | app.py:385 | the count of a concatenation is the sum of the counts |
| `AnalyzeEndpoint.CountDexOne` | app.py:385 | one record counts 1 iff it has `isDex`, else 0; with `CountDexAppend` the count is the number of records with `isDex` |
| `AnalyzeEndpoint.AnalyzeResponse` | app.py:338-391 | the limit is checked before the token address: a bad limit gives "Invalid lookback limit" whatever the token; with a good limit, an absent or empty token gives "Token address is required"; a success echoes the given non-empty token |
| `AnalyzeEndpoint.ProcessTransactions` | app.py:353-373 | the loop raises iff some entry's step raises; otherwise it returns one record per entry with a truthy signature and a truthy detail, in listing order, with no deduplication |
| `AnalyzeEndpoint.Analyze` | app.py:336-391 | the route's loop and calls compute `AnalyzeResponse` exactly |
| `AnalyzeEndpoint.SuccessStats` | app.py:352-387 | `totalTransactions` is the listing length, `dexTransactions` counts records with `isDex`, `potentialAttacks` counts findings; records are at most the listing, DEX records at most the records |
| `AnalyzeEndpoint.ProcessedDirections` | app.py:357-373 | every processed record comes from a listing entry with a truthy signature; it carries the truthy detail fetched for that signature, `isDex` equal to what `is_dex_interaction` returned on it, and the direction `analyze_swap_direction` gives it, never a sell |
| `AnalyzeEndpoint.ProcessedComplete` | app.py:357-373 | the converse: every listing entry with a truthy signature and a truthy fetched detail, on which `is_dex_interaction` returns, is processed into a record |
| `AnalyzeEndpoint.NoSandwichEverReported` | app.py:376-387 | a successful answer never lists a sandwich and always counts 0 attacks |
| `AnalyzeEndpoint.EmptyListing` | app.py:352-387 | an empty or failed listing is a success with no records, no findings and zero counts |
| `Scenarios.CloseTripleReported` | app.py:403-418 | buy, buy, sell at 0, 5, 10 s gives one buy-victim-sell finding with gaps 5 and 5 |
| `Scenarios.DistantTripleIgnored` | app.py:406-407 | the same directions 40 s apart give nothing |
| `Scenarios.GapBoundary` | app.py:403-407 | a gap of exactly 30 s is reported, 31 s is not, and a gap going backwards in time counts by its absolute value |
| `Scenarios.EmptyTransfersNoDirection` | app.py:158-200 | an empty `tokenTransfers` gives no direction, so the record is not a DEX swap |
| `Scenarios.LimitClamped` | app.py:343 | 2000 with a maximum of 1000 becomes 1000; -5 stays -5 |
| `Scenarios.SellLooksLikeBuy` | app.py:173-194 | the target token sent away for SOL is still classified as a buy |
| `Scenarios.MintlessTransferResetsInput` | app.py:173-194 | a final transfer without a mint resets `input_token` to None, so a swap with an input leg earlier is not a buy |

## Left out

- The HTTP calls `fetch_transaction_details` and `fetch_token_transactions`, with `requests` and `time.sleep`. They are the `Provider` input. Only the validation of the parse response is modelled (`FetchDetail`). A failed listing is a listing function that returns [].
- Loading `.env` and `config.json`, and the module-level checks of the configuration. The configuration is the `Config` parameter. Of those checks, only `default_lookback_limit <= max_lookback_limit` is kept (`ValidConfig`).
- The Flask wiring: the app object, `index()`, `request.get_json()` (including a body that is not a JSON object) and `jsonify`. The three kinds of answer are the `Response` datatype.
- All `print` logging and the final report loop of `detect_sandwich_attacks`, which is output only. The model returns what that loop would print (`AttackReport`). That loop calls `datetime.fromtimestamp` (app.py:311) on the `datetime` module imported at app.py:1, which would raise AttributeError. It is unreachable only because no sandwich is ever found (`TransactionBatch.AttacksNeverReported`).
- Floating-point numbers: JSON numbers, timestamps and limits are integers. `int()` of a float, which truncates, is not modelled.
- Python's `int()` string parsing: the outcome is given as a `LimitArg`.
- Listing entries that are not dicts, and signatures that are not strings. The model's `Summary` has an optional string signature. A non-dict entry raises at `tx.get` (app.py:218, app.py:358). An empty list or dict signature is falsy and skipped (app.py:219, app.py:359). A non-empty list or dict signature is unhashable and raises at the set lookup in `detect_sandwich_attacks` (app.py:219). In `analyze()` a non-empty list is sliced for the log line (app.py:80) and sent in the request without raising. A non-empty dict raises at that slicing (app.py:80), which app.py:390-391 turns into a 500 answer.
- A `tokenAddress` that is a JSON value other than a string.
- The findings of `detect_sandwich_attacks` store signatures and the victim's timestamp, and those of `detect_sandwich_patterns` store the three records. The model's `Finding` holds the three records in both cases, and the stored values can be read from them.
- The records of `dex_transactions` have no `isDex` key in the source. The model gives them `isDex = true`, which is what got them into the list.

## Notes on the code

- app.py:87-89 and app.py:119-121 send each request once: there is no retry or back-off, and the fetches run one after another.
- app.py:343 has no lower bound: a zero or negative limit reaches the listing unchanged (`Scenarios.LimitClamped`).
- app.py:340-348 checks the limit before the token address, so a bad limit is reported even when the token is missing.
- app.py:357-373 neither deduplicates signatures nor checks timestamps. A non-numeric timestamp among three or more DEX swaps makes app.py:403 raise, and app.py:390-391 turns that into a 500 answer.
- app.py:225-232 fetches the detail before it checks the timestamp.
- app.py:182-190 only ever assigns `input_token` a mint other than the target, so the sell test of app.py:195 can never hold, and no sandwich is ever reported.
