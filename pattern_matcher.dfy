/** The pattern matcher of app.py (`detect_sandwich_patterns`, and the same
    scan written inline in `detect_sandwich_attacks`): keep the DEX swaps,
    slide a window of three consecutive swaps over them, and report every
    buy-buy-sell and sell-sell-buy window whose two gaps are at most 30 seconds. */
module PatternMatcher {
  import opened JsonValues
  import opened SwapClassifier

  /** The largest gap, in seconds, between neighbours of a reported window. */
  const MaxGap: nat := 30

  /** One processed transaction: `{signature, timestamp, details, isDex, direction}`.
      The timestamp is whatever the listing gave, so it may be non-numeric. */
  datatype ClassifiedTx = ClassifiedTx(
    signature: string,
    timestamp: Json,
    isDex: bool,
    direction: Option<Direction>,
    details: Json)

  datatype Pattern = BuyVictimSell | SellVictimBuy

  /** One reported window: its three transactions and the two gaps. */
  datatype Finding = Finding(
    pattern: Pattern,
    leader: ClassifiedTx,
    victim: ClassifiedTx,
    trailer: ClassifiedTx,
    gapBefore: nat,
    gapAfter: nat)

  /** `t["isDex"] and t["direction"]`. */
  predicate IsDexSwap(t: ClassifiedTx) {
    t.isDex && t.direction.Some?
  }

  /** The list comprehension `[t for t in transactions if t["isDex"] and t["direction"]]`. */
  function DexSwaps(txs: seq<ClassifiedTx>): (r: seq<ClassifiedTx>)
    ensures forall k :: 0 <= k < |r| ==> IsDexSwap(r[k])
    ensures forall k :: 0 <= k < |txs| && IsDexSwap(txs[k]) ==> txs[k] in r
    ensures forall t :: t in r ==> t in txs
    ensures |r| <= |txs|
    decreases |txs|
  {
    if txs == [] then []
    else
      var rest := DexSwaps(txs[1..]);
      assert forall k :: 1 <= k < |txs| ==> txs[k] == txs[1..][k - 1];
      (if IsDexSwap(txs[0]) then [txs[0]] else []) + rest
  }

  /** The time of a transaction in arithmetic. */
  function Time(t: ClassifiedTx): int {
    NumValue(t.timestamp)
  }

  /** `abs(later["timestamp"] - earlier["timestamp"])`. */
  function Gap(earlier: ClassifiedTx, later: ClassifiedTx): nat {
    Abs(Time(later) - Time(earlier))
  }

  predicate Directions(a: ClassifiedTx, b: ClassifiedTx, c: ClassifiedTx, x: Direction, y: Direction, z: Direction) {
    a.direction == Some(x) && b.direction == Some(y) && c.direction == Some(z)
  }

  /** What the window centred on position i reports, if anything. */
  function WindowFinding(dex: seq<ClassifiedTx>, i: nat): (r: Option<Finding>)
    requires 1 <= i < |dex| - 1
    ensures r.Some? <==>
      Gap(dex[i - 1], dex[i]) <= MaxGap && Gap(dex[i], dex[i + 1]) <= MaxGap &&
      (Directions(dex[i - 1], dex[i], dex[i + 1], Buy, Buy, Sell) ||
       Directions(dex[i - 1], dex[i], dex[i + 1], Sell, Sell, Buy))
    ensures r.Some? ==>
      r.value.leader == dex[i - 1] && r.value.victim == dex[i] && r.value.trailer == dex[i + 1] &&
      r.value.gapBefore == Gap(dex[i - 1], dex[i]) <= MaxGap &&
      r.value.gapAfter == Gap(dex[i], dex[i + 1]) <= MaxGap
    ensures r.Some? ==>
      (r.value.pattern == BuyVictimSell <==> Directions(dex[i - 1], dex[i], dex[i + 1], Buy, Buy, Sell)) &&
      (r.value.pattern == SellVictimBuy <==> Directions(dex[i - 1], dex[i], dex[i + 1], Sell, Sell, Buy))
  {
    var prev, curr, next := dex[i - 1], dex[i], dex[i + 1];
    var before, after := Gap(prev, curr), Gap(curr, next);
    if before > MaxGap || after > MaxGap then None
    else if Directions(prev, curr, next, Buy, Buy, Sell) then Some(Finding(BuyVictimSell, prev, curr, next, before, after))
    else if Directions(prev, curr, next, Sell, Sell, Buy) then Some(Finding(SellVictimBuy, prev, curr, next, before, after))
    else None
  }

  /** The centres of the reporting windows among the centres 1 .. k-1, in increasing order. */
  function WindowsBelow(dex: seq<ClassifiedTx>, k: nat): seq<nat>
    requires k <= 1 || k < |dex|
    decreases k
  {
    if k <= 1 then []
    else WindowsBelow(dex, k - 1) + (if WindowFinding(dex, k - 1).Some? then [k - 1] else [])
  }

  /** The findings of the windows centred at 1 .. k-1, in window order. */
  function SandwichesBelow(dex: seq<ClassifiedTx>, k: nat): seq<Finding>
    requires k <= 1 || k < |dex|
    decreases k
  {
    if k <= 1 then []
    else
      SandwichesBelow(dex, k - 1) +
      (match WindowFinding(dex, k - 1)
       case Some(f) => [f]
       case None => [])
  }

  /** The centres of all reporting windows of the DEX sequence. */
  function Windows(dex: seq<ClassifiedTx>): seq<nat> {
    if |dex| < 3 then [] else WindowsBelow(dex, |dex| - 1)
  }

  /** The findings the scan reports for the DEX sequence `dex`. */
  function Sandwiches(dex: seq<ClassifiedTx>): seq<Finding> {
    if |dex| < 3 then [] else SandwichesBelow(dex, |dex| - 1)
  }

  /** The first n records of `dex` have numeric timestamps. */
  predicate NumericUpTo(dex: seq<ClassifiedTx>, n: nat)
    requires n <= |dex|
  {
    forall k :: 0 <= k < n ==> Numeric(dex[k].timestamp)
  }

  /** The sliding-window loop over the DEX sequence. The subtraction of two
      timestamps raises TypeError when one of them is not a number, so the scan
      raises exactly when there are at least three swaps and one of them has a
      non-numeric timestamp; otherwise it returns the findings in window order. */
  method ScanForSandwiches(dex: seq<ClassifiedTx>) returns (r: Outcome<seq<Finding>>)
    ensures r.Raised? <==> |dex| >= 3 && exists k :: 0 <= k < |dex| && !Numeric(dex[k].timestamp)
    ensures r.Returned? ==> r.value == Sandwiches(dex)
  {
    var found: seq<Finding> := [];
    var i := 1;
    while i < |dex| - 1
      invariant 1 <= i && (i == 1 || i < |dex|)
      invariant i > 1 ==> NumericUpTo(dex, i + 1)
      invariant found == SandwichesBelow(dex, i)
    {
      var prev, curr, next := dex[i - 1], dex[i], dex[i + 1];
      if !Numeric(curr.timestamp) || !Numeric(prev.timestamp) {
        return Raised;
      }
      var timeDiffPrev := Abs(NumValue(curr.timestamp) - NumValue(prev.timestamp));
      if !Numeric(next.timestamp) {
        return Raised;
      }
      var timeDiffNext := Abs(NumValue(next.timestamp) - NumValue(curr.timestamp));
      if timeDiffPrev > MaxGap || timeDiffNext > MaxGap {
        assert WindowFinding(dex, i).None?;
        i := i + 1;
        continue;
      }
      if prev.direction == Some(Buy) && curr.direction == Some(Buy) && next.direction == Some(Sell) {
        assert WindowFinding(dex, i) == Some(Finding(BuyVictimSell, prev, curr, next, timeDiffPrev, timeDiffNext));
        found := found + [Finding(BuyVictimSell, prev, curr, next, timeDiffPrev, timeDiffNext)];
      } else if prev.direction == Some(Sell) && curr.direction == Some(Sell) && next.direction == Some(Buy) {
        assert WindowFinding(dex, i) == Some(Finding(SellVictimBuy, prev, curr, next, timeDiffPrev, timeDiffNext));
        found := found + [Finding(SellVictimBuy, prev, curr, next, timeDiffPrev, timeDiffNext)];
      } else {
        assert WindowFinding(dex, i).None?;
      }
      i := i + 1;
    }
    r := Returned(found);
  }

  /** detect_sandwich_patterns: filter to the DEX swaps, then scan them. */
  method DetectSandwichPatterns(transactions: seq<ClassifiedTx>) returns (r: Outcome<seq<Finding>>)
    ensures var dex := DexSwaps(transactions);
      (r.Raised? <==> |dex| >= 3 && exists k :: 0 <= k < |dex| && !Numeric(dex[k].timestamp)) &&
      (r.Returned? ==> r.value == Sandwiches(dex))
  {
    var dex := DexSwaps(transactions);
    r := ScanForSandwiches(dex);
  }

  // ---------------------------------------------------------------------------
  // Lemmas
  // ---------------------------------------------------------------------------

  /** The filter keeps input order: it distributes over concatenation. */
  lemma {:induction false} DexSwapsAppend(a: seq<ClassifiedTx>, b: seq<ClassifiedTx>)
    ensures DexSwaps(a + b) == DexSwaps(a) + DexSwaps(b)
    decreases |a|
  {
    if a == [] {
      assert a + b == b;
    } else {
      assert (a + b)[1..] == a[1..] + b;
      DexSwapsAppend(a[1..], b);
    }
  }

  /** Two neighbouring windows never both report: a reporting window needs its
      first two directions equal and the third different. */
  lemma NoAdjacentWindows(dex: seq<ClassifiedTx>, i: nat)
    requires 1 <= i && i + 2 < |dex|
    ensures !(WindowFinding(dex, i).Some? && WindowFinding(dex, i + 1).Some?)
  {
  }

  /** The reporting centres below k: exactly the centres whose window reports,
      at least two apart (hence strictly increasing), and at most k - 1 of them. */
  lemma {:induction false} WindowsBelowExact(dex: seq<ClassifiedTx>, k: nat)
    requires k <= 1 || k < |dex|
    ensures forall i :: i in WindowsBelow(dex, k) <==> 1 <= i < k && WindowFinding(dex, i).Some?
    ensures forall j :: 0 <= j < |WindowsBelow(dex, k)| - 1 ==> WindowsBelow(dex, k)[j] + 2 <= WindowsBelow(dex, k)[j + 1]
    ensures |WindowsBelow(dex, k)| <= if k <= 1 then 0 else k - 1
    decreases k
  {
    if k > 1 {
      WindowsBelowExact(dex, k - 1);
      var w := WindowsBelow(dex, k - 1);
      var tail: seq<nat> := if WindowFinding(dex, k - 1).Some? then [k - 1] else [];
      assert WindowsBelow(dex, k) == w + tail;
      if tail != [] && w != [] {
        var last := w[|w| - 1];
        assert last in w;
        NoAdjacentWindows(dex, last);
        assert last + 2 <= k - 1;
      }
      forall j | 0 <= j < |w + tail| - 1
        ensures (w + tail)[j] + 2 <= (w + tail)[j + 1]
      {
        if j < |w| - 1 {
          assert (w + tail)[j] == w[j] && (w + tail)[j + 1] == w[j + 1];
        } else {
          assert (w + tail)[j] == w[|w| - 1] && (w + tail)[j + 1] == k - 1;
        }
      }
      forall i
        ensures i in w + tail <==> 1 <= i < k && WindowFinding(dex, i).Some?
      {
        assert i in w + tail <==> i in w || i in tail;
      }
    }
  }

  /** The j-th finding is the finding of the j-th reporting window. */
  lemma {:induction false} SandwichesBelowMatch(dex: seq<ClassifiedTx>, k: nat)
    requires k <= 1 || k < |dex|
    ensures |SandwichesBelow(dex, k)| == |WindowsBelow(dex, k)|
    ensures forall j :: 0 <= j < |WindowsBelow(dex, k)| ==>
      1 <= WindowsBelow(dex, k)[j] < |dex| - 1 &&
      WindowFinding(dex, WindowsBelow(dex, k)[j]) == Some(SandwichesBelow(dex, k)[j])
    decreases k
  {
    if k > 1 {
      SandwichesBelowMatch(dex, k - 1);
    }
  }

  /** What the scan reports, as a whole: one finding per reporting window, in
      increasing window order; a window reports iff its gaps are at most 30 s
      and its directions are buy,buy,sell or sell,sell,buy; fewer than three
      swaps report nothing, and there are at most |dex| - 2 findings. */
  lemma SandwichesExact(dex: seq<ClassifiedTx>)
    ensures |Sandwiches(dex)| == |Windows(dex)|
    ensures forall j :: 0 <= j < |Windows(dex)| ==>
      1 <= Windows(dex)[j] < |dex| - 1 && WindowFinding(dex, Windows(dex)[j]) == Some(Sandwiches(dex)[j])
    ensures forall i :: 1 <= i < |dex| - 1 ==> (i in Windows(dex) <==> WindowFinding(dex, i).Some?)
    ensures forall j :: 0 <= j < |Windows(dex)| - 1 ==> Windows(dex)[j] + 2 <= Windows(dex)[j + 1]
    ensures |dex| < 3 ==> Sandwiches(dex) == []
    ensures |dex| >= 3 ==> |Sandwiches(dex)| <= |dex| - 2
  {
    if |dex| >= 3 {
      assert Windows(dex) == WindowsBelow(dex, |dex| - 1);
      assert Sandwiches(dex) == SandwichesBelow(dex, |dex| - 1);
      WindowsBelowExact(dex, |dex| - 1);
      SandwichesBelowMatch(dex, |dex| - 1);
    }
  }

  /** Every finding is the finding of some window of three consecutive swaps. */
  lemma SandwichesSound(dex: seq<ClassifiedTx>, f: Finding)
    requires f in Sandwiches(dex)
    ensures exists i :: 1 <= i < |dex| - 1 && WindowFinding(dex, i) == Some(f)
  {
    SandwichesExact(dex);
    var j :| 0 <= j < |Sandwiches(dex)| && Sandwiches(dex)[j] == f;
    var i := Windows(dex)[j];
    assert WindowFinding(dex, i) == Some(f);
  }

  /** Every reporting window's finding is in the output. */
  lemma SandwichesComplete(dex: seq<ClassifiedTx>, i: nat)
    requires 1 <= i < |dex| - 1 && WindowFinding(dex, i).Some?
    ensures WindowFinding(dex, i).value in Sandwiches(dex)
  {
    SandwichesExact(dex);
    var j :| 0 <= j < |Windows(dex)| && Windows(dex)[j] == i;
    assert Sandwiches(dex)[j] == WindowFinding(dex, i).value;
  }

  /** A finding built from the DEX filter refers only to DEX swaps. */
  lemma FindingsReferToDexSwaps(txs: seq<ClassifiedTx>, f: Finding)
    requires f in Sandwiches(DexSwaps(txs))
    ensures IsDexSwap(f.leader) && IsDexSwap(f.victim) && IsDexSwap(f.trailer)
    ensures f.leader in txs && f.victim in txs && f.trailer in txs
  {
    SandwichesSound(DexSwaps(txs), f);
  }

  /** Without a sell among the swaps no window can report. */
  lemma {:induction false} NoSellNoSandwichesBelow(dex: seq<ClassifiedTx>, k: nat)
    requires k <= 1 || k < |dex|
    requires forall j :: 0 <= j < |dex| ==> dex[j].direction != Some(Sell)
    ensures SandwichesBelow(dex, k) == []
    decreases k
  {
    if k > 1 {
      NoSellNoSandwichesBelow(dex, k - 1);
      assert dex[k].direction != Some(Sell);
      assert WindowFinding(dex, k - 1).None?;
    }
  }

  /** Without a sell among the swaps the scan reports nothing. */
  lemma NoSellNoSandwiches(dex: seq<ClassifiedTx>)
    requires forall j :: 0 <= j < |dex| ==> dex[j].direction != Some(Sell)
    ensures Sandwiches(dex) == []
  {
    if |dex| >= 3 {
      NoSellNoSandwichesBelow(dex, |dex| - 1);
    }
  }
}
