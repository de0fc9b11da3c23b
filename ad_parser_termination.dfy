/**
 * Why the pass bound of `AdParser.Run` does not change what `getUuids`
 * does. Every pass of the outer loop starts at an offset in
 * [0, |rec| - 3] and depends on nothing but that offset, so a run that is
 * still going after |rec| passes has started two passes at the same offset
 * and from then on repeats the same passes forever; a run that ends does so
 * with any larger bound as well.
 */
module AdParserTermination {
  import opened BtTypes
  import opened AdParser

  /** The loop runs `k` passes from `o`, each starting inside the loop bound and moving on. */
  predicate Live(rec: seq<JByte>, o: int, k: nat)
    decreases k
  {
    k == 0 || (0 <= o < |rec| - 2 && StepAt(rec, o).Advance? && Live(rec, StepAt(rec, o).next, k - 1))
  }

  /** The offset after `k` passes from `o` (while the passes move on). */
  function At(rec: seq<JByte>, o: int, k: nat): int
    decreases k
  {
    if k == 0 || !(0 <= o < |rec| - 2) then o
    else
      match StepAt(rec, o)
      case Advance(next, _) => At(rec, next, k - 1)
      case _ => o
  }

  /** A run that runs out of passes made every one of them. */
  lemma {:induction false} DivergesLive(rec: seq<JByte>, o: int, fuel: nat)
    requires Run(rec, o, fuel).Diverges?
    ensures Live(rec, o, fuel)
    decreases fuel
  {
    if fuel > 0 {
      var next := StepAt(rec, o).next;
      DivergesLive(rec, next, fuel - 1);
    }
  }

  /** Every pass of a live stretch starts inside the loop bound. */
  lemma {:induction false} LiveInBounds(rec: seq<JByte>, o: int, k: nat, j: nat)
    requires Live(rec, o, k) && j < k
    ensures 0 <= At(rec, o, j) < |rec| - 2
    decreases j
  {
    if j > 0 {
      LiveInBounds(rec, StepAt(rec, o).next, k - 1, j - 1);
    }
  }

  /** A live stretch of `i + m` passes is `i` passes followed by a live stretch of `m`. */
  lemma {:induction false} LiveSplit(rec: seq<JByte>, o: int, i: nat, m: nat)
    requires Live(rec, o, i + m)
    ensures Live(rec, At(rec, o, i), m)
    ensures At(rec, o, i + m) == At(rec, At(rec, o, i), m)
    decreases i
  {
    if i > 0 {
      LiveSplit(rec, StepAt(rec, o).next, i - 1, m);
    }
  }

  /** A pass that moves on leaves the question of running out of passes to the next offset. */
  lemma StepDiverges(rec: seq<JByte>, o: int, fuel: nat)
    requires Live(rec, o, 1) && 1 <= fuel
    ensures Run(rec, o, fuel).Diverges? <==> Run(rec, StepAt(rec, o).next, fuel - 1).Diverges?
  {
    var step := StepAt(rec, o);
    assert Run(rec, o, fuel) == Join(step.found, Run(rec, step.next, fuel - 1));
  }

  /** The first pass of a live stretch, and the stretch after it. */
  lemma LiveStep(rec: seq<JByte>, o: int, k: nat)
    requires Live(rec, o, k) && 1 <= k
    ensures Live(rec, o, 1) && Live(rec, StepAt(rec, o).next, k - 1)
    ensures At(rec, o, k) == At(rec, StepAt(rec, o).next, k - 1)
  {
  }

  /** Skipping a live stretch does not change whether the run runs out of passes. */
  lemma {:induction false} SkipLive(rec: seq<JByte>, o: int, k: nat, fuel: nat)
    requires Live(rec, o, k) && k <= fuel
    ensures Run(rec, o, fuel).Diverges? <==> Run(rec, At(rec, o, k), fuel - k).Diverges?
    decreases k
  {
    if k > 0 {
      var next := StepAt(rec, o).next;
      assert Live(rec, o, 1) && Live(rec, next, k - 1) && At(rec, o, k) == At(rec, next, k - 1) by {
        LiveStep(rec, o, k);
      }
      StepDiverges(rec, o, fuel);
      SkipLive(rec, next, k - 1, fuel - 1);
    }
  }

  /** A run that comes back to where it started never ends, whatever the bound. */
  lemma {:induction false} CycleDiverges(rec: seq<JByte>, o: int, p: nat, fuel: nat)
    requires 1 <= p && Live(rec, o, p) && At(rec, o, p) == o
    ensures Run(rec, o, fuel).Diverges?
    decreases fuel
  {
    if fuel < p {
      LiveCut(rec, o, fuel, p - fuel);
      SkipLive(rec, o, fuel, fuel);
      LiveInBounds(rec, o, p, fuel);
    } else {
      SkipLive(rec, o, p, fuel);
      CycleDiverges(rec, o, p, fuel - p);
    }
  }

  /** More than `n` values below `n` repeat one of them. */
  lemma {:induction false} Pigeonhole(s: seq<int>, n: nat)
    requires 1 <= n < |s|
    requires forall i :: 0 <= i < |s| ==> 0 <= s[i] < n
    ensures exists i, j :: 0 <= i < j < |s| && s[i] == s[j]
    decreases n
  {
    if n == 1 {
      assert s[0] == s[1];
    } else {
      var last := |s| - 1;
      var v := s[last];
      if exists i :: 0 <= i < last && s[i] == v {
        var i :| 0 <= i < last && s[i] == v;
        assert s[i] == s[last];
      } else {
        var t := seq(last, i requires 0 <= i < last => if s[i] > v then s[i] - 1 else s[i]);
        Pigeonhole(t, n - 1);
        var i, j :| 0 <= i < j < |t| && t[i] == t[j];
        assert s[i] != v && s[j] != v;
        assert s[i] == s[j];
      }
    }
  }

  /** A run out of passes after |rec| of them has started two of them at the same offset. */
  lemma RepeatsOffset(rec: seq<JByte>) returns (i: nat, j: nat)
    requires ParseUuids(rec).Diverges?
    ensures i < j < |rec| && Live(rec, 0, |rec|) && At(rec, 0, i) == At(rec, 0, j)
  {
    var n := |rec|;
    DivergesLive(rec, 0, n);
    var offsets := seq(n, k requires 0 <= k < n => At(rec, 0, k));
    forall k | 0 <= k < n ensures 0 <= offsets[k] < n - 2 {
      LiveInBounds(rec, 0, n, k);
    }
    Pigeonhole(offsets, n - 2);
    i, j :| 0 <= i < j < n && offsets[i] == offsets[j];
  }

  /** A run out of passes after |rec| of them goes on forever. */
  lemma DivergesForever(rec: seq<JByte>, fuel: nat)
    requires ParseUuids(rec).Diverges? && |rec| <= fuel
    ensures Run(rec, 0, fuel).Diverges?
  {
    var n := |rec|;
    var i, j := RepeatsOffset(rec);
    var o := At(rec, 0, i);
    LiveCut(rec, 0, j, n - j);
    LiveSplit(rec, 0, i, j - i);
    CycleDiverges(rec, o, j - i, fuel - i);
    LiveCut(rec, 0, i, j - i);
    SkipLive(rec, 0, i, fuel);
  }

  /** A live stretch is live on any shorter stretch. */
  lemma {:induction false} LiveCut(rec: seq<JByte>, o: int, k: nat, m: nat)
    requires Live(rec, o, k + m)
    ensures Live(rec, o, k)
    decreases k
  {
    if k > 0 {
      LiveCut(rec, StepAt(rec, o).next, k - 1, m);
    }
  }

  /** A run that ends within `fuel` passes ends the same way with any larger bound. */
  lemma {:induction false} FuelMonotone(rec: seq<JByte>, o: int, fuel: nat, more: nat)
    requires !Run(rec, o, fuel).Diverges? && fuel <= more
    ensures Run(rec, o, more) == Run(rec, o, fuel)
    decreases fuel
  {
    if 0 <= o < |rec| - 2 && fuel > 0 {
      match StepAt(rec, o)
      case Advance(next, found) =>
        FuelMonotone(rec, next, fuel - 1, more - 1);
      case Stop =>
      case Fault =>
    }
  }

  /**
   * `ParseUuids` is what the loop does with no bound at all: every bound of
   * |rec| passes or more gives the same outcome, so `Diverges` means the
   * loop never ends and any other outcome is the loop's own.
   */
  lemma ParseUuidsAnyBound(rec: seq<JByte>, fuel: nat)
    requires |rec| <= fuel
    ensures Run(rec, 0, fuel) == ParseUuids(rec)
  {
    if ParseUuids(rec).Diverges? {
      DivergesForever(rec, fuel);
    } else {
      FuelMonotone(rec, 0, |rec|, fuel);
    }
  }
}
