/** The break search of WebKitBlockBase.findNextBreak. */
module BreakSearch {
  import opened TextRuns

  /**
   * The first loop of findNextBreak, continued from index left: it moves right while the
   * next break is still at or before continueFrom. breaks[0] itself is never examined.
   */
  function ScanLeft(breaks: seq<int>, continueFrom: int, left: nat): (l: nat)
    requires left == 0 || left < |breaks|
    ensures left <= l && (l == 0 || l < |breaks|)
    ensures l + 1 >= |breaks| || breaks[l + 1] > continueFrom
    ensures forall j :: left < j <= l ==> breaks[j] <= continueFrom
    decreases |breaks| - left
  {
    if left + 1 < |breaks| && breaks[left + 1] <= continueFrom then ScanLeft(breaks, continueFrom, left + 1)
    else left
  }

  /**
   * The second loop of findNextBreak, continued from index right: it moves left, but not
   * past left, while the break at right lies further than availableSpace from continueFrom.
   */
  function ScanRight(breaks: seq<int>, continueFrom: int, availableSpace: int, left: nat, right: int): (r: int)
    requires -1 <= right < |breaks|
    ensures r <= right && (r >= left || r == right)
    ensures r > left ==> breaks[r] - continueFrom <= availableSpace
    ensures forall j :: r < j <= right && left < j ==> breaks[j] - continueFrom > availableSpace
    decreases right - left
  {
    if right > left && breaks[right] - continueFrom > availableSpace then
      ScanRight(breaks, continueFrom, availableSpace, left, right - 1)
    else right
  }

  /** What findNextBreak returns: the break chosen by the two scans, or -1. */
  function NextBreak(breaks: seq<int>, continueFrom: int, availableSpace: int): int {
    var left := ScanLeft(breaks, continueFrom, 0);
    var right := ScanRight(breaks, continueFrom, availableSpace, left, |breaks| - 1);
    if right > left then breaks[right] else -1
  }

  /**
   * For increasing breaks, findNextBreak picks the largest break among breaks[1..] that lies
   * strictly after continueFrom and at most availableSpace beyond it, and -1 when there is none.
   */
  lemma NextBreakIsLargestFitting(breaks: seq<int>, continueFrom: int, availableSpace: int)
    requires StrictlyIncreasing(breaks) && continueFrom >= 0
    ensures var b := NextBreak(breaks, continueFrom, availableSpace);
      && (b == -1 <==> forall k :: 1 <= k < |breaks| && continueFrom < breaks[k] ==> breaks[k] > continueFrom + availableSpace)
      && (b != -1 ==> b in breaks[1..] && continueFrom < b <= continueFrom + availableSpace)
      && (b != -1 ==> forall k :: 1 <= k < |breaks| && breaks[k] <= continueFrom + availableSpace ==> breaks[k] <= b)
  {
    var left := ScanLeft(breaks, continueFrom, 0);
    var right := ScanRight(breaks, continueFrom, availableSpace, left, |breaks| - 1);
    // every break after index left lies strictly after continueFrom, every one from 1 to left does not
    assert forall k :: left < k < |breaks| ==> breaks[k] > continueFrom by {
      forall k | left < k < |breaks| ensures breaks[k] > continueFrom {
        if k > left + 1 { assert breaks[left + 1] < breaks[k]; }
      }
    }
    if right > left {
      assert breaks[right] == breaks[1..][right - 1];
    }
  }

  /** The first break is never chosen, even when it is the only one that fits. */
  lemma FirstBreakSkipped()
    ensures NextBreak([2, 12], 0, 5) == -1
  {
    assert ScanLeft([2, 12], 0, 0) == 0;
  }

  /** WebKitBlockBase.findNextBreak; wholeLen is accepted and unused, as in the source. */
  method FindNextBreak(breaks: seq<int>, continueFrom: int, wholeLen: int, availableSpace: int) returns (b: int)
    ensures b == NextBreak(breaks, continueFrom, availableSpace)
  {
    var left := 0;
    while left + 1 < |breaks| && breaks[left + 1] <= continueFrom
      invariant left == 0 || left < |breaks|
      invariant ScanLeft(breaks, continueFrom, left) == ScanLeft(breaks, continueFrom, 0)
      decreases |breaks| - left
    {
      left := left + 1;
    }
    var right := |breaks| - 1;
    while right > left && breaks[right] - continueFrom > availableSpace
      invariant -1 <= right < |breaks|
      invariant ScanRight(breaks, continueFrom, availableSpace, left, right)
             == ScanRight(breaks, continueFrom, availableSpace, left, |breaks| - 1)
      decreases right
    {
      right := right - 1;
    }
    b := if right > left then breaks[right] else -1;
  }
}
