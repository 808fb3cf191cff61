/** The block of WebKitBlockBase: its runs, the lines packed from them and its geometry. */
module WebKitBlockBase {
  import opened Wrappers
  import opened TextRuns
  import opened BreakSearch
  import opened LinePacking

  /** The IllegalStateException buildLines throws for a block without width. */
  datatype LayoutError = ZeroWidth

  class WebKitBlock {
    var runs: seq<Run>
    var lines: seq<Line>
    /** The geometry inherited from BlockGeom.Block. */
    var left: int
    var right: int
    var top: int
    var height: int

    /** BlockGeom.Block's left edge, right edge and top, as stored. */
    function GetLeft(): (l: int)
      reads this
      ensures l == left
    {
      left
    }

    function GetRight(): (r: int)
      reads this
      ensures r == right
    {
      right
    }

    function GetTop(): (t: int)
      reads this
      ensures t == top
    {
      top
    }

    /** The width available for the lines of the block: the distance from the left to the right edge. */
    function GetWidth(): (w: int)
      reads this
      ensures w == GetRight() - GetLeft()
      ensures w > 0 <==> left < right
    {
      right - left
    }

    /** The height of the block: its number of lines, whatever the height field holds. */
    function GetHeight(): (h: nat)
      reads this
      ensures h == |lines|
    {
      |lines|
    }

    /** The bottom of the block: the line after its last one. */
    function GetBottom(): (b: int)
      reads this
      ensures b == GetTop() + GetHeight()
      ensures b >= top
    {
      top + |lines|
    }

    /**
     * One pass of the while loop of buildLines: the lines it completes are appended to lines,
     * and the new open line, space left and position in the run are those Step computes.
     */
    method LayoutStep(r: Run, breaks: seq<int>, width: int,
                      fragments0: seq<Fragment>, spaceLeft0: int, continueFrom0: int)
      returns (fragments: seq<Fragment>, spaceLeft: int, continueFrom: int)
      requires width > 0 && StrictlyIncreasing(breaks)
      requires Inv(PackState(lines, fragments0, spaceLeft0, continueFrom0), width)
      requires 0 <= continueFrom0 < |r.text|
      modifies this`lines
      ensures PackState(lines, fragments, spaceLeft, continueFrom)
           == Step(r, breaks, width, PackState(old(lines), fragments0, spaceLeft0, continueFrom0))
    {
      ghost var st := PackState(lines, fragments0, spaceLeft0, continueFrom0);
      var len := |r.text|;
      fragments, spaceLeft, continueFrom := fragments0, spaceLeft0, continueFrom0;
      if spaceLeft == 0 {
        // no space left at all: a new line is needed
        var line := NewLine(fragments);
        lines := lines + [line];
        fragments := [];
        spaceLeft := width;
        assert PackState(lines, fragments, spaceLeft, continueFrom) == Flush(st, width);
      } else if len - continueFrom <= spaceLeft {
        // the entire remaining part of the run fits
        fragments := fragments + [Fragment(r, continueFrom, len)];
        spaceLeft := spaceLeft - (len - continueFrom);
        continueFrom := len;
        assert PackState(lines, fragments, spaceLeft, continueFrom) == Place(r, width, st, len);
      } else if |breaks| == 0 {
        fragments := fragments + [Fragment(r, continueFrom, continueFrom + spaceLeft)];
        continueFrom := continueFrom + spaceLeft;
        spaceLeft := 0;
        assert PackState(lines, fragments, spaceLeft, continueFrom) == Place(r, width, st, st.continueFrom + st.spaceLeft);
      } else {
        fragments, spaceLeft, continueFrom := LayoutBreakStep(r, breaks, width, fragments, spaceLeft, continueFrom);
      }
    }

    /** The branch of the while loop of buildLines that searches the breaks, as BreakStep. */
    method LayoutBreakStep(r: Run, breaks: seq<int>, width: int,
                           fragments0: seq<Fragment>, spaceLeft0: int, continueFrom0: int)
      returns (fragments: seq<Fragment>, spaceLeft: int, continueFrom: int)
      requires width > 0 && StrictlyIncreasing(breaks) && |breaks| > 0
      requires Inv(PackState(lines, fragments0, spaceLeft0, continueFrom0), width)
      requires 0 <= continueFrom0 && 0 < spaceLeft0 < |r.text| - continueFrom0
      modifies this`lines
      ensures PackState(lines, fragments, spaceLeft, continueFrom)
           == BreakStep(r, breaks, width, PackState(old(lines), fragments0, spaceLeft0, continueFrom0))
    {
      ghost var st := PackState(lines, fragments0, spaceLeft0, continueFrom0);
      fragments, spaceLeft, continueFrom := fragments0, spaceLeft0, continueFrom0;
      var newBreak := FindNextBreak(breaks, continueFrom, |r.text|, spaceLeft);
      if newBreak < 0 {
        // no room for breaking even at the closest break
        if spaceLeft == width {
          // where the source throws "having fragments without consumed space": never
          FragmentsEmptyIffLineEmpty(st, width);
          var line := NewLine([Fragment(r, continueFrom, continueFrom + spaceLeft)]);
          lines := lines + [line];
          continueFrom := continueFrom + spaceLeft;
          assert PackState(lines, fragments, spaceLeft, continueFrom) == CutFullLine(r, width, st);
        } else {
          var line := NewLine(fragments);
          lines := lines + [line];
          fragments := [];
          spaceLeft := width;
          assert PackState(lines, fragments, spaceLeft, continueFrom) == Flush(st, width);
        }
      } else {
        NextBreakIsLargestFitting(breaks, continueFrom, spaceLeft);
        fragments := fragments + [Fragment(r, continueFrom, newBreak)];
        spaceLeft := spaceLeft - (newBreak - continueFrom);
        continueFrom := newBreak;
        assert PackState(lines, fragments, spaceLeft, continueFrom) == Place(r, width, st, newBreak);
      }
    }

    /**
     * The while loop of buildLines over one run: the lines it completes are appended to lines,
     * and the open line and the space left on it are handed back, as PackRunFrom computes them.
     */
    method LayoutRun(r: Run, width: int, fragments0: seq<Fragment>, spaceLeft0: int)
      returns (fragments: seq<Fragment>, spaceLeft: int)
      requires width > 0 && Inv(PackState(lines, fragments0, spaceLeft0, 0), width)
      modifies this`lines
      ensures PackState(lines, fragments, spaceLeft, |r.text|)
           == PackRunFrom(r, Breaks(r.text), width, PackState(old(lines), fragments0, spaceLeft0, 0))
    {
      var breaks := GetBreaks(r);
      var continueFrom := 0;
      fragments, spaceLeft := fragments0, spaceLeft0;
      ghost var start := PackState(lines, fragments, spaceLeft, 0);
      while continueFrom < |r.text|
        invariant 0 <= continueFrom <= |r.text|
        invariant Inv(PackState(lines, fragments, spaceLeft, continueFrom), width)
        invariant PackRunFrom(r, breaks, width, PackState(lines, fragments, spaceLeft, continueFrom))
               == PackRunFrom(r, breaks, width, start)
        decreases |r.text| - continueFrom, if spaceLeft == width then 0 else 1
      {
        fragments, spaceLeft, continueFrom := LayoutStep(r, breaks, width, fragments, spaceLeft, continueFrom);
      }
    }

    /**
     * The for loop of buildLines over the runs, on a block whose lines were cleared (or that has
     * no runs): afterwards the lines, the open line and the space left are those of PackRuns.
     */
    method LayoutAllRuns(width: int) returns (fragments: seq<Fragment>, spaceLeft: int)
      requires width > 0 && (runs == [] || lines == [])
      modifies this`lines
      ensures runs == [] ==> lines == old(lines) && fragments == []
      ensures runs != [] ==> PackState(lines, fragments, spaceLeft, 0) == PackRuns(runs, width).(continueFrom := 0)
    {
      spaceLeft := width;
      fragments := [];
      assert runs[..0] == [];
      for k := 0 to |runs|
        invariant runs == [] ==> lines == old(lines) && fragments == []
        invariant runs != [] ==> PackState(lines, fragments, spaceLeft, 0) == PackRuns(runs[..k], width).(continueFrom := 0)
      {
        PackRunsAppend(runs, k, width);
        fragments, spaceLeft := LayoutRun(runs[k], width, fragments, spaceLeft);
      }
      assert runs[..|runs|] == runs;
    }

    /**
     * The for loop of buildLines over the runs and the flush of the last line, on a block whose
     * lines were cleared (or that has no runs): the lines become Pack(runs, width).
     */
    method LayoutRuns(width: int)
      requires width > 0 && (runs == [] || lines == [])
      modifies this`lines
      ensures lines == if runs == [] then old(lines) else Pack(runs, width)
    {
      var fragments, spaceLeft := LayoutAllRuns(width);
      if fragments != [] {
        var line := NewLine(fragments);
        lines := lines + [line];
      }
    }

    /** The loop of buildLines that clears the lines once per run: it clears them only if there is a run. */
    method ClearLinesPerRun()
      modifies this`lines
      ensures lines == if runs == [] then old(lines) else []
    {
      for i := 0 to |runs|
        invariant lines == if i == 0 then old(lines) else []
      {
        lines := [];
      }
    }

    /** The part of buildLines after the width check: the lines are packed and height counts them. */
    method LayoutLines(width: int)
      requires width > 0 && (runs == [] || lines == [])
      modifies this`lines, this`height
      ensures lines == if runs == [] then old(lines) else Pack(runs, width)
      ensures height == |lines|
    {
      LayoutRuns(width);
      height := |lines|;
    }

    /**
     * WebKitBlockBase.buildLines. Only lines and height change. The old lines are discarded
     * only when there is at least one run; a block without width fails after that; otherwise
     * the lines become Pack(runs, availableWidth) and height their number, so an empty run list
     * keeps the old lines. The ghost availableWidth is the local of buildLines, right - left.
     */
    method BuildLines() returns (outcome: Outcome<LayoutError>, ghost availableWidth: int)
      modifies this`lines, this`height
      ensures availableWidth == right - left
      ensures outcome.Fail? <==> availableWidth <= 0
      ensures outcome.Fail? ==> lines == (if runs == [] then old(lines) else []) && height == old(height)
      ensures outcome.Pass? ==> lines == (if runs == [] then old(lines) else Pack(runs, availableWidth))
      ensures outcome.Pass? ==> height == GetHeight()
    {
      ClearLinesPerRun();
      var width := right - left;
      availableWidth := width;
      if width <= 0 {
        return Fail(ZeroWidth), availableWidth;
      }
      LayoutLines(width);
      outcome := Pass;
    }
  }
}
