/**
 * Fragments, lines and the greedy packing of runs into lines of a fixed width
 * (WebKitBlockBase.Fragment, WebKitBlockBase.Line and the loop of buildLines).
 */
module LinePacking {
  import opened Wrappers
  import opened TextRuns
  import opened BreakSearch

  /** The span [fromPos, toPos) of one run. */
  datatype Fragment = Fragment(run: Run, fromPos: int, toPos: int) {
    predicate Valid() {
      0 <= fromPos <= toPos <= |run.text|
    }

    /** Fragment.text(): the characters of the run that the fragment covers. */
    function Text(): string
      requires Valid()
    {
      run.text[fromPos..toPos]
    }
  }

  /** The IllegalArgumentException cases of the Fragment constructor. */
  datatype FragmentError = NegativePosition | BoundsReversed | PastEndOfRun

  /** The Fragment constructor with its argument checks, in the order the source makes them. */
  function NewFragment(run: Run, fromPos: int, toPos: int): (r: Result<Fragment, FragmentError>)
    ensures r.Success? <==> 0 <= fromPos <= toPos <= |run.text|
    ensures r.Success? ==> r.value.Valid() && r.value.run == run && r.value.Text() == run.text[fromPos..toPos]
    ensures r == Failure(NegativePosition) <==> fromPos < 0 || toPos < 0
    ensures r == Failure(BoundsReversed) <==> 0 <= toPos < fromPos
    ensures r == Failure(PastEndOfRun) <==> 0 <= fromPos <= toPos && toPos > |run.text|
  {
    if fromPos < 0 || toPos < 0 then Failure(NegativePosition)
    else if fromPos > toPos then Failure(BoundsReversed)
    else if toPos > |run.text| then Failure(PastEndOfRun)
    else Success(Fragment(run, fromPos, toPos))
  }

  predicate AllValid(fs: seq<Fragment>) {
    forall i :: 0 <= i < |fs| ==> fs[i].Valid()
  }

  /** The concatenated text of a sequence of fragments. */
  function FragmentsText(fs: seq<Fragment>): string
    requires AllValid(fs)
  {
    if fs == [] then "" else FragmentsText(fs[..|fs| - 1]) + fs[|fs| - 1].Text()
  }

  /** One packed line: its fragments and the text built from them. */
  datatype Line = Line(fragments: seq<Fragment>, text: string)

  /** The Line a list of fragments makes. */
  function MakeLine(fs: seq<Fragment>): Line
    requires AllValid(fs)
  {
    Line(fs, FragmentsText(fs))
  }

  /** The Line constructor: appends the text of every fragment, in order. */
  method NewLine(fragments: seq<Fragment>) returns (line: Line)
    requires AllValid(fragments)
    ensures line.fragments == fragments
    ensures line.text == FragmentsText(fragments)
  {
    var b := "";
    for i := 0 to |fragments|
      invariant b == FragmentsText(fragments[..i])
    {
      assert fragments[..i + 1][..i] == fragments[..i];
      b := b + fragments[i].Text();
    }
    assert fragments[..|fragments|] == fragments;
    line := Line(fragments, b);
  }

  /** The concatenated text of a sequence of lines. */
  function LinesText(ls: seq<Line>): string {
    if ls == [] then "" else LinesText(ls[..|ls| - 1]) + ls[|ls| - 1].text
  }

  /** The concatenated text of a sequence of runs. */
  function RunsText(runs: seq<Run>): string {
    if runs == [] then "" else RunsText(runs[..|runs| - 1]) + runs[|runs| - 1].text
  }

  /** A fragment that covers at least one character of its run. */
  predicate GoodFragment(f: Fragment) {
    f.Valid() && f.fromPos < f.toPos
  }

  predicate AllGood(fs: seq<Fragment>) {
    forall i :: 0 <= i < |fs| ==> GoodFragment(fs[i])
  }

  /** A line has at least one fragment, none of them empty, and its text fits the width. */
  predicate GoodLine(l: Line, width: int) {
    && |l.fragments| > 0
    && AllGood(l.fragments)
    && l.text == FragmentsText(l.fragments)
    && |l.text| <= width
  }

  /** The local variables of buildLines: emitted lines, fragments of the open line, spaceLeft, continueFrom. */
  datatype PackState = PackState(lines: seq<Line>, fragments: seq<Fragment>, spaceLeft: int, continueFrom: int)

  /**
   * The invariant of the packing loop: spaceLeft stays within [0, width], every emitted line is
   * good, and the open line's fragments are non-empty and hold exactly width - spaceLeft characters.
   */
  predicate Inv(st: PackState, width: int) {
    && 0 <= st.spaceLeft <= width
    && (forall i :: 0 <= i < |st.lines| ==> GoodLine(st.lines[i], width))
    && AllGood(st.fragments)
    && |FragmentsText(st.fragments)| == width - st.spaceLeft
  }

  /** The text placed so far: the emitted lines followed by the open line. */
  function StateText(st: PackState): string
    requires AllValid(st.fragments)
  {
    LinesText(st.lines) + FragmentsText(st.fragments)
  }

  lemma {:induction false} FragmentsTextLength(fs: seq<Fragment>)
    requires AllGood(fs)
    ensures |FragmentsText(fs)| >= |fs|
  {
    if fs != [] {
      FragmentsTextLength(fs[..|fs| - 1]);
    }
  }

  /** The open line has no fragments exactly when none of its width is used. */
  lemma FragmentsEmptyIffLineEmpty(st: PackState, width: int)
    requires Inv(st, width)
    ensures st.fragments == [] <==> st.spaceLeft == width
  {
    FragmentsTextLength(st.fragments);
  }

  lemma FragmentsTextAppend(fs: seq<Fragment>, f: Fragment)
    requires AllValid(fs) && f.Valid()
    ensures AllValid(fs + [f]) && FragmentsText(fs + [f]) == FragmentsText(fs) + f.Text()
  {
    assert (fs + [f])[..|fs|] == fs;
  }

  lemma LinesTextAppend(ls: seq<Line>, l: Line)
    ensures LinesText(ls + [l]) == LinesText(ls) + l.text
  {
    assert (ls + [l])[..|ls|] == ls;
  }

  /** A named step of PackRunFrom: stated inline, the step makes the solver search far longer. */
  lemma AppendAssoc(a: string, b: string, c: string)
    ensures (a + b) + c == a + (b + c)
  {
  }

  /** A named step of PackRunFrom: the rest of a run is the part placed now and the part after it. */
  lemma SliceSplit(s: string, i: int, j: int)
    requires 0 <= i <= j <= |s|
    ensures s[i..] == s[i..j] + s[j..]
  {
  }

  /** Appending a good line to the emitted lines keeps them good and appends its text. */
  lemma EmitLine(st: PackState, width: int, line: Line)
    requires Inv(st, width) && GoodLine(line, width)
    ensures forall i :: 0 <= i < |st.lines + [line]| ==> GoodLine((st.lines + [line])[i], width)
    ensures LinesText(st.lines + [line]) == LinesText(st.lines) + line.text
  {
    LinesTextAppend(st.lines, line);
  }

  /** The line of one full-width fragment is good and holds that slice of the run. */
  lemma FullLineText(r: Run, width: int, cf: int)
    requires width > 0 && 0 <= cf && cf + width <= |r.text|
    ensures GoodLine(MakeLine([Fragment(r, cf, cf + width)]), width)
    ensures MakeLine([Fragment(r, cf, cf + width)]).text == r.text[cf..cf + width]
  {
    FragmentsTextSingle(Fragment(r, cf, cf + width));
  }

  /** Emits the open line and starts an empty one (the flushes of buildLines). */
  function Flush(st: PackState, width: int): (st': PackState)
    requires Inv(st, width) && st.spaceLeft < width
    ensures Inv(st', width) && st'.spaceLeft == width && st'.continueFrom == st.continueFrom
    ensures StateText(st') == StateText(st)
  {
    FragmentsEmptyIffLineEmpty(st, width);
    LinesTextAppend(st.lines, MakeLine(st.fragments));
    PackState(st.lines + [MakeLine(st.fragments)], [], width, st.continueFrom)
  }

  /** Puts r.text[continueFrom..toPos) on the open line and continues from toPos. */
  function Place(r: Run, width: int, st: PackState, toPos: int): (st': PackState)
    requires Inv(st, width)
    requires 0 <= st.continueFrom < toPos <= |r.text| && toPos - st.continueFrom <= st.spaceLeft
    ensures Inv(st', width) && st'.continueFrom == toPos
    ensures StateText(st') == StateText(st) + r.text[st.continueFrom..toPos]
  {
    var f := Fragment(r, st.continueFrom, toPos);
    FragmentsTextAppend(st.fragments, f);
    PackState(st.lines, st.fragments + [f], st.spaceLeft - (toPos - st.continueFrom), toPos)
  }

  /** Emits r.text[continueFrom..continueFrom + width) as a line of its own, the open line being empty. */
  function CutFullLine(r: Run, width: int, st: PackState): (st': PackState)
    requires Inv(st, width) && st.spaceLeft == width
    requires 0 <= st.continueFrom && st.continueFrom + width <= |r.text|
    requires width > 0
    ensures Inv(st', width) && st'.spaceLeft == width && st'.continueFrom == st.continueFrom + width
    ensures StateText(st') == StateText(st) + r.text[st.continueFrom..st.continueFrom + width]
  {
    var cf := st.continueFrom;
    var line := MakeLine([Fragment(r, cf, cf + width)]);
    FullLineText(r, width, cf);
    EmitLine(st, width, line);
    FragmentsEmptyIffLineEmpty(st, width);
    assert FragmentsText(st.fragments) == [];
    var st' := PackState(st.lines + [line], st.fragments, st.spaceLeft, cf + width);
    var done := LinesText(st.lines);
    assert StateText(st) == done by {
      assert done + [] == done;
    }
    assert StateText(st') == done + line.text by {
      assert (done + line.text) + [] == done + line.text;
    }
    st'
  }

  /**
   * One iteration of the while loop of buildLines on run r at st.continueFrom. It keeps the
   * invariant, moves exactly the characters r.text[continueFrom..continueFrom'] into the
   * output, and either advances or flushes a line that had something on it.
   */
  function Step(r: Run, breaks: seq<int>, width: int, st: PackState): (st': PackState)
    requires width > 0 && StrictlyIncreasing(breaks) && Inv(st, width)
    requires 0 <= st.continueFrom < |r.text|
    ensures Inv(st', width)
    ensures st.continueFrom <= st'.continueFrom <= |r.text|
    ensures st'.continueFrom == st.continueFrom ==> st.spaceLeft != width && st'.spaceLeft == width
    ensures StateText(st') == StateText(st) + r.text[st.continueFrom..st'.continueFrom]
  {
    var len, cf, spaceLeft := |r.text|, st.continueFrom, st.spaceLeft;
    if spaceLeft == 0 then
      // no space left at all: emit the open line and start a new one
      Flush(st, width)
    else if len - cf <= spaceLeft then
      // the rest of the run fits on the open line
      Place(r, width, st, len)
    else if |breaks| == 0 then
      // a run without breaks is cut after exactly spaceLeft characters
      Place(r, width, st, cf + spaceLeft)
    else
      BreakStep(r, breaks, width, st)
  }

  /** The part of Step for a run with breaks that does not fit in the space left. */
  function BreakStep(r: Run, breaks: seq<int>, width: int, st: PackState): (st': PackState)
    requires width > 0 && StrictlyIncreasing(breaks) && |breaks| > 0 && Inv(st, width)
    requires 0 <= st.continueFrom && 0 < st.spaceLeft < |r.text| - st.continueFrom
    ensures Inv(st', width)
    ensures st.continueFrom <= st'.continueFrom <= |r.text|
    ensures st'.continueFrom == st.continueFrom ==> st.spaceLeft != width && st'.spaceLeft == width
    ensures StateText(st') == StateText(st) + r.text[st.continueFrom..st'.continueFrom]
  {
    var cf, spaceLeft := st.continueFrom, st.spaceLeft;
    var newBreak := NextBreak(breaks, cf, spaceLeft);
    NextBreakIsLargestFitting(breaks, cf, spaceLeft);
    if newBreak < 0 then
      if spaceLeft == width then
        // nothing fits on an empty line: force a cut of a full line
        CutFullLine(r, width, st)
      else
        // nothing more fits on this line: emit it and retry on a fresh one
        Flush(st, width)
    else
      Place(r, width, st, newBreak)
  }

  /** The while loop of buildLines over one run, from st.continueFrom to the end of the run. */
  function PackRunFrom(r: Run, breaks: seq<int>, width: int, st: PackState): (st': PackState)
    requires width > 0 && StrictlyIncreasing(breaks) && Inv(st, width)
    requires 0 <= st.continueFrom <= |r.text|
    ensures Inv(st', width) && st'.continueFrom == |r.text|
    ensures StateText(st') == StateText(st) + r.text[st.continueFrom..]
    decreases |r.text| - st.continueFrom, if st.spaceLeft == width then 0 else 1
  {
    if st.continueFrom < |r.text| then
      var next := Step(r, breaks, width, st);
      var res := PackRunFrom(r, breaks, width, next);
      SliceSplit(r.text, st.continueFrom, next.continueFrom);
      AppendAssoc(StateText(st), r.text[st.continueFrom..next.continueFrom], r.text[next.continueFrom..]);
      res
    else
      assert r.text[st.continueFrom..] == [];
      assert StateText(st) + [] == StateText(st);
      st
  }

  /** The for loop of buildLines over the runs, before the last open line is flushed. */
  function PackRuns(runs: seq<Run>, width: int): (st: PackState)
    requires width > 0
    ensures Inv(st, width)
    ensures StateText(st) == RunsText(runs)
  {
    if runs == [] then PackState([], [], width, 0)
    else
      var prev := PackRuns(runs[..|runs| - 1], width);
      var r := runs[|runs| - 1];
      assert r.text[0..] == r.text;
      PackRunFrom(r, Breaks(r.text), width, prev.(continueFrom := 0))
  }

  /** Packing one more run continues from the state the previous runs left, at the run's start. */
  lemma PackRunsAppend(runs: seq<Run>, k: int, width: int)
    requires 0 <= k < |runs| && width > 0
    ensures PackRuns(runs[..k + 1], width)
         == PackRunFrom(runs[k], Breaks(runs[k].text), width, PackRuns(runs[..k], width).(continueFrom := 0))
  {
    assert runs[..k + 1][..k] == runs[..k];
  }

  /**
   * The lines buildLines produces from runs at the given width: every line fits the width and
   * has non-empty fragments, and together the lines hold exactly the text of the runs, in order.
   */
  function Pack(runs: seq<Run>, width: int): (lines: seq<Line>)
    requires width > 0
    ensures forall i :: 0 <= i < |lines| ==> GoodLine(lines[i], width)
    ensures LinesText(lines) == RunsText(runs)
  {
    var st := PackRuns(runs, width);
    FragmentsEmptyIffLineEmpty(st, width);
    if st.fragments != [] then
      LinesTextAppend(st.lines, MakeLine(st.fragments));
      st.lines + [MakeLine(st.fragments)]
    else st.lines
  }

  /** The first step on a 19-character run with breaks [4, 10, 16] at width 10 cuts at break 10. */
  lemma SampleFirstStep(t: string)
    requires |t| == 19 && Breaks(t) == [4, 10, 16]
    ensures Step(Run(t), Breaks(t), 10, PackState([], [], 10, 0)) == PackState([], [Fragment(Run(t), 0, 10)], 0, 10)
  {
    var bs := Breaks(t);
    assert ScanLeft(bs, 0, 0) == 0;
    assert NextBreak(bs, 0, 10) == 10;
  }

  /** After the first step: a flush, then the rest of the run fits on the fresh line. */
  lemma SampleRemainingSteps(t: string)
    requires |t| == 19 && Breaks(t) == [4, 10, 16]
    ensures var r := Run(t);
      var f1 := Fragment(r, 0, 10);
      PackRunFrom(r, Breaks(t), 10, PackState([], [f1], 0, 10))
        == PackState([MakeLine([f1])], [Fragment(r, 10, 19)], 1, 19)
  {
    var r := Run(t);
    var bs := Breaks(t);
    var f1, f2 := Fragment(r, 0, 10), Fragment(r, 10, 19);
    var st2 := PackState([MakeLine([f1])], [], 10, 10);
    var st3 := PackState([MakeLine([f1])], [f2], 1, 19);
    assert [f1][..0] == [] && [f2][..0] == [];
    assert |FragmentsText([f1])| == 10 && |FragmentsText([f2])| == 9;
    assert GoodLine(MakeLine([f1]), 10);
    var st1 := PackState([], [f1], 0, 10);
    assert Step(r, bs, 10, st1) == Flush(st1, 10) == st2;
    assert Step(r, bs, 10, st2) == Place(r, 10, st2, 19) == st3;
    assert PackRunFrom(r, bs, 10, st3) == st3;
    assert PackRunFrom(r, bs, 10, st2) == PackRunFrom(r, bs, 10, st3);
    assert PackRunFrom(r, bs, 10, st1) == PackRunFrom(r, bs, 10, st2);
  }

  /** The packer on a 19-character run with breaks [4, 10, 16] at width 10, before the last flush. */
  lemma SampleSteps(t: string)
    requires |t| == 19 && Breaks(t) == [4, 10, 16]
    ensures var r := Run(t);
      PackRuns([r], 10) == PackState([MakeLine([Fragment(r, 0, 10)])], [Fragment(r, 10, 19)], 1, 19)
  {
    SampleFirstStep(t);
    SampleRemainingSteps(t);
    assert [Run(t)][..0] == [];
  }

  /**
   * "The quick brown fox" at width 10 makes "The quick " and "brown fox": the space before
   * the break stays at the end of the earlier line.
   */
  lemma SampleSentenceAtWidthTen()
    ensures var lines := Pack([Run(SampleSentence)], 10);
      |lines| == 2 && lines[0].text == "The quick " && lines[1].text == "brown fox"
  {
    var t := SampleSentence;
    SampleSentenceBreaks();
    SampleSteps(t);
    SampleSentenceSlices();
    assert [Fragment(Run(t), 0, 10)][..0] == [] && [Fragment(Run(t), 10, 19)][..0] == [];
  }

  lemma FragmentsTextSingle(f: Fragment)
    requires f.Valid()
    ensures FragmentsText([f]) == f.Text()
  {
    assert [f][..0] == [];
  }

  /** The last steps on a 20-character run without breaks at width 8: a flush, then the last 4 characters. */
  lemma UnbreakableLastSteps(t: string)
    requires |t| == 20 && Breaks(t) == []
    ensures var r := Run(t);
      var l1 := MakeLine([Fragment(r, 0, 8)]);
      var st := PackState([l1], [Fragment(r, 8, 16)], 0, 16);
      && Inv(st, 8)
      && PackRunFrom(r, [], 8, st) == PackState([l1, MakeLine([Fragment(r, 8, 16)])], [Fragment(r, 16, 20)], 4, 20)
  {
    var r := Run(t);
    var f1, f2, f3 := Fragment(r, 0, 8), Fragment(r, 8, 16), Fragment(r, 16, 20);
    FragmentsTextSingle(f1);
    FragmentsTextSingle(f2);
    FragmentsTextSingle(f3);
    var l1, l2 := MakeLine([f1]), MakeLine([f2]);
    assert GoodLine(l1, 8) && GoodLine(l2, 8);
    var st5 := PackState([l1, l2], [f3], 4, 20);
    var st4 := PackState([l1, l2], [], 8, 16);
    var st3 := PackState([l1], [f2], 0, 16);
    assert Step(r, [], 8, st4) == st5;
    assert Step(r, [], 8, st3) == st4;
    assert PackRunFrom(r, [], 8, st5) == st5;
    assert PackRunFrom(r, [], 8, st4) == st5;
  }

  /** A 20-character run without breaks at width 8: two full cuts, then the rest. */
  lemma UnbreakableSteps(t: string)
    requires |t| == 20 && Breaks(t) == []
    ensures var r := Run(t);
      PackRuns([r], 8) == PackState([MakeLine([Fragment(r, 0, 8)]), MakeLine([Fragment(r, 8, 16)])], [Fragment(r, 16, 20)], 4, 20)
  {
    var r := Run(t);
    var f1, f2 := Fragment(r, 0, 8), Fragment(r, 8, 16);
    FragmentsTextSingle(f1);
    var l1 := MakeLine([f1]);
    assert GoodLine(l1, 8);
    var st3 := PackState([l1], [f2], 0, 16);
    var st2 := PackState([l1], [], 8, 8);
    var st1 := PackState([], [f1], 0, 8);
    UnbreakableLastSteps(t);
    assert Step(r, [], 8, st2) == st3;
    assert PackRunFrom(r, [], 8, st2) == PackRunFrom(r, [], 8, st3);
    assert PackRunFrom(r, [], 8, st1) == PackRunFrom(r, [], 8, st3);
    assert PackRunFrom(r, [], 8, PackState([], [], 8, 0)) == PackRunFrom(r, [], 8, st3);
    assert [r][..0] == [];
  }

  /** A 20-character run without breaks at width 8 is cut into lines of 8, 8 and 4 characters. */
  lemma UnbreakableRunAtWidthEight(t: string)
    requires |t| == 20 && Breaks(t) == []
    ensures var lines := Pack([Run(t)], 8);
      |lines| == 3 && lines[0].text == t[..8] && lines[1].text == t[8..16] && lines[2].text == t[16..]
  {
    var r := Run(t);
    UnbreakableSteps(t);
    FragmentsTextSingle(Fragment(r, 0, 8));
    FragmentsTextSingle(Fragment(r, 8, 16));
    FragmentsTextSingle(Fragment(r, 16, 20));
  }

  /** "supercalifragilistic" (20 characters, no space) at width 8 makes lines of 8, 8 and 4 characters. */
  lemma SampleWordAtWidthEight()
    ensures var lines := Pack([Run(SampleWord)], 8);
      |lines| == 3 && |lines[0].text| == 8 && |lines[1].text| == 8 && |lines[2].text| == 4
  {
    SampleWordHasNoBreaks();
    UnbreakableRunAtWidthEight(SampleWord);
  }
}
