/** Runs of text and their legal break points (WebKitBlockBase.Run). */
module TextRuns {

  /** java.lang.Character.isSpace: only these five characters; U+00A0 is not a space. */
  predicate IsSpace(c: char) {
    c == ' ' || c == '\t' || c == '\n' || c == '\U{C}' || c == '\r'
  }

  /** An immutable span of text fed to the line packer. */
  datatype Run = Run(text: string)

  /** Offset i is a break point: the character before it is a space and the one at it is not. */
  predicate IsBreakAt(text: string, i: int) {
    1 <= i < |text| && !IsSpace(text[i]) && IsSpace(text[i - 1])
  }

  predicate StrictlyIncreasing(s: seq<int>) {
    forall i, j :: 0 <= i < j < |s| ==> s[i] < s[j]
  }

  /** The break points of text that lie below n, in increasing order. */
  function BreaksBelow(text: string, n: nat): seq<int>
    requires n <= |text|
  {
    if n <= 1 then []
    else BreaksBelow(text, n - 1) + (if IsBreakAt(text, n - 1) then [n - 1] else [])
  }

  /** BreaksBelow lists every break point below n, and nothing else, in increasing order. */
  lemma {:induction false} BreaksBelowExactly(text: string, n: nat)
    requires n <= |text|
    ensures var bs := BreaksBelow(text, n);
      && StrictlyIncreasing(bs)
      && (forall k :: 0 <= k < |bs| ==> IsBreakAt(text, bs[k]) && bs[k] < n)
      && (forall i :: 0 <= i < n && IsBreakAt(text, i) ==> i in bs)
  {
    if n > 1 {
      var prev := BreaksBelow(text, n - 1);
      BreaksBelowExactly(text, n - 1);
      var last := if IsBreakAt(text, n - 1) then [n - 1] else [];
      var bs := prev + last;
      assert BreaksBelow(text, n) == bs;
      assert forall k :: 0 <= k < |prev| ==> bs[k] == prev[k];
      assert forall i :: 0 <= i < n - 1 && IsBreakAt(text, i) ==> i in prev;
      assert forall i :: 0 <= i < n && IsBreakAt(text, i) ==> i in prev || i == n - 1;
    }
  }

  /** All break points of text, in increasing order: what Run.getBreaks computes. */
  function Breaks(text: string): (bs: seq<int>)
    ensures StrictlyIncreasing(bs)
    ensures forall k :: 0 <= k < |bs| ==> IsBreakAt(text, bs[k])
    ensures forall i :: IsBreakAt(text, i) <==> i in bs
  {
    BreaksBelowExactly(text, |text|);
    BreaksBelow(text, |text|)
  }

  /** Run.getBreaks: scans every offset 1 <= i < |text| once. */
  method GetBreaks(r: Run) returns (breaks: seq<int>)
    ensures breaks == Breaks(r.text)
  {
    var res: seq<int> := [];
    var i := 1;
    while i < |r.text|
      invariant 1 <= i && (|r.text| == 0 || i <= |r.text|)
      invariant res == BreaksBelow(r.text, if |r.text| == 0 then 0 else i)
    {
      var ch, prevCh := r.text[i], r.text[i - 1];
      if !IsSpace(ch) && IsSpace(prevCh) {
        res := res + [i];
      }
      i := i + 1;
    }
    breaks := res;
  }

  /** A sample sentence of four words. */
  const SampleSentence: string := "The quick brown fox"

  /** The first ten characters of the sample sentence, "The quick ", hold one break point, at 4. */
  lemma SampleSentenceBreaksBelowTen()
    ensures BreaksBelow(SampleSentence, 10) == [4]
  {
    var t := SampleSentence;
    assert BreaksBelow(t, 2) == [];
    assert BreaksBelow(t, 3) == [];
    assert BreaksBelow(t, 4) == [];
    assert BreaksBelow(t, 5) == [4];
    assert BreaksBelow(t, 6) == [4];
    assert BreaksBelow(t, 7) == [4];
    assert BreaksBelow(t, 8) == [4];
    assert BreaksBelow(t, 9) == [4];
  }

  /** The break points of the sample sentence: the offsets of its second, third and fourth words. */
  lemma SampleSentenceBreaks()
    ensures Breaks(SampleSentence) == [4, 10, 16]
  {
    var t := SampleSentence;
    SampleSentenceBreaksBelowTen();
    assert BreaksBelow(t, 11) == [4, 10];
    assert BreaksBelow(t, 12) == [4, 10];
    assert BreaksBelow(t, 13) == [4, 10];
    assert BreaksBelow(t, 14) == [4, 10];
    assert BreaksBelow(t, 15) == [4, 10];
    assert BreaksBelow(t, 16) == [4, 10];
    assert BreaksBelow(t, 17) == [4, 10, 16];
    assert BreaksBelow(t, 18) == [4, 10, 16];
    assert BreaksBelow(t, 19) == [4, 10, 16];
  }

  lemma SampleSentenceSlices()
    ensures SampleSentence[0..10] == "The quick " && SampleSentence[10..19] == "brown fox"
  {
  }

  /** A text without spaces has no break points. */
  lemma NoSpaceNoBreaks(t: string)
    requires forall i :: 0 <= i < |t| ==> !IsSpace(t[i])
    ensures Breaks(t) == []
  {
    var bs := Breaks(t);
    assert !(|bs| > 0 && IsBreakAt(t, bs[0]));
  }

  /** A sample word of 20 letters. */
  const SampleWord: string := "supercalifragilistic"

  lemma SampleWordHasNoBreaks()
    ensures |SampleWord| == 20 && Breaks(SampleWord) == []
  {
    NoSpaceNoBreaks(SampleWord);
  }
}
