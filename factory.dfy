/** How the document factory picks the filter for a file or a stream. */
module Factory {
  import opened Wrappers

  /** Factory.Format: the filters a document can be read with. */
  datatype Format =
    | Unrecognized
    | TextParaEmptyLine | TextParaIndent | TextParaEachLine
    | Html
    | Doc | DocX
    | Fb2
    | Epub
    | ZipText
    | Fb2Zip

  /** The IllegalArgumentException suggestFilterByExtension throws for an empty path. */
  datatype FactoryError = EmptyPath

  /** The characters String.trim strips: every character up to and including the space. */
  predicate IsBlank(c: char) { c <= ' ' }

  /** String.toLowerCase on one character, for the ASCII letters. */
  function LowerChar(c: char): (d: char)
    ensures IsBlank(c) <==> IsBlank(d)
    ensures 'A' <= c <= 'Z' ==> 'a' <= d <= 'z' && d as int - c as int == 'a' as int - 'A' as int
    ensures !('A' <= c <= 'Z') ==> d == c
  {
    if 'A' <= c <= 'Z' then (c as int - 'A' as int + 'a' as int) as char else c
  }

  /** String.toLowerCase, character by character. */
  function ToLower(s: string): (r: string)
    ensures |r| == |s|
    ensures forall i :: 0 <= i < |s| ==> r[i] == LowerChar(s[i])
  {
    if s == [] then [] else [LowerChar(s[0])] + ToLower(s[1..])
  }

  /** Lower-casing distributes over concatenation. */
  lemma {:induction false} ToLowerAppend(s: string, t: string)
    ensures ToLower(s + t) == ToLower(s) + ToLower(t)
  {
    if s == [] {
      assert s + t == t;
    } else {
      assert (s + t)[1..] == s[1..] + t;
      ToLowerAppend(s[1..], t);
    }
  }

  /** The first position at or after i that does not hold a blank (the forward scan of trim). */
  function SkipBlanks(s: string, i: nat): (n: nat)
    requires i <= |s|
    ensures i <= n <= |s|
    ensures forall k :: i <= k < n ==> IsBlank(s[k])
    ensures n == |s| || !IsBlank(s[n])
    decreases |s| - i
  {
    if i < |s| && IsBlank(s[i]) then SkipBlanks(s, i + 1) else i
  }

  /** The end, not below lo, of s[lo..j] without its trailing blanks (the backward scan of trim). */
  function SkipBlanksBack(s: string, lo: nat, j: nat): (n: nat)
    requires lo <= j <= |s|
    ensures lo <= n <= j
    ensures forall k :: n <= k < j ==> IsBlank(s[k])
    ensures n == lo || !IsBlank(s[n - 1])
  {
    if lo < j && IsBlank(s[j - 1]) then SkipBlanksBack(s, lo, j - 1) else j
  }

  /**
   * String.trim: the slice of s between its leading and its trailing blanks; it is empty exactly
   * when s is all blanks, and otherwise starts and ends with a character that is not blank.
   */
  function Trim(s: string): (r: string)
    ensures exists i, j :: 0 <= i <= j <= |s| && r == s[i..j] &&
              (forall k :: 0 <= k < i ==> IsBlank(s[k])) && (forall k :: j <= k < |s| ==> IsBlank(s[k]))
    ensures r == [] <==> forall k :: 0 <= k < |s| ==> IsBlank(s[k])
    ensures r == [] || (!IsBlank(r[0]) && !IsBlank(r[|r| - 1]))
  {
    var st := SkipBlanks(s, 0);
    var len := SkipBlanksBack(s, st, |s|);
    s[st..len]
  }

  /** Blanks around a string that neither starts nor ends with a blank are dropped by trimming. */
  lemma TrimPadded(lead: string, s: string, trail: string)
    requires forall k :: 0 <= k < |lead| ==> IsBlank(lead[k])
    requires forall k :: 0 <= k < |trail| ==> IsBlank(trail[k])
    requires s == [] || (!IsBlank(s[0]) && !IsBlank(s[|s| - 1]))
    ensures Trim(lead + s + trail) == s
  {
    var whole := lead + s + trail;
    var st := SkipBlanks(whole, 0);
    assert forall k :: 0 <= k < |lead| ==> whole[k] == lead[k];
    assert forall k :: |lead| + |s| <= k < |whole| ==> whole[k] == trail[k - |lead| - |s|];
    if s == [] {
      assert st == |whole|;
    } else {
      assert whole[|lead|] == s[0] && whole[|lead| + |s| - 1] == s[|s| - 1];
      assert st == |lead|;
      assert SkipBlanksBack(whole, st, |whole|) == |lead| + |s|;
    }
    assert whole[|lead|..|lead| + |s|] == s;
  }

  /** Two strings of blanks make a string of blanks. */
  lemma BlanksConcat(a: string, b: string)
    requires forall k :: 0 <= k < |a| ==> IsBlank(a[k])
    requires forall k :: 0 <= k < |b| ==> IsBlank(b[k])
    ensures forall k :: 0 <= k < |a + b| ==> IsBlank((a + b)[k])
  {
  }

  /** A string cut in three, with more added on both sides, regrouped around its middle. */
  lemma Regroup(lead: string, front: string, core: string, back: string, trail: string, s: string)
    requires 0 <= |front| <= |front| + |core| <= |s| && front == s[..|front|]
    requires core == s[|front|..|front| + |core|] && back == s[|front| + |core|..]
    ensures lead + s + trail == (lead + front) + core + (back + trail)
  {
    assert s == front + core + back;
  }

  /** Trimming ignores blanks added around any string. */
  lemma TrimIgnoresPadding(lead: string, s: string, trail: string)
    requires forall k :: 0 <= k < |lead| ==> IsBlank(lead[k])
    requires forall k :: 0 <= k < |trail| ==> IsBlank(trail[k])
    ensures Trim(lead + s + trail) == Trim(s)
  {
    var st := SkipBlanks(s, 0);
    var len := SkipBlanksBack(s, st, |s|);
    var core := s[st..len];
    assert Trim(s) == core;
    var front, back := s[..st], s[len..];
    assert forall k :: 0 <= k < |front| ==> IsBlank(front[k]);
    assert forall k :: 0 <= k < |back| ==> IsBlank(back[k]);
    BlanksConcat(lead, front);
    BlanksConcat(back, trail);
    Regroup(lead, front, core, back, trail, s);
    TrimPadded(lead + front, core, back + trail);
  }

  /** The extensions suggestFilterByExtension recognises for each format. */
  function Extensions(f: Format): set<string>
  {
    match f
    case Epub => {"epub"}
    case TextParaIndent => {"txt"}
    case Doc => {"doc"}
    case DocX => {"docx"}
    case Html => {"html", "htm"}
    case ZipText => {"zip"}
    case Fb2 => {"fb2"}
    case _ => {}
  }

  /** The content types chooseFilterByContentType recognises for each format. */
  function ContentTypes(f: Format): set<string>
  {
    match f
    case Html => {"text/html"}
    case Fb2 => {"application/fb2"}
    case Fb2Zip => {"application/fb2+zip"}
    case _ => {}
  }

  /** The switch of suggestFilterByExtension, on an extension already lower-cased. */
  function ExtensionFormat(ext: string): (f: Format)
    ensures f != Unrecognized ==> ext in Extensions(f)
    ensures f != Unrecognized <==> exists g :: ext in Extensions(g)
  {
    match ext
    case "epub" => Epub
    case "txt" => TextParaIndent
    case "doc" => Doc
    case "docx" => DocX
    case "html" => Html
    case "htm" => Html
    case "zip" => ZipText
    case "fb2" => Fb2
    case _ =>
      assert forall g :: ext !in Extensions(g);
      Unrecognized
  }

  /**
   * Factory.suggestFilterByExtension. getExtension stands for FileTypes.getExtension, None for
   * its null. An empty path is an error; otherwise the format is the one whose extensions hold
   * the lower-cased extension, and Unrecognized when there is no extension or no such format.
   */
  function SuggestFilterByExtension(path: string, getExtension: string -> Option<string>)
    : (r: Result<Format, FactoryError>)
    ensures r.Failure? <==> path == ""
    ensures path != "" && getExtension(path).None? ==> r == Success(Unrecognized)
    ensures path != "" && getExtension(path).Some? ==>
              r.Success? && (r.value != Unrecognized <==> exists g :: ToLower(getExtension(path).value) in Extensions(g))
    ensures r.Success? && r.value != Unrecognized ==>
              getExtension(path).Some? && ToLower(getExtension(path).value) in Extensions(r.value)
  {
    if path == "" then Failure(EmptyPath)
    else match getExtension(path)
      case None => Success(Unrecognized)
      case Some(ext) => Success(ExtensionFormat(ToLower(ext)))
  }

  /** The switch of chooseFilterByContentType, on a value already lower-cased and trimmed. */
  function ContentTypeFormat(key: string): (f: Format)
    ensures f != Unrecognized ==> key in ContentTypes(f)
    ensures f != Unrecognized <==> exists g :: key in ContentTypes(g)
  {
    match key
    case "text/html" => Html
    case "application/fb2" => Fb2
    case "application/fb2+zip" => Fb2Zip
    case _ =>
      assert forall g :: key !in ContentTypes(g);
      Unrecognized
  }

  /**
   * Factory.chooseFilterByContentType: the format whose content types hold the lower-cased,
   * trimmed value, and Unrecognized when there is none.
   */
  function ChooseFilterByContentType(contentType: string): (f: Format)
    ensures f != Unrecognized ==> Trim(ToLower(contentType)) in ContentTypes(f)
    ensures f != Unrecognized <==> exists g :: Trim(ToLower(contentType)) in ContentTypes(g)
  {
    ContentTypeFormat(Trim(ToLower(contentType)))
  }

  /** The extension table is case-insensitive: extensions equal but for case select one format. */
  lemma ExtensionCaseInsensitive(path: string, e1: string, e2: string, g1: string -> Option<string>,
                                 g2: string -> Option<string>)
    requires path != "" && g1(path) == Some(e1) && g2(path) == Some(e2) && ToLower(e1) == ToLower(e2)
    ensures SuggestFilterByExtension(path, g1) == SuggestFilterByExtension(path, g2)
  {
  }

  /** Upper-case letters in an extension do not change the format it selects. */
  lemma UpperCaseExtension(path: string, getExtension: string -> Option<string>)
    requires path != "" && getExtension(path) == Some("HTM")
    ensures SuggestFilterByExtension(path, getExtension) == Success(Html)
  {
    assert ToLower("HTM") == "htm";
  }

  /**
   * The content-type lookup ignores case and surrounding blanks: a content type padded with
   * blanks on either side selects the same format as the bare one.
   */
  lemma ContentTypePadded(lead: string, contentType: string, trail: string)
    requires forall k :: 0 <= k < |lead| ==> IsBlank(lead[k])
    requires forall k :: 0 <= k < |trail| ==> IsBlank(trail[k])
    ensures ChooseFilterByContentType(lead + contentType + trail) == ChooseFilterByContentType(contentType)
  {
    ToLowerAppend(lead + contentType, trail);
    ToLowerAppend(lead, contentType);
    var l := ToLower(contentType);
    assert ToLower(lead + contentType + trail) == ToLower(lead) + l + ToLower(trail);
    TrimIgnoresPadding(ToLower(lead), l, ToLower(trail));
  }

  /** A blank content type selects nothing, so fromPath skipping it changes no outcome. */
  lemma BlankContentTypeUnrecognized(contentType: string)
    requires Trim(contentType) == []
    ensures ChooseFilterByContentType(contentType) == Unrecognized
  {
    assert Trim(ToLower(contentType)) == [];
  }

  /**
   * The choice of fromPath(path, contentType, charset): the content type when it is not blank
   * and recognised, else the extension of the path; None (the null document) when neither
   * selects a format; the error of suggestFilterByExtension when it is consulted on an empty path.
   */
  function ChooseFormat(path: string, contentType: string, getExtension: string -> Option<string>)
    : (r: Result<Option<Format>, FactoryError>)
    ensures Trim(contentType) != [] && ChooseFilterByContentType(contentType) != Unrecognized ==>
              r == Success(Some(ChooseFilterByContentType(contentType)))
    ensures (Trim(contentType) == [] || ChooseFilterByContentType(contentType) == Unrecognized) ==>
              && (r.Failure? <==> path == "")
              && (r.Success? ==> r.value == (var f := SuggestFilterByExtension(path, getExtension).value;
                                             if f == Unrecognized then None else Some(f)))
    ensures r.Success? && r.value.Some? ==> r.value.value != Unrecognized
  {
    var byType := if Trim(contentType) != [] then ChooseFilterByContentType(contentType) else Unrecognized;
    if byType != Unrecognized then Success(Some(byType))
    else match SuggestFilterByExtension(path, getExtension)
      case Failure(e) => Failure(e)
      case Success(f) => if f == Unrecognized then Success(None) else Success(Some(f))
  }

  /**
   * The filter fromInputStream goes on with: the content type decides alone, and an
   * unrecognised one gives the null document (None).
   */
  function StreamFormat(contentType: string): (r: Option<Format>)
    ensures r.None? <==> forall g :: Trim(ToLower(contentType)) !in ContentTypes(g)
    ensures r.Some? ==> Trim(ToLower(contentType)) in ContentTypes(r.value)
  {
    var filter := ChooseFilterByContentType(contentType);
    if filter == Unrecognized then None else Some(filter)
  }

  /** A recognised content type makes the file extension irrelevant, even for an empty path. */
  lemma ContentTypeWins(contentType: string, getExtension: string -> Option<string>)
    requires ChooseFilterByContentType(contentType) != Unrecognized
    ensures ChooseFormat("", contentType, getExtension) == Success(Some(ChooseFilterByContentType(contentType)))
  {
    if Trim(contentType) == [] {
      BlankContentTypeUnrecognized(contentType);
    }
  }
}
