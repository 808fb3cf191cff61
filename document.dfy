/** The document of the document tree: its properties, title, links and the view built from it. */
module Documents {
  import opened Wrappers
  import opened DocTree

  /** The IllegalArgumentException NullCheck.notEmpty throws for an empty property name. */
  datatype PropertyError = EmptyPropertyName

  /** What RowPartsBuilder and Layout produce; their contents are not part of this model. */
  datatype RowPart = RowPart(id: nat)
  datatype Paragraph = Paragraph(id: nat)
  datatype Row = Row(id: nat)

  /** The collaborator calls of buildView, in the order they are made. */
  datatype ViewPass =
    | CommitTree | SetEmptyMark | RemoveEmpty | CalcWidth(width: int) | BuildRowParts
    | CalcHeight | CalcAbsRowNums | CalcPosition | BuildRows | LayoutCalc

  /** A URL made from the "url" property by new URL(spec). */
  datatype Url = Url(spec: string)

  /** The value of a property: "" for a name that was never set; an empty name is rejected. */
  function Lookup(props: map<string, string>, name: string): (r: Result<string, PropertyError>)
    ensures r.Failure? <==> name == ""
    ensures r.Success? && name in props ==> r.value == props[name]
    ensures r.Success? && name !in props ==> r.value == ""
  {
    if name == "" then Failure(EmptyPropertyName)
    else if name in props then Success(props[name])
    else Success("")
  }

  /** The properties after setting name to value; an empty name is rejected. */
  function Store(props: map<string, string>, name: string, value: string)
    : (r: Result<map<string, string>, PropertyError>)
    ensures r.Failure? <==> name == ""
    ensures r.Success? ==> r.value.Keys == props.Keys + {name}
  {
    if name == "" then Failure(EmptyPropertyName) else Success(props[name := value])
  }

  /** A property reads back as the value last stored under its name; other names keep theirs. */
  lemma StoreThenLookup(props: map<string, string>, name: string, value: string, other: string)
    requires name != ""
    ensures Store(props, name, value).Success?
    ensures Lookup(Store(props, name, value).value, name) == Success(value)
    ensures other != name ==> Lookup(Store(props, name, value).value, other) == Lookup(props, other)
  {
  }

  class Document {
    var props: map<string, string>
    var title: string
    /** Null (None) until setHrefs assigns it. */
    var hrefs: Option<seq<string>>
    var root: Node
    /** Null (None) until buildView assigns them. */
    var paragraphs: Option<seq<Paragraph>>
    var rowParts: Option<seq<RowPart>>
    var rows: Option<seq<Row>>
    /** The collaborator calls made by buildView so far. */
    ghost var passes: seq<ViewPass>

    /** Document(root): a document without title and without properties. */
    constructor(root: Node)
      ensures this.root == root && GetTitle() == "" && props == map[] && GetHrefs() == None
      ensures paragraphs == None && rowParts == None && rows == None && passes == []
    {
      this.root := root;
      title := "";
      props := map[];
      hrefs := None;
      paragraphs, rowParts, rows := None, None, None;
      passes := [];
    }

    /** Document(title, root). */
    constructor WithTitle(title: string, root: Node)
      ensures this.root == root && GetTitle() == title && props == map[] && GetHrefs() == None
      ensures paragraphs == None && rowParts == None && rows == None && passes == []
    {
      this.root := root;
      this.title := title;
      props := map[];
      hrefs := None;
      paragraphs, rowParts, rows := None, None, None;
      passes := [];
    }

    /** Document.getProperty: the stored value, "" for an unset name, an error for an empty one. */
    function GetProperty(name: string): (r: Result<string, PropertyError>)
      reads this
      ensures r.Failure? <==> name == ""
      ensures r.Success? ==> r.value == if name in props then props[name] else ""
    {
      Lookup(props, name)
    }

    /** Document.setProperty: an empty name is rejected and leaves the properties unchanged. */
    method SetProperty(name: string, value: string) returns (outcome: Outcome<PropertyError>)
      modifies this
      ensures outcome.Fail? <==> name == ""
      ensures outcome.Fail? ==> props == old(props)
      ensures outcome.Pass? ==> props == Store(old(props), name, value).value
      ensures title == old(title) && hrefs == old(hrefs) && root == old(root)
      ensures paragraphs == old(paragraphs) && rowParts == old(rowParts) && rows == old(rows)
    {
      if name == "" {
        return Fail(EmptyPropertyName);
      }
      props := props[name := value];
      outcome := Pass;
    }

    /**
     * Document.getTitle: the stored title. Its "" for a null title never applies, since both
     * constructors store a non-null title and nothing else assigns it.
     */
    function GetTitle(): (t: string)
      reads this
      ensures t == title
    {
      title
    }

    /** Document.getHrefs: null (None) until setHrefs is called. */
    function GetHrefs(): (h: Option<seq<string>>)
      reads this
      ensures h == hrefs
    {
      hrefs
    }

    /** Document.setHrefs: afterwards getHrefs gives exactly these links. */
    method SetHrefs(hrefs: seq<string>)
      modifies this
      ensures GetHrefs() == Some(hrefs)
      ensures props == old(props) && title == old(title) && root == old(root)
      ensures paragraphs == old(paragraphs) && rowParts == old(rowParts) && rows == old(rows)
    {
      this.hrefs := Some(hrefs);
    }

    /**
     * Document.getUrl: no URL when the "url" property is empty or is not a well-formed URL
     * (wellFormed stands for the MalformedURLException check of new URL).
     */
    function GetUrl(wellFormed: string -> bool): (u: Option<Url>)
      reads this
      ensures GetProperty("url").Success?
      ensures u.None? <==> GetProperty("url").value == "" || !wellFormed(GetProperty("url").value)
      ensures u.Some? ==> u.value.spec == GetProperty("url").value
    {
      var value := GetProperty("url").value;
      if value == "" then None
      else if wellFormed(value) then Some(Url(value))
      else None
    }

    /**
     * Document.buildView: the tree passes run, the row parts are always assigned, and only when
     * there is at least one row part are the paragraphs and rows assigned and the layout made.
     * parts, paras and builtRows stand for what RowPartsBuilder and Layout.buildRows return;
     * tree holds the nodes under root, which commit, removeEmpty and the layout passes may change.
     */
    method BuildView(width: int, parts: seq<RowPart>, paras: seq<Paragraph>, builtRows: seq<Row>,
                     ghost tree: set<object>)
      requires root in tree
      modifies this, tree
      ensures rowParts == Some(parts)
      ensures |parts| == 0 ==> paragraphs == old(paragraphs) && rows == old(rows)
      ensures |parts| == 0 ==>
                passes == old(passes) + [CommitTree, SetEmptyMark, RemoveEmpty, CalcWidth(width), BuildRowParts]
      ensures |parts| > 0 ==> paragraphs == Some(paras) && rows == Some(builtRows)
      ensures |parts| > 0 ==>
                passes == old(passes) + [CommitTree, SetEmptyMark, RemoveEmpty, CalcWidth(width), BuildRowParts,
                                         CalcHeight, CalcAbsRowNums, CalcPosition, BuildRows, LayoutCalc]
      ensures props == old(props) && title == old(title) && hrefs == old(hrefs) && root == old(root)
    {
      passes := passes + [CommitTree, SetEmptyMark, RemoveEmpty, CalcWidth(width), BuildRowParts];
      rowParts := Some(parts);
      if |parts| <= 0 {
        return;
      }
      paragraphs := Some(paras);
      passes := passes + [CalcHeight, CalcAbsRowNums, CalcPosition, BuildRows];
      rows := Some(builtRows);
      passes := passes + [LayoutCalc];
    }
  }
}
