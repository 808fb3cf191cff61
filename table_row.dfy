/** The nodes of the document tree, as far as table rows normalise them. */
module DocTree {
  /** The Java class of a node: TableRow, TableCell, a paragraph or any other node class. */
  datatype NodeType = TableRow | TableCell | Paragraph | OtherNode

  class Node {
    const kind: NodeType
    var subnodes: array<Node>
    var parentNode: Node?
    /** The text of a paragraph made by NodeFactory.newPara. */
    var text: string

    /** A node of the given class, without children and without parent. */
    constructor(kind: NodeType, text: string)
      ensures this.kind == kind && this.text == text
      ensures subnodes.Length == 0 && parentNode == null
      ensures fresh(subnodes)
    {
      this.kind := kind;
      this.text := text;
      subnodes := new Node[0];
      parentNode := null;
    }

    /**
     * TableRow.commit: every child that is not a table cell is put, in place, into a newly created
     * cell at the same index, a different cell at each index; cells stay where they are. A wrapped
     * child gets its new cell as parent (a child listed twice keeps the cell of its last
     * occurrence), and every new cell has the row as parent.
     */
    method Commit()
      requires kind == TableRow
      modifies subnodes, set i | 0 <= i < subnodes.Length :: subnodes[i]
      ensures subnodes == old(subnodes)
      ensures forall i :: 0 <= i < subnodes.Length ==> subnodes[i].kind == TableCell
      ensures forall i :: 0 <= i < subnodes.Length && old(subnodes[i]).kind == TableCell ==>
                subnodes[i] == old(subnodes[i]) && unchanged(subnodes[i])
      ensures forall i :: 0 <= i < subnodes.Length && old(subnodes[i]).kind != TableCell ==>
                && fresh(subnodes[i]) && fresh(subnodes[i].subnodes)
                && subnodes[i].subnodes[..] == [old(subnodes[i])]
                && subnodes[i].parentNode == this
      ensures forall i ::
                (&& 0 <= i < subnodes.Length && old(subnodes[i]).kind != TableCell
                 && forall j :: i < j < subnodes.Length ==> old(subnodes[j]) != old(subnodes[i]))
                ==> old(subnodes[i]).parentNode == subnodes[i]
      ensures forall n :: n in old(subnodes[..]) ==> n.subnodes == old(n.subnodes) && n.text == old(n.text)
      ensures forall j, k ::
                (&& 0 <= j < k < subnodes.Length
                 && old(subnodes[j]).kind != TableCell && old(subnodes[k]).kind != TableCell)
                ==> subnodes[j] != subnodes[k]
    {
      for i := 0 to subnodes.Length
        invariant subnodes == old(subnodes)
        invariant forall j :: i <= j < subnodes.Length ==> subnodes[j] == old(subnodes[j])
        invariant forall j :: 0 <= j < i ==> subnodes[j].kind == TableCell
        invariant forall j :: 0 <= j < i && old(subnodes[j]).kind == TableCell ==> subnodes[j] == old(subnodes[j])
        invariant forall j :: 0 <= j < subnodes.Length && old(subnodes[j]).kind == TableCell ==> unchanged(old(subnodes[j]))
        invariant forall j :: 0 <= j < subnodes.Length ==> old(subnodes[j]).subnodes == old(subnodes[j].subnodes) && old(subnodes[j]).text == old(subnodes[j].text)
        invariant forall j :: 0 <= j < i && old(subnodes[j]).kind != TableCell ==>
                    && fresh(subnodes[j]) && fresh(subnodes[j].subnodes)
                    && subnodes[j].subnodes[..] == [old(subnodes[j])]
                    && subnodes[j].parentNode == this
        invariant forall j ::
                    (&& 0 <= j < i && old(subnodes[j]).kind != TableCell
                     && forall k :: j < k < i ==> old(subnodes[k]) != old(subnodes[j]))
                    ==> old(subnodes[j]).parentNode == subnodes[j]
        invariant forall j, k ::
                    (0 <= j < k < i && old(subnodes[j]).kind != TableCell && old(subnodes[k]).kind != TableCell)
                    ==> subnodes[j] != subnodes[k]
      {
        WrapAt(i);
      }
    }

    /** One pass of the loop of TableRow.commit: the child at index i is wrapped unless it is a cell. */
    method WrapAt(i: int)
      requires 0 <= i < subnodes.Length
      modifies subnodes, subnodes[i]
      ensures subnodes == old(subnodes)
      ensures subnodes[i].kind == TableCell
      ensures forall j :: 0 <= j < subnodes.Length && j != i ==> subnodes[j] == old(subnodes[j])
      ensures old(subnodes[i]).kind == TableCell ==> subnodes[i] == old(subnodes[i]) && unchanged(subnodes[i])
      ensures old(subnodes[i]).kind != TableCell ==>
                && fresh(subnodes[i]) && fresh(subnodes[i].subnodes)
                && subnodes[i].subnodes[..] == [old(subnodes[i])]
                && subnodes[i].parentNode == this
                && old(subnodes[i]).parentNode == subnodes[i]
      ensures old(subnodes[i]).kind != TableCell ==>
                forall j :: 0 <= j < subnodes.Length && j != i ==> subnodes[j] != subnodes[i]
      ensures old(subnodes[i]).subnodes == old(subnodes[i].subnodes) && old(subnodes[i]).text == old(subnodes[i].text)
    {
      if subnodes[i].kind != TableCell {
        var n := NewCellAround(subnodes[i]);
        subnodes[i] := n;
      }
    }

    /** A new table cell of this row whose only child is child, which gets the cell as parent. */
    method NewCellAround(child: Node) returns (n: Node)
      modifies child
      ensures fresh(n) && fresh(n.subnodes)
      ensures n.kind == TableCell && n.subnodes[..] == [child]
      ensures n.parentNode == this && child.parentNode == n
      ensures child.subnodes == old(child.subnodes) && child.text == old(child.text)
    {
      n := new Node(TableCell, "");
      n.subnodes := new Node[1](_ => child);
      n.subnodes[0].parentNode := n;
      n.parentNode := this;
    }

    /**
     * TableRow.addEmptyCells: a row with fewer than num children is padded, in a new array, with
     * fresh placeholder cells whose only child is a paragraph "-"; a row with at least num
     * children is left as it is.
     */
    method AddEmptyCells(num: int)
      requires kind == TableRow
      modifies this
      ensures subnodes.Length >= num
      ensures old(subnodes.Length) >= num ==> unchanged(this)
      ensures old(subnodes.Length) < num ==>
                && fresh(subnodes) && subnodes.Length == num
                && subnodes[..old(subnodes.Length)] == old(subnodes[..])
                && parentNode == old(parentNode) && text == old(text)
      ensures forall i :: old(subnodes.Length) <= i < subnodes.Length ==> IsPlaceholderCell(subnodes[i])
      ensures forall i :: old(subnodes.Length) <= i < subnodes.Length ==> fresh(subnodes[i])
      ensures forall i, j :: old(subnodes.Length) <= i < j < subnodes.Length ==> subnodes[i] != subnodes[j]
    {
      if subnodes.Length >= num {
        return;
      }
      var cells := NewPlaceholderCells(num - subnodes.Length);
      var all := subnodes[..] + cells;
      var newNodes := new Node[num](i requires 0 <= i < num => all[i]);
      assert newNodes[..subnodes.Length] == subnodes[..];
      assert forall i :: subnodes.Length <= i < num ==> newNodes[i] == cells[i - subnodes.Length];
      subnodes := newNodes;
    }

    /** The cells the loop of addEmptyCells creates: count distinct new placeholder cells. */
    method NewPlaceholderCells(count: nat) returns (cells: seq<Node>)
      ensures |cells| == count
      ensures forall k :: 0 <= k < |cells| ==> fresh(cells[k]) && IsPlaceholderCell(cells[k])
      ensures forall k, l :: 0 <= k < l < |cells| ==> cells[k] != cells[l]
    {
      cells := [];
      for i := 0 to count
        invariant |cells| == i
        invariant forall k :: 0 <= k < |cells| ==> fresh(cells[k]) && IsPlaceholderCell(cells[k])
        invariant forall k, l :: 0 <= k < l < |cells| ==> cells[k] != cells[l]
      {
        var cell := NewPlaceholderCell();
        cells := cells + [cell];
      }
    }

    /** NodeFactory.newPara("-") wrapped in a new table cell of this row. */
    method NewPlaceholderCell() returns (cell: Node)
      ensures fresh(cell) && IsPlaceholderCell(cell)
    {
      cell := new Node(TableCell, "");
      var para := new Node(Paragraph, "-");
      cell.subnodes := new Node[1](_ => para);
      cell.subnodes[0].parentNode := cell;
      cell.parentNode := this;
    }

    /** A cell added by addEmptyCells: a table cell of this row holding one paragraph "-". */
    predicate IsPlaceholderCell(cell: Node)
      reads cell, cell.subnodes, if cell.subnodes.Length == 1 then {cell.subnodes[0]} else {}
    {
      && cell.kind == TableCell
      && cell.parentNode == this
      && cell.subnodes.Length == 1
      && cell.subnodes[0].kind == Paragraph
      && cell.subnodes[0].text == "-"
      && cell.subnodes[0].parentNode == cell
    }
  }

  /** Padding a row twice to the same number of cells changes nothing the second time. */
  method PadTwice(row: Node, num: int) returns (first: array<Node>, second: array<Node>)
    requires row.kind == TableRow
    modifies row
    ensures first == second == row.subnodes && first.Length >= num
  {
    row.AddEmptyCells(num);
    first := row.subnodes;
    row.AddEmptyCells(num);
    second := row.subnodes;
  }
}
