/** The linked stack of the directory walk. */
module Stack {
  import opened Walk

  class Node {
    var fileName: string
    var depth: int
    var next: Node?
    ghost var entries: seq<Entry>
    ghost var footprint: set<object>

    ghost predicate Valid()
      reads this, footprint
    {
      && this in footprint
      && (next == null ==> entries == [Entry(fileName, depth)])
      && (next != null ==>
            && next in footprint && next.footprint <= footprint && this !in next.footprint
            && entries == [Entry(fileName, depth)] + next.entries
            && next.Valid())
    }

    constructor (fileName: string, depth: int)
      ensures Valid() && fresh(footprint)
      ensures this.fileName == fileName && this.depth == depth && next == null
      ensures entries == [Entry(fileName, depth)]
    {
      this.fileName := fileName;
      this.depth := depth;
      this.next := null;
      this.entries := [Entry(fileName, depth)];
      this.footprint := {this};
    }
  }

  class NodeStack {
    var top: Node?
    ghost var repr: set<object>

    ghost predicate Valid()
      reads this, repr
    {
      && this in repr
      && (top != null ==> top in repr && top.footprint <= repr && this !in top.footprint && top.Valid())
    }

    ghost function Contents(): seq<Entry>
      requires Valid()
      reads this, repr
    {
      if top == null then [] else top.entries
    }

    constructor ()
      ensures Valid() && fresh(repr) && Contents() == []
    {
      top := null;
      repr := {this};
    }

    method IsEmpty() returns (r: bool)
      requires Valid()
      ensures r <==> Contents() == []
    {
      r := top == null;
    }

    /** Pushes a copy of `elem`. */
    method Push(elem: Node)
      requires Valid() && elem.Valid()
      modifies this
      ensures Valid() && fresh(repr - old(repr))
      ensures Contents() == [Entry(elem.fileName, elem.depth)] + old(Contents())
    {
      var tmp := new Node(elem.fileName, elem.depth);
      if top != null {
        tmp.next := top;
        tmp.entries := tmp.entries + top.entries;
        tmp.footprint := {tmp} + top.footprint;
      }
      top := tmp;
      repr := repr + tmp.footprint;
    }

    /** Null on an empty stack, as the pop of the library returns. */
    method Pop() returns (node: Node?)
      requires Valid()
      modifies this`top
      ensures Valid() && repr == old(repr)
      ensures node == null <==> old(Contents()) == []
      ensures node == null ==> Contents() == []
      ensures node != null ==>
        && old(Contents()) == [Entry(node.fileName, node.depth)] + Contents()
        && node in old(repr) && node.Valid()
    {
      node := top;
      if top != null {
        top := top.next;
      }
    }
  }
}
