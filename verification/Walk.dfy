/** The directory walk without recursion: one explicit stack holding names and ".." markers,
    and the working directory moved along.  This module holds the directory trees, the
    recursive traversal the walk has to agree with, and the proof about arbitrary stacks. */
module Walk {
  import opened Options

  // ---------------------------------------------------------------- directory trees

  datatype Kind = Reg | Blk | Chr | Fifo | Lnk | Sock | Other

  /** `Gone` is a name that lstat fails on; `readable` is the success of opendir, `searchable`
      of chdir; `listing` is what readdir returns, in its order, with "." and ".." if it
      returns them. */
  datatype Tree = Gone | File(kind: Kind) | Dir(readable: bool, searchable: bool, listing: seq<Item>)

  datatype Item = Item(name: string, tree: Tree)

  predicate IsDot(name: string) {
    name == "." || name == ".."
  }

  predicate IsAbsolute(name: string) {
    name != "" && name[0] == '/'
  }

  predicate Open(t: Tree) {
    t.Dir? && t.readable && t.searchable
  }

  /** Names are relative, and apart from "." and ".." distinct within a directory. */
  ghost predicate WellFormed(t: Tree) {
    t.Dir? ==>
      && (forall i :: 0 <= i < |t.listing| ==> !IsAbsolute(t.listing[i].name) && WellFormed(t.listing[i].tree))
      && (forall i, j :: 0 <= i < j < |t.listing| && !IsDot(t.listing[i].name)
           ==> t.listing[i].name != t.listing[j].name)
  }

  function Find(items: seq<Item>, name: string): (r: Option<Tree>)
    ensures r.Some? ==> exists i :: 0 <= i < |items| && items[i].name == name && items[i].tree == r.value
    ensures r.None? ==> forall i :: 0 <= i < |items| ==> items[i].name != name
  {
    if items == [] then None
    else if items[0].name == name then Some(items[0].tree)
    else Find(items[1..], name)
  }

  function Child(t: Tree, name: string): Tree {
    if t.Dir? && Find(t.listing, name).Some? then Find(t.listing, name).value else Gone
  }

  function TreeAt(root: Tree, path: seq<string>): Tree {
    if path == [] then root else Child(TreeAt(root, path[..|path| - 1]), path[|path| - 1])
  }

  /** A working directory: a path below the start, or somewhere above the start. */
  datatype Place = Above | At(path: seq<string>)

  function Up(p: Place): Place {
    if p.Above? || p.path == [] then Above else At(p.path[..|p.path| - 1])
  }

  /** Where a name leads from a working directory; the one absolute name used is the start's. */
  function Where(cwd: Place, name: string): Place {
    if IsAbsolute(name) then At([])
    else if name == ".." then Up(cwd)
    else if cwd.At? then At(cwd.path + [name])
    else Above
  }

  function Resolve(root: Tree, cwd: Place, name: string): Tree {
    match Where(cwd, name)
    case At(path) => TreeAt(root, path)
    case Above => Gone
  }

  // ---------------------------------------------------------------- the recursive traversal

  datatype What = IsFile(kind: Kind) | IsDir | Missing

  /** One lookup: the working directory it was made in, the name, the depth, the outcome. */
  datatype Event = Lookup(cwd: Place, name: string, depth: int, what: What)

  function WhatIs(t: Tree): What {
    match t
    case Gone => Missing
    case File(kind) => IsFile(kind)
    case Dir(_, _, _) => IsDir
  }

  /** The entry itself, then, if it is a directory that can be opened and entered, its entries. */
  function Preorder(t: Tree, here: Place, cwd: Place, name: string, depth: int): seq<Event>
    decreases t, 0
  {
    [Lookup(cwd, name, depth, WhatIs(t))] + if Open(t) then PreorderAll(t.listing, here, depth + 1) else []
  }

  /** Siblings in reverse readdir order, without "." and "..". */
  function PreorderAll(items: seq<Item>, dir: Place, depth: int): seq<Event>
    decreases items, 1
  {
    if items == [] then []
    else
      var item := items[|items| - 1];
      (if IsDot(item.name) then [] else Preorder(item.tree, Where(dir, item.name), dir, item.name, depth))
      + PreorderAll(items[..|items| - 1], dir, depth)
  }

  /** The whole walk of a tree whose start directory has the absolute name `top`. */
  function Traversal(root: Tree, top: string): seq<Event> {
    Preorder(root, At([]), At([]), top, 0)
  }

  // ---------------------------------------------------------------- the stack

  datatype Entry = Entry(fileName: string, depth: int)

  const Marker := Entry("..", -1)

  /** What the readdir loop pushes, top of the stack first. */
  function Pushed(items: seq<Item>, depth: int): seq<Entry> {
    if items == [] then []
    else
      var item := items[|items| - 1];
      (if IsDot(item.name) then [] else [Entry(item.name, depth)]) + Pushed(items[..|items| - 1], depth)
  }

  /** The entries that processing `e` puts on the stack. */
  function NewEntries(root: Tree, cwd: Place, e: Entry): seq<Entry> {
    var t := Resolve(root, cwd, e.fileName);
    if e.depth >= 0 && Open(t) then Pushed(t.listing, e.depth + 1) + [Marker] else []
  }

  /** The working directory after processing `e`. */
  function NewPlace(root: Tree, cwd: Place, e: Entry): Place {
    if e.depth < 0 || Open(Resolve(root, cwd, e.fileName)) then Where(cwd, e.fileName) else cwd
  }

  /** The lookup that processing `e` makes. */
  function NewEvents(root: Tree, cwd: Place, e: Entry): seq<Event> {
    if e.depth < 0 then []
    else [Lookup(cwd, e.fileName, e.depth, WhatIs(Resolve(root, cwd, e.fileName)))]
  }

  // ---------------------------------------------------------------- arbitrary stacks

  /** What the recursive traversal would do with every entry of a stack, in turn. */
  function Expected(root: Tree, cwd: Place, stack: seq<Entry>): seq<Event>
    decreases |stack|
  {
    if stack == [] then []
    else
      var e := stack[0];
      if e.depth < 0 then Expected(root, Where(cwd, e.fileName), stack[1..])
      else
        Preorder(Resolve(root, cwd, e.fileName), Where(cwd, e.fileName), cwd, e.fileName, e.depth)
        + Expected(root, cwd, stack[1..])
  }

  function Size(t: Tree): nat
    decreases t, 0
  {
    if t.Dir? then 2 + SizeAll(t.listing) else 1
  }

  function SizeAll(items: seq<Item>): nat
    decreases items, 1
  {
    if items == [] then 0
    else
      var item := items[|items| - 1];
      (if IsDot(item.name) then 0 else Size(item.tree)) + SizeAll(items[..|items| - 1])
  }

  /** The measure by which the loop terminates: the sizes of all pending entries. */
  function Weight(root: Tree, cwd: Place, stack: seq<Entry>): nat
    decreases |stack|
  {
    if stack == [] then 0
    else
      var e := stack[0];
      if e.depth < 0 then 1 + Weight(root, Where(cwd, e.fileName), stack[1..])
      else Size(Resolve(root, cwd, e.fileName)) + Weight(root, cwd, stack[1..])
  }

  /** The working directory left behind by a stack of relative entries and markers. */
  function Ends(cwd: Place, stack: seq<Entry>): Place
    decreases |stack|
  {
    if stack == [] then cwd
    else Ends(if stack[0].depth < 0 then Where(cwd, stack[0].fileName) else cwd, stack[1..])
  }

  /** Every entry of the stack will be processed in a directory at or below the start. */
  predicate Grounded(cwd: Place, stack: seq<Entry>)
    decreases |stack|
  {
    stack != [] ==>
      cwd.At? && Grounded(if stack[0].depth < 0 then Where(cwd, stack[0].fileName) else cwd, stack[1..])
  }

  /** An entry as readdir or a marker leaves it on the stack. */
  predicate Plain(e: Entry) {
    if e.depth < 0 then e == Marker else !IsAbsolute(e.fileName) && !IsDot(e.fileName)
  }

  predicate AllPlain(stack: seq<Entry>) {
    forall k :: 0 <= k < |stack| ==> Plain(stack[k])
  }

  lemma {:induction false} TreeAtWellFormed(root: Tree, path: seq<string>)
    requires WellFormed(root)
    ensures WellFormed(TreeAt(root, path))
    decreases |path|
  {
    if path != [] {
      TreeAtWellFormed(root, path[..|path| - 1]);
    }
  }

  /** Looking a listed name up finds the entry it was listed for. */
  lemma {:induction false} FindListed(items: seq<Item>, k: nat)
    requires k < |items| && !IsDot(items[k].name)
    requires forall i, j :: 0 <= i < j < |items| && !IsDot(items[i].name) ==> items[i].name != items[j].name
    requires forall i :: 0 <= i < k ==> items[i].name != items[k].name
    ensures Find(items, items[k].name) == Some(items[k].tree)
    decreases |items|
  {
    if k > 0 {
      var rest := items[1..];
      assert rest[k - 1] == items[k];
      forall i | 0 <= i < k - 1 ensures rest[i].name != rest[k - 1].name {
        assert rest[i] == items[i + 1];
      }
      FindListed(rest, k - 1);
    }
  }

  lemma ResolveListed(root: Tree, dir: Place, k: nat)
    requires WellFormed(root) && dir.At? && TreeAt(root, dir.path).Dir?
    requires k < |TreeAt(root, dir.path).listing| && !IsDot(TreeAt(root, dir.path).listing[k].name)
    ensures var item := TreeAt(root, dir.path).listing[k];
      Resolve(root, dir, item.name) == item.tree && !IsAbsolute(item.name)
  {
    var t := TreeAt(root, dir.path);
    TreeAtWellFormed(root, dir.path);
    var item := t.listing[k];
    forall i | 0 <= i < k ensures t.listing[i].name != item.name {
      if IsDot(t.listing[i].name) {
      } else {
        assert t.listing[i].name != t.listing[k].name;
      }
    }
    FindListed(t.listing, k);
    var path := dir.path + [item.name];
    assert path[..|path| - 1] == dir.path;
  }

  /** The entries of one directory on top of any stack: first their recursive traversal, then
      whatever is below, in the same working directory. */
  lemma {:induction false} ListingOnTop(root: Tree, dir: Place, k: nat, depth: int, below: seq<Entry>)
    requires WellFormed(root) && dir.At? && Open(TreeAt(root, dir.path)) && depth >= 0
    requires k <= |TreeAt(root, dir.path).listing|
    ensures var items := TreeAt(root, dir.path).listing[..k];
      && Expected(root, dir, Pushed(items, depth) + below)
          == PreorderAll(items, dir, depth) + Expected(root, dir, below)
      && Weight(root, dir, Pushed(items, depth) + below) == SizeAll(items) + Weight(root, dir, below)
      && Ends(dir, Pushed(items, depth) + below) == Ends(dir, below)
      && Grounded(dir, Pushed(items, depth) + below) == Grounded(dir, below)
      && AllPlain(Pushed(items, depth))
    decreases k
  {
    hide WellFormed, TreeAt, Resolve, Where, Preorder, Size, IsAbsolute, Find;
    var listing := TreeAt(root, dir.path).listing;
    var items := listing[..k];
    if k == 0 {
      assert Pushed(items, depth) + below == below;
    } else {
      var item := items[k - 1];
      assert items[..k - 1] == listing[..k - 1];
      ListingOnTop(root, dir, k - 1, depth, below);
      if !IsDot(item.name) {
        ResolveListed(root, dir, k - 1);
        var rest := Pushed(items[..k - 1], depth);
        assert Pushed(items, depth) == [Entry(item.name, depth)] + rest;
        EntryOnTop(root, dir, Entry(item.name, depth), rest + below);
        assert [Entry(item.name, depth)] + (rest + below) == Pushed(items, depth) + below;
        assert PreorderAll(items, dir, depth)
            == Preorder(item.tree, Where(dir, item.name), dir, item.name, depth)
               + PreorderAll(items[..k - 1], dir, depth);
      } else {
        assert Pushed(items, depth) == Pushed(items[..k - 1], depth);
      }
    }
  }

  lemma EntryOnTop(root: Tree, cwd: Place, e: Entry, below: seq<Entry>)
    requires e.depth >= 0 && cwd.At?
    ensures Grounded(cwd, [e] + below) == Grounded(cwd, below)
    ensures Expected(root, cwd, [e] + below)
         == Preorder(Resolve(root, cwd, e.fileName), Where(cwd, e.fileName), cwd, e.fileName, e.depth)
            + Expected(root, cwd, below)
    ensures Weight(root, cwd, [e] + below) == Size(Resolve(root, cwd, e.fileName)) + Weight(root, cwd, below)
    ensures Ends(cwd, [e] + below) == Ends(cwd, below)
  {
    assert ([e] + below)[1..] == below;
  }

  lemma MarkerOnTop(root: Tree, cwd: Place, e: Entry, below: seq<Entry>)
    requires e.depth < 0 && cwd.At?
    ensures Grounded(cwd, [e] + below) == Grounded(Where(cwd, e.fileName), below)
    ensures Expected(root, cwd, [e] + below) == Expected(root, Where(cwd, e.fileName), below)
    ensures Weight(root, cwd, [e] + below) == 1 + Weight(root, Where(cwd, e.fileName), below)
    ensures Ends(cwd, [e] + below) == Ends(Where(cwd, e.fileName), below)
  {
    assert ([e] + below)[1..] == below;
  }

  /** Processing one entry on top of an arbitrary stack performs the next piece of the
      recursive traversal, makes the stack lighter, and does not move the final directory. */
  lemma EntryAdvances(root: Tree, cwd: Place, e: Entry, below: seq<Entry>)
    requires WellFormed(root) && AllPlain(below)
    requires Plain(e) || (IsAbsolute(e.fileName) && e.depth >= 0 && below == [])
    requires cwd.At? && Grounded(cwd, [e] + below)
    ensures var stack := NewEntries(root, cwd, e) + below;
      var place := NewPlace(root, cwd, e);
      && Expected(root, cwd, [e] + below) == NewEvents(root, cwd, e) + Expected(root, place, stack)
      && Weight(root, place, stack) < Weight(root, cwd, [e] + below)
      && (Plain(e) ==> Ends(place, stack) == Ends(cwd, [e] + below))
      && AllPlain(stack) && Grounded(place, stack)
  {
    hide WellFormed, Grounded, Expected, Weight, Ends, TreeAt, Pushed, PreorderAll, SizeAll, Where;
    var t := Resolve(root, cwd, e.fileName);
    if e.depth < 0 {
      MarkerOnTop(root, cwd, e, below);
      assert NewEntries(root, cwd, e) + below == below;
    } else {
      EntryOnTop(root, cwd, e, below);
      if Open(t) {
        DirectoryAdvances(root, cwd, e, below);
      } else {
        assert NewEntries(root, cwd, e) + below == below;
      }
    }
  }

  lemma DirectoryAdvances(root: Tree, cwd: Place, e: Entry, below: seq<Entry>)
    requires WellFormed(root) && AllPlain(below) && cwd.At? && e.depth >= 0
    requires Plain(e) || (IsAbsolute(e.fileName) && below == [])
    requires Open(Resolve(root, cwd, e.fileName)) && Grounded(cwd, below)
    ensures var t := Resolve(root, cwd, e.fileName);
      var here := Where(cwd, e.fileName);
      var stack := NewEntries(root, cwd, e) + below;
      && Expected(root, here, stack) == PreorderAll(t.listing, here, e.depth + 1) + Expected(root, cwd, below)
      && Weight(root, here, stack) == SizeAll(t.listing) + 1 + Weight(root, cwd, below)
      && (Plain(e) ==> Ends(here, stack) == Ends(cwd, below))
      && AllPlain(stack) && Grounded(here, stack)
  {
    hide WellFormed, TreeAt, Find, Preorder, PreorderAll, Size, SizeAll, Pushed;
    var t := Resolve(root, cwd, e.fileName);
    var here := Where(cwd, e.fileName);
    var tail := [Marker] + below;
    ListingOnTop(root, here, |t.listing|, e.depth + 1, tail);
    MarkerOnTop(root, here, Marker, below);
    assert t.listing[..|t.listing|] == t.listing;
    assert NewEntries(root, cwd, e) + below == Pushed(t.listing, e.depth + 1) + tail;
    if Plain(e) {
      assert here.path[..|here.path| - 1] == cwd.path;
      assert Up(here) == cwd;
    } else {
      NothingBelow(root, cwd);
    }
  }

  lemma NothingBelow(root: Tree, cwd: Place)
    ensures Expected(root, cwd, []) == [] && Weight(root, cwd, []) == 0 && Ends(cwd, []) == cwd
  {
  }
}
