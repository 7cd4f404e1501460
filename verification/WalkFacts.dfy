/** What the recursive traversal lists: every reachable entry once, at its true depth, looked
    up from its parent directory. */
module WalkFacts {
  import opened Options
  import opened Walk

  /** `rel` names an entry that opening and entering directories leads to from `t`. */
  ghost predicate Listed(t: Tree, rel: seq<string>)
    decreases |rel|
  {
    rel == [] || (t.Dir? && t.readable && t.searchable && ListedUnder(t.listing, rel))
  }

  ghost predicate ListedUnder(items: seq<Item>, rel: seq<string>)
    requires rel != []
    decreases |rel|, 0
  {
    rel[0] != "." && rel[0] != ".." && Find(items, rel[0]).Some? && Listed(Find(items, rel[0]).value, rel[1..])
  }

  /** How many lookups of a traversal lead to `path`. */
  ghost function Lookups(events: seq<Event>, path: seq<string>): nat {
    if events == [] then 0
    else (if Where(events[0].cwd, events[0].name) == At(path) then 1 else 0) + Lookups(events[1..], path)
  }

  lemma {:induction false} LookupsOfConcat(a: seq<Event>, b: seq<Event>, path: seq<string>)
    ensures Lookups(a + b, path) == Lookups(a, path) + Lookups(b, path)
  {
    if a == [] {
      assert a + b == b;
    } else {
      assert (a + b)[1..] == a[1..] + b;
      LookupsOfConcat(a[1..], b, path);
    }
  }

  lemma {:induction false} FindLast(items: seq<Item>, name: string)
    requires items != []
    ensures Find(items, name) ==
      if Find(items[..|items| - 1], name).Some? then Find(items[..|items| - 1], name)
      else if items[|items| - 1].name == name then Some(items[|items| - 1].tree)
      else None
  {
    if |items| > 1 {
      assert items[1..][..|items| - 2] == items[..|items| - 1][1..];
      FindLast(items[1..], name);
    }
  }

  /** A listing as a well-formed directory holds it. */
  ghost predicate GoodListing(items: seq<Item>) {
    && (forall i :: 0 <= i < |items| ==> !IsAbsolute(items[i].name) && WellFormed(items[i].tree))
    && (forall i, j :: 0 <= i < j < |items| && !IsDot(items[i].name) ==> items[i].name != items[j].name)
  }

  lemma {:induction false} SubtreeListsOnce(
    t: Tree, p: seq<string>, cwd: Place, name: string, depth: int, path: seq<string>)
    requires WellFormed(t) && Where(cwd, name) == At(p)
    ensures Lookups(Preorder(t, At(p), cwd, name, depth), path) ==
      if p <= path && Listed(t, path[|p|..]) then 1 else 0
    decreases t, 0
  {
    var head := [Lookup(cwd, name, depth, WhatIs(t))];
    assert Lookups(head, path) == if path == p then 1 else 0 by {
      assert head[1..] == [];
    }
    if Open(t) {
      LookupsOfConcat(head, PreorderAll(t.listing, At(p), depth + 1), path);
      ListingListsOnce(t.listing, p, depth + 1, path);
    } else {
      assert Preorder(t, At(p), cwd, name, depth) == head;
    }
    if p <= path && |path| == |p| {
      assert path == p;
    }
  }

  lemma {:induction false} ListingListsOnce(items: seq<Item>, p: seq<string>, depth: int, path: seq<string>)
    requires GoodListing(items)
    ensures Lookups(PreorderAll(items, At(p), depth), path) ==
      if p < path && ListedUnder(items, path[|p|..]) then 1 else 0
    decreases items, 1
  {
    if items != [] {
      var n := |items| - 1;
      var item := items[n];
      var rest := items[..n];
      ListingListsOnce(rest, p, depth, path);
      if p < path {
        FindLast(items, path[|p|]);
      }
      if !IsDot(item.name) {
        var q := p + [item.name];
        SubtreeListsOnce(item.tree, q, At(p), item.name, depth, path);
        LookupsOfConcat(
          Preorder(item.tree, At(q), At(p), item.name, depth), PreorderAll(rest, At(p), depth), path);
        ConcatIsPrefix(p, item.name, path);
        if p < path && path[|p|] == item.name {
          assert path[|p|..][1..] == path[|q|..];
          assert Find(rest, item.name).None?;
        }
      } else {
        assert PreorderAll(items, At(p), depth) == PreorderAll(rest, At(p), depth);
      }
    }
  }

  lemma ConcatIsPrefix(p: seq<string>, name: string, path: seq<string>)
    ensures p + [name] <= path <==> p < path && path[|p|] == name
  {
    if p < path && path[|p|] == name {
      assert path[..|p| + 1] == p + [name];
    }
    if p + [name] <= path {
      assert path[..|p|] == (p + [name])[..|p|] == p;
      assert path[|p|] == (p + [name])[|p|];
    }
  }

  /** The walk looks every entry it can reach up exactly once, and nothing else. */
  lemma EachReachableEntryOnce(root: Tree, top: string, path: seq<string>)
    requires WellFormed(root) && IsAbsolute(top)
    ensures Lookups(Traversal(root, top), path) == if Listed(root, path) then 1 else 0
  {
    SubtreeListsOnce(root, [], At([]), top, 0, path);
    assert path[0..] == path;
  }

  /** A lookup that finds the right entry: the start by its absolute name at depth 0, every
      other entry by its own name from its parent directory, at the depth of its path. */
  ghost predicate Faithful(root: Tree, e: Event) {
    var there := Where(e.cwd, e.name);
    && there.At?
    && e.depth == |there.path|
    && (forall kind :: e.what == IsFile(kind) <==> TreeAt(root, there.path) == File(kind))
    && (e.what == IsDir <==> TreeAt(root, there.path).Dir?)
    && (e.what == Missing <==> TreeAt(root, there.path).Gone?)
    && (there.path == [] || e.cwd == At(there.path[..|there.path| - 1]))
  }

  ghost predicate AllFaithful(root: Tree, events: seq<Event>) {
    forall e :: e in events ==> Faithful(root, e)
  }

  lemma {:induction false} SubtreeIsFaithful(root: Tree, p: seq<string>, cwd: Place, name: string)
    requires WellFormed(root) && Where(cwd, name) == At(p)
    requires p == [] || cwd == At(p[..|p| - 1])
    ensures AllFaithful(root, Preorder(TreeAt(root, p), At(p), cwd, name, |p|))
    decreases Size(TreeAt(root, p)), 0
  {
    var t := TreeAt(root, p);
    var head := Lookup(cwd, name, |p|, WhatIs(t));
    assert Faithful(root, head);
    hide Faithful, WellFormed, TreeAt, Where;
    if Open(t) {
      assert t.listing[..|t.listing|] == t.listing;
      ListingIsFaithful(root, p, |t.listing|);
    }
  }

  lemma ListedEntry(root: Tree, p: seq<string>, k: nat)
    requires WellFormed(root) && TreeAt(root, p).Dir? && k < |TreeAt(root, p).listing|
    requires !IsDot(TreeAt(root, p).listing[k].name)
    ensures var item := TreeAt(root, p).listing[k];
      var q := p + [item.name];
      q[..|q| - 1] == p && Where(At(p), item.name) == At(q) && TreeAt(root, q) == item.tree
  {
    ResolveListed(root, At(p), k);
  }

  lemma {:induction false} ListingIsFaithful(root: Tree, p: seq<string>, n: nat)
    requires WellFormed(root) && Open(TreeAt(root, p)) && n <= |TreeAt(root, p).listing|
    ensures AllFaithful(root, PreorderAll(TreeAt(root, p).listing[..n], At(p), |p| + 1))
    decreases SizeAll(TreeAt(root, p).listing[..n]), n + 1
  {
    hide Faithful, WellFormed, TreeAt, Where, Find, Resolve;
    var items := TreeAt(root, p).listing[..n];
    if n > 0 {
      var item := items[n - 1];
      assert items[..n - 1] == TreeAt(root, p).listing[..n - 1];
      ListingIsFaithful(root, p, n - 1);
      if !IsDot(item.name) {
        var q := p + [item.name];
        ListedEntry(root, p, n - 1);
        SubtreeIsFaithful(root, q, At(p), item.name);
      }
    }
  }

  // ---------------------------------------------------------------- order

  /** The traversal of one entry of a directory. */
  function EntryOf(item: Item, dir: Place, depth: int): seq<Event> {
    Preorder(item.tree, Where(dir, item.name), dir, item.name, depth)
  }

  /** The traversal begins with the entry that readdir returned last. */
  lemma LastComesFirst(items: seq<Item>, dir: Place, depth: int)
    requires items != []
    ensures var item, rest := items[|items| - 1], items[..|items| - 1];
      PreorderAll(items, dir, depth)
        == (if IsDot(item.name) then [] else EntryOf(item, dir, depth)) + PreorderAll(rest, dir, depth)
  {
    hide Preorder;
  }

  lemma Regroup(head: seq<Event>, a: seq<Event>, x: seq<Event>, b: seq<Event>)
    ensures head + (a + x + b) == (head + a) + x + b
  {
  }

  lemma {:induction false} EntryIsPart(items: seq<Item>, dir: Place, depth: int, i: nat)
    requires i < |items| && !IsDot(items[i].name)
    ensures exists a, b :: PreorderAll(items, dir, depth) == a + EntryOf(items[i], dir, depth) + b
    decreases |items|
  {
    hide PreorderAll, EntryOf;
    var n := |items| - 1;
    var rest := PreorderAll(items[..n], dir, depth);
    LastComesFirst(items, dir, depth);
    if i == n {
      assert PreorderAll(items, dir, depth) == [] + EntryOf(items[i], dir, depth) + rest;
    } else {
      EntryIsPart(items[..n], dir, depth, i);
      var a, b :| rest == a + EntryOf(items[i], dir, depth) + b;
      var head := if IsDot(items[n].name) then [] else EntryOf(items[n], dir, depth);
      Regroup(head, a, EntryOf(items[i], dir, depth), b);
      assert PreorderAll(items, dir, depth) == (head + a) + EntryOf(items[i], dir, depth) + b;
    }
  }

  /** Of two entries of a directory the one that readdir returned later comes first, with all
      that is below it. */
  lemma {:induction false} SiblingsInReverse(items: seq<Item>, dir: Place, depth: int, i: nat, j: nat)
    requires i < j < |items| && !IsDot(items[i].name) && !IsDot(items[j].name)
    ensures exists a, b, c ::
      PreorderAll(items, dir, depth) == a + EntryOf(items[j], dir, depth) + (b + EntryOf(items[i], dir, depth) + c)
    decreases |items|
  {
    hide PreorderAll, EntryOf;
    var n := |items| - 1;
    var rest := PreorderAll(items[..n], dir, depth);
    LastComesFirst(items, dir, depth);
    var x, y := EntryOf(items[j], dir, depth), EntryOf(items[i], dir, depth);
    if j == n {
      EntryIsPart(items[..n], dir, depth, i);
      var b, c :| rest == b + y + c;
      assert PreorderAll(items, dir, depth) == [] + x + (b + y + c);
    } else {
      SiblingsInReverse(items[..n], dir, depth, i, j);
      var a, b, c :| rest == a + x + (b + y + c);
      var head := if IsDot(items[n].name) then [] else EntryOf(items[n], dir, depth);
      Regroup(head, a, x, b + y + c);
      assert PreorderAll(items, dir, depth) == (head + a) + x + (b + y + c);
    }
  }

  /** Every lookup of the walk is made from the entry's parent and finds that entry. */
  lemma EveryLookupIsFaithful(root: Tree, top: string)
    requires WellFormed(root) && IsAbsolute(top)
    ensures AllFaithful(root, Traversal(root, top))
  {
    SubtreeIsFaithful(root, [], At([]), top);
  }
}
