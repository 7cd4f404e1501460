/** The walk itself: the global stack, the global counters and the process's working directory,
    changed by `doPath` and the loop of `ftw`. */
module Walker {
  import opened Counting
  import opened Walk
  import opened WalkFacts
  import opened Stack

  // ---------------------------------------------------------------- counters

  datatype Stats = Stats(
    nreg: nat, ndir: nat, nblk: nat, nchr: nat, nfifo: nat, nslink: nat, nsock: nat, ntotal: nat)

  const NoStats := Stats(0, 0, 0, 0, 0, 0, 0, 0)

  /** One counter by kind; a mode of no listed kind is not counted. */
  function IncStat(stats: Stats, kind: Kind): Stats {
    match kind
    case Reg => stats.(nreg := stats.nreg + 1)
    case Blk => stats.(nblk := stats.nblk + 1)
    case Chr => stats.(nchr := stats.nchr + 1)
    case Fifo => stats.(nfifo := stats.nfifo + 1)
    case Lnk => stats.(nslink := stats.nslink + 1)
    case Sock => stats.(nsock := stats.nsock + 1)
    case Other => stats
  }

  function CountEvent(stats: Stats, e: Event): Stats {
    match e.what
    case Missing => stats
    case IsDir => stats.(ndir := stats.ndir + 1)
    case IsFile(kind) => IncStat(stats, kind)
  }

  function Tally(events: seq<Event>): Stats {
    if events == [] then NoStats else CountEvent(Tally(events[..|events| - 1]), events[|events| - 1])
  }

  /** How many lookups had a given outcome. */
  function Count(events: seq<Event>, what: What): nat {
    if events == [] then 0
    else Count(events[..|events| - 1], what) + if events[|events| - 1].what == what then 1 else 0
  }

  function Total(stats: Stats): nat {
    stats.nreg + stats.nchr + stats.nblk + stats.nfifo + stats.nslink + stats.nsock + stats.ndir
  }

  /** Each counter is the number of visited entries of its kind, and their total is the number
      of all visited entries except those of a kind with no counter. */
  lemma {:induction false} CountersCountVisits(events: seq<Event>)
    ensures Tally(events) == Stats(
      Count(events, IsFile(Reg)), Count(events, IsDir), Count(events, IsFile(Blk)), Count(events, IsFile(Chr)),
      Count(events, IsFile(Fifo)), Count(events, IsFile(Lnk)), Count(events, IsFile(Sock)), 0)
    ensures Total(Tally(events)) + Count(events, IsFile(Other)) + Count(events, Missing) == |events|
  {
    if events != [] {
      CountersCountVisits(events[..|events| - 1]);
    }
  }

  /** How many lookups led to a given entry of the tree, up to what a directory holds. */
  function Files(root: Tree, events: seq<Event>, kind: Kind): nat {
    if events == [] then 0
    else
      var e := events[|events| - 1];
      Files(root, events[..|events| - 1], kind) + One(Resolve(root, e.cwd, e.name) == File(kind))
  }

  function Directories(root: Tree, events: seq<Event>): nat {
    if events == [] then 0
    else
      var e := events[|events| - 1];
      Directories(root, events[..|events| - 1]) + One(Resolve(root, e.cwd, e.name).Dir?)
  }

  function Failures(root: Tree, events: seq<Event>): nat {
    if events == [] then 0
    else
      var e := events[|events| - 1];
      Failures(root, events[..|events| - 1]) + One(Resolve(root, e.cwd, e.name).Gone?)
  }

  lemma LastIsFaithful(root: Tree, events: seq<Event>)
    requires AllFaithful(root, events) && events != []
    ensures AllFaithful(root, events[..|events| - 1]) && Faithful(root, events[|events| - 1])
  {
    hide Faithful;
    forall x | x in events[..|events| - 1] ensures Faithful(root, x) {
      assert x in events;
    }
  }

  lemma EntryOfLookup(root: Tree, e: Event)
    requires Faithful(root, e)
    ensures var t := Resolve(root, e.cwd, e.name);
      && (e.what.IsFile? ==> t == File(e.what.kind)) && (e.what.IsDir? ==> t.Dir?) && (e.what.Missing? ==> t.Gone?)
  {
    hide TreeAt, Where;
    assert e.what.IsFile? ==> e.what == IsFile(e.what.kind);
  }

  lemma {:induction false} FilesAreCounted(root: Tree, events: seq<Event>, kind: Kind)
    requires AllFaithful(root, events)
    ensures Files(root, events, kind) == Count(events, IsFile(kind))
  {
    hide AllFaithful, Faithful, Resolve;
    if events != [] {
      LastIsFaithful(root, events);
      EntryOfLookup(root, events[|events| - 1]);
      FilesAreCounted(root, events[..|events| - 1], kind);
    }
  }

  lemma {:induction false} DirectoriesAreCounted(root: Tree, events: seq<Event>)
    requires AllFaithful(root, events)
    ensures Directories(root, events) == Count(events, IsDir)
  {
    hide AllFaithful, Faithful, Resolve;
    if events != [] {
      LastIsFaithful(root, events);
      EntryOfLookup(root, events[|events| - 1]);
      DirectoriesAreCounted(root, events[..|events| - 1]);
    }
  }

  lemma {:induction false} FailuresAreCounted(root: Tree, events: seq<Event>)
    requires AllFaithful(root, events)
    ensures Failures(root, events) == Count(events, Missing)
  {
    hide AllFaithful, Faithful, Resolve;
    if events != [] {
      LastIsFaithful(root, events);
      EntryOfLookup(root, events[|events| - 1]);
      FailuresAreCounted(root, events[..|events| - 1]);
    }
  }

  /** The counters against the tree: each is the number of lookups that led to a file of its kind,
      or to a directory; the rest led to files of another kind, or failed. */
  lemma CountersCountEntries(root: Tree, events: seq<Event>)
    requires AllFaithful(root, events)
    ensures Tally(events) == Stats(
      Files(root, events, Reg), Directories(root, events), Files(root, events, Blk), Files(root, events, Chr),
      Files(root, events, Fifo), Files(root, events, Lnk), Files(root, events, Sock), 0)
    ensures Total(Tally(events)) + Files(root, events, Other) + Failures(root, events) == |events|
  {
    hide AllFaithful, Files, Directories, Failures, Count, Tally;
    CountersCountVisits(events);
    forall kind ensures Files(root, events, kind) == Count(events, IsFile(kind)) {
      FilesAreCounted(root, events, kind);
    }
    DirectoriesAreCounted(root, events);
    FailuresAreCounted(root, events);
  }

  lemma NothingTallied()
    ensures Tally([]) == NoStats
  {
  }

  lemma TallyOne(events: seq<Event>, e: Event)
    ensures Tally(events + [e]) == CountEvent(Tally(events), e)
  {
    assert (events + [e])[..|events|] == events;
  }

  lemma PushedOneMore(items: seq<Item>, i: nat, depth: int)
    requires i < |items|
    ensures Pushed(items[..i + 1], depth) ==
      (if IsDot(items[i].name) then [] else [Entry(items[i].name, depth)]) + Pushed(items[..i], depth)
  {
    assert items[..i + 1][..i] == items[..i];
  }

  // ---------------------------------------------------------------- the program

  /** Where a change to a place ends up: the directory "/" has nothing above it but itself. */
  function Landing(start: string, p: Place): Place {
    if start == "/" && p.Above? then At([]) else p
  }

  class Ftw {
    const root: Tree
    const start: string
    const stk: NodeStack
    var cwd: Place
    var stats: Stats
    /** The lookups made so far, in order; those that found something are the calls of `func`. */
    var log: seq<Event>

    ghost predicate Valid()
      reads this, stk, stk.repr
    {
      stk.Valid() && this !in stk.repr && Landing(start, cwd) == cwd
    }

    constructor (root: Tree, start: string)
      ensures Valid() && fresh(stk.repr) && stk.Contents() == []
      ensures this.root == root && this.start == start
      ensures cwd == At([]) && stats == NoStats && log == []
    {
      this.root := root;
      this.start := start;
      stk := new NodeStack();
      cwd := At([]);
      stats := NoStats;
      log := [];
    }

    /** The readdir loop of `doPath`. */
    method PushListing(listing: seq<Item>, depth: int)
      requires Valid()
      modifies stk
      ensures Valid() && fresh(stk.repr - old(stk.repr))
      ensures stk.Contents() == Pushed(listing, depth) + old(stk.Contents())
    {
      hide NodeStack.Valid, NodeStack.Contents, Node.Valid;
      var i := 0;
      while i < |listing|
        invariant 0 <= i <= |listing|
        invariant Valid() && fresh(stk.repr - old(stk.repr))
        invariant stk.Contents() == Pushed(listing[..i], depth) + old(stk.Contents())
      {
        PushedOneMore(listing, i, depth);
        hide Pushed;
        var dirp := listing[i];
        if dirp.name != "." && dirp.name != ".." {
          var elem := new Node(dirp.name, depth);
          stk.Push(elem);
        }
        i := i + 1;
      }
      assert listing[..|listing|] == listing;
    }

    method DoPath(pathName: string, depth: int)
      requires Valid()
      modifies this, stk
      ensures Valid() && fresh(stk.repr - old(stk.repr))
      ensures var e := Entry(pathName, depth);
        && stk.Contents() == NewEntries(root, old(cwd), e) + old(stk.Contents())
        && cwd == Landing(start, NewPlace(root, old(cwd), e))
        && log == old(log) + NewEvents(root, old(cwd), e)
      ensures old(stats) == Tally(old(log)) ==> stats == Tally(log)
      ensures var t, s := Resolve(root, old(cwd), pathName), old(stats);
        && (depth < 0 || t == Gone || t == File(Other) ==> stats == s)
        && (depth >= 0 && t.Dir? ==> stats == s.(ndir := s.ndir + 1))
        && (depth >= 0 && t == File(Reg) ==> stats == s.(nreg := s.nreg + 1))
        && (depth >= 0 && t == File(Blk) ==> stats == s.(nblk := s.nblk + 1))
        && (depth >= 0 && t == File(Chr) ==> stats == s.(nchr := s.nchr + 1))
        && (depth >= 0 && t == File(Fifo) ==> stats == s.(nfifo := s.nfifo + 1))
        && (depth >= 0 && t == File(Lnk) ==> stats == s.(nslink := s.nslink + 1))
        && (depth >= 0 && t == File(Sock) ==> stats == s.(nsock := s.nsock + 1))
    {
      hide NodeStack.Valid, NodeStack.Contents, Node.Valid, TreeAt, Where, Pushed, Tally;
      if depth < 0 {
        cwd := Landing(start, Where(cwd, pathName));
        return;
      }
      var t := Resolve(root, cwd, pathName);
      ghost var event := Lookup(cwd, pathName, depth, WhatIs(t));
      log := log + [Lookup(cwd, pathName, depth, WhatIs(t))];
      TallyOne(old(log), event);
      match t {
        case Gone => return;
        case File(kind) =>
          stats := IncStat(stats, kind);
          return;
        case Dir(readable, searchable, listing) =>
          stats := stats.(ndir := stats.ndir + 1);
          if !readable {
            return;
          }
          if !searchable {
            return;
          }
          cwd := Where(cwd, pathName);
          var d := depth + 1;
          var elem := new Node("..", -1);
          stk.Push(elem);
          PushListing(listing, d);
      }
    }

    /** The stack holds `pending` above the copy of the start, and `elem` is `current`. */
    ghost predicate Holds(elem: Node, current: Entry, pending: seq<Entry>)
      requires Valid()
      reads this, stk, stk.repr, elem
    {
      && current == Entry(elem.fileName, elem.depth)
      && stk.Contents() == pending + [Entry(start, 0)]
      && UnderWay(root, start, log, cwd, current, pending)
    }

    /** One turn of the loop of `ftw`. */
    method Turn(elem: Node, ghost current: Entry, ghost pending: seq<Entry>)
      returns (next: Node, ghost current': Entry, ghost pending': seq<Entry>)
      requires Valid() && Holds(elem, current, pending) && stats == Tally(log)
      requires WellFormed(root) && IsAbsolute(start) && root.Dir? && root.searchable
      modifies this, stk
      ensures Valid() && stats == Tally(log)
      ensures if stk.Contents() == [] then Finished(root, start, log, cwd)
        else
          && Holds(next, current', pending')
          && Weight(root, cwd, [current'] + pending') < old(Weight(root, cwd, [current] + pending))
    {
      hide NodeStack.Valid, NodeStack.Contents, Node.Valid, NewEntries, NewPlace, NewEvents;
      hide WellFormed, Weight, Tally, Where, TreeAt, UnderWay, Finished;
      NextEntry(root, start, log, cwd, current, pending);
      ghost var whole := NewEntries(root, cwd, current) + pending;
      DoPath(elem.fileName, elem.depth);
      ghost var stack := stk.Contents();
      assert stack == whole + [Entry(start, 0)];
      var popped := stk.Pop();
      next := popped;
      assert stk.Contents() == stack[1..] && Entry(next.fileName, next.depth) == stack[0];
      current', pending' := current, pending;
      if whole != [] {
        current', pending' := whole[0], whole[1..];
        assert stack[1..] == pending' + [Entry(start, 0)];
      }
    }

    /** False if the start directory cannot be entered.  Otherwise the loop performs exactly
        the recursive traversal, ends one level above a start directory it could read, if
        there is such a level, and leaves the counters of all it visited. */
    method Walk() returns (entered: bool)
      requires Valid() && stk.Contents() == [] && log == [] && stats == NoStats && cwd == At([])
      requires WellFormed(root) && IsAbsolute(start)
      modifies this, stk
      ensures entered <==> root.Dir? && root.searchable
      ensures !entered ==> log == [] && cwd == At([])
      ensures entered ==>
        && log == Traversal(root, start) && AllFaithful(root, log)
        && (forall path :: Lookups(log, path) == if Listed(root, path) then 1 else 0)
        && cwd == (if root.readable && start != "/" then Above else At([]))
        && CountsEntries(root, log, stats)
        && stats.ntotal == |log| - Files(root, log, Other) - Failures(root, log)
    {
      hide NodeStack.Valid, NodeStack.Contents, Node.Valid, WellFormed, Weight, Tally, Traversal, UnderWay, Finished;
      hide AllFaithful, Lookups, Listed, Files, Directories, Failures, Total;
      entered := root.Dir? && root.searchable;
      if !entered {
        return;
      }
      var elem: Node := new Node(start, 0);
      stk.Push(elem);
      ghost var current, pending := Entry(start, 0), [];
      StartOfWalk(root, start);
      NothingTallied();
      var empty := stk.IsEmpty();
      while !empty
        invariant Valid() && (empty <==> stk.Contents() == []) && stats == Tally(log)
        invariant if empty then Finished(root, start, log, cwd) else Holds(elem, current, pending)
        decreases if empty then 0 else 1 + Weight(root, cwd, [current] + pending)
      {
        elem, current, pending := Turn(elem, current, pending);
        empty := stk.IsEmpty();
      }
      FinishedMeans(root, start, log, cwd);
      WalkIsComplete(root, start, log);
      stats := stats.(ntotal := Total(stats));
    }
  }

  lemma TraversalIsComplete(root: Tree, start: string)
    requires WellFormed(root) && IsAbsolute(start)
    ensures AllFaithful(root, Traversal(root, start))
    ensures forall path :: Lookups(Traversal(root, start), path) == if Listed(root, path) then 1 else 0
  {
    hide AllFaithful, Lookups, Listed, Traversal, WellFormed;
    EveryLookupIsFaithful(root, start);
    forall path ensures Lookups(Traversal(root, start), path) == if Listed(root, path) then 1 else 0 {
      EachReachableEntryOnce(root, start, path);
    }
  }

  /** The counters, before they are added up. */
  predicate CountsEntries(root: Tree, log: seq<Event>, stats: Stats) {
    && stats.nreg == Files(root, log, Reg) && stats.ndir == Directories(root, log)
    && stats.nblk == Files(root, log, Blk) && stats.nchr == Files(root, log, Chr)
    && stats.nfifo == Files(root, log, Fifo) && stats.nslink == Files(root, log, Lnk)
    && stats.nsock == Files(root, log, Sock)
  }

  lemma WalkIsComplete(root: Tree, start: string, log: seq<Event>)
    requires WellFormed(root) && IsAbsolute(start) && log == Traversal(root, start)
    ensures AllFaithful(root, log)
    ensures forall path :: Lookups(log, path) == if Listed(root, path) then 1 else 0
    ensures CountsEntries(root, log, Tally(log))
    ensures Total(Tally(log)) == |log| - Files(root, log, Other) - Failures(root, log)
  {
    hide AllFaithful, Lookups, Listed, Traversal, WellFormed, Files, Directories, Failures, Tally, Total;
    TraversalIsComplete(root, start);
    CountersCountEntries(root, log);
  }

  function Last(root: Tree): Place {
    if root.Dir? && root.readable then Above else At([])
  }

  /** The loop's invariant over values: `current` is about to be processed and `pending` is the
      stack without the copy of the start at its bottom. */
  ghost predicate UnderWay(
    root: Tree, start: string, log: seq<Event>, cwd: Place, current: Entry, pending: seq<Entry>)
  {
    && cwd.At? && AllPlain(pending) && Grounded(cwd, [current] + pending)
    && log + Expected(root, cwd, [current] + pending) == Traversal(root, start)
    && (Plain(current) ==> Ends(cwd, [current] + pending) == Last(root))
    && (!Plain(current) ==> current == Entry(start, 0) && pending == [] && cwd == At([]))
  }

  ghost predicate Finished(root: Tree, start: string, log: seq<Event>, cwd: Place) {
    log == Traversal(root, start) && cwd == Landing(start, Last(root))
  }

  lemma FinishedMeans(root: Tree, start: string, log: seq<Event>, cwd: Place)
    requires Finished(root, start, log, cwd)
    ensures log == Traversal(root, start) && cwd == Landing(start, Last(root))
  {
  }

  lemma StartOfWalk(root: Tree, start: string)
    requires IsAbsolute(start)
    ensures UnderWay(root, start, [], At([]), Entry(start, 0), [])
  {
    EntryOnTop(root, At([]), Entry(start, 0), []);
  }

  /** One turn of the loop: the walk goes on with a lighter stack, or it is finished. */
  lemma NextEntry(root: Tree, start: string, log: seq<Event>, cwd: Place, current: Entry, pending: seq<Entry>)
    requires WellFormed(root) && root.Dir? && root.searchable && IsAbsolute(start)
    requires UnderWay(root, start, log, cwd, current, pending)
    ensures var stack := NewEntries(root, cwd, current) + pending;
      var place := NewPlace(root, cwd, current);
      var log' := log + NewEvents(root, cwd, current);
      if stack == [] then Finished(root, start, log', Landing(start, place))
      else
        && place.At?
        && UnderWay(root, start, log', place, stack[0], stack[1..])
        && Weight(root, place, [stack[0]] + stack[1..]) < Weight(root, cwd, [current] + pending)
  {
    hide WellFormed, NewEntries, NewPlace, NewEvents, TreeAt, Where, Traversal, Weight, Expected, Ends, Grounded, Last;
    EntryAdvances(root, cwd, current, pending);
    var stack := NewEntries(root, cwd, current) + pending;
    var place := NewPlace(root, cwd, current);
    if !Plain(current) {
      FirstDirectory(root, start);
      assert stack == NewEntries(root, cwd, current);
    }
    if stack != [] {
      assert [stack[0]] + stack[1..] == stack;
      GroundedStart(place, stack);
    } else {
      NothingBelow(root, place);
    }
    assert log + (NewEvents(root, cwd, current) + Expected(root, place, stack))
        == (log + NewEvents(root, cwd, current)) + Expected(root, place, stack);
  }

  lemma GroundedStart(cwd: Place, stack: seq<Entry>)
    requires stack != [] && Grounded(cwd, stack)
    ensures cwd.At?
  {
  }

  /** Processing the start itself: the entries pushed will end above it, if there are any. */
  lemma FirstDirectory(root: Tree, start: string)
    requires WellFormed(root) && root.Dir? && root.searchable && IsAbsolute(start)
    ensures var e := Entry(start, 0);
      Ends(NewPlace(root, At([]), e), NewEntries(root, At([]), e)) == Last(root)
  {
    if root.readable {
      ListingOnTop(root, At([]), |root.listing|, 1, [Marker]);
      MarkerOnTop(root, At([]), Marker, []);
      assert root.listing[..|root.listing|] == root.listing;
      assert [Marker] + [] == [Marker];
    }
  }
}
