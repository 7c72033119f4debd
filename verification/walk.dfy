/** The traversal shared by hash-binary.js and hash-binary-v2.js: a LIFO worklist seeded with
    the root; a popped directory pushes its children sorted by name and then reversed, so
    they are popped in ascending name order. `Events` is the pre-order reference definition;
    `Traverse` is the worklist loop, proved to produce exactly the same sequence. */
module Walk {
  import opened Wrappers
  import opened Seqs
  import opened Strings
  import opened Ordering
  import opened FsTree

  /** What the loop body sees when it pops a directory or a regular file.
      `content` is `None` when reading the file would throw. */
  datatype Event =
    | DirVisit(path: seq<string>)
    | FileVisit(path: seq<string>, content: Option<seq<Byte>>)

  /** `path.relative(root, current)`: the names below the root joined by "/";
      the root itself is "". */
  function RelPath(segs: seq<string>): string {
    Join(segs, "/")
  }

  /** Concatenation that fails as soon as either side failed (an exception aborts the walk). */
  function Cat<T>(a: Option<seq<T>>, b: Option<seq<T>>): Option<seq<T>> {
    if a.None? || b.None? then None else Some(a.value + b.value)
  }

  lemma CatAssoc<T>(a: Option<seq<T>>, b: Option<seq<T>>, c: Option<seq<T>>)
    ensures Cat(Cat(a, b), c) == Cat(a, Cat(b, c))
  {
    if a.Some? && b.Some? && c.Some? {
      assert (a.value + b.value) + c.value == a.value + (b.value + c.value);
    }
  }

  lemma CatUnit<T>(a: Option<seq<T>>)
    ensures Cat(Some([]), a) == a && Cat(a, Some([])) == a
  {
    if a.Some? {
      assert [] + a.value == a.value && a.value + [] == a.value;
    }
  }

  /** `fs.readdirSync(current).sort()`: ascending by the names' UTF-16 code units. */
  function SortedChildren(cs: seq<Entry>): (r: seq<Entry>)
    ensures multiset(r) == multiset(cs)
    ensures forall e :: e in r ==> e in cs
  {
    var r := SortByKey(cs, SortKey);
    assert forall e :: e in r ==> e in multiset(cs);
    r
  }

  /** Pre-order, ascending-name traversal: a directory is visited before its children,
      regular files are visited, everything else contributes nothing, and a `stat` or
      `readdir` failure anywhere aborts the whole walk. */
  function Events(path: seq<string>, n: Node): Option<seq<Event>>
    decreases n, 1
  {
    match n
    case Dir(cs) => Cat(Some([DirVisit(path)]), ChildEvents(path, n, SortedChildren(cs)))
    case File(b) => Some([FileVisit(path, Some(b))])
    case UnreadableFile => Some([FileVisit(path, None)])
    case Other => Some([])
    case UnlistableDir => None
    case Vanished => None
  }

  function ChildEvents(path: seq<string>, parent: Node, es: seq<Entry>): Option<seq<Event>>
    requires forall e :: e in es ==> e.node < parent
    decreases parent, 0, |es|
  {
    if |es| == 0 then Some([])
    else
      assert es[0] in es;
      assert forall e :: e in es[1..] ==> e in es;
      Cat(Events(path + [es[0].name], es[0].node), ChildEvents(path, parent, es[1..]))
  }

  /** A pending `path.join(current, entry)` on the worklist; `node` is what `statSync` will find. */
  datatype Frame = Frame(path: seq<string>, node: Node)

  /** The frames pushed for the entries `es`, in push order. */
  function Frames(path: seq<string>, es: seq<Entry>): (r: seq<Frame>)
    ensures |r| == |es|
    ensures forall i :: 0 <= i < |es| ==> r[i] == Frame(path + [es[i].name], es[i].node)
  {
    if |es| == 0 then [] else [Frame(path + [es[0].name], es[0].node)] + Frames(path, es[1..])
  }

  /** The events still to come from a worklist: frames are popped from the end. */
  function StackEvents(stack: seq<Frame>): Option<seq<Event>>
    decreases |stack|
  {
    if |stack| == 0 then Some([])
    else
      var top := stack[|stack| - 1];
      Cat(Events(top.path, top.node), StackEvents(stack[..|stack| - 1]))
  }

  lemma FramesAppend(path: seq<string>, a: seq<Entry>, b: seq<Entry>)
    ensures Frames(path, a + b) == Frames(path, a) + Frames(path, b)
  {
  }

  /** Pushing one more entry puts its events before those of the earlier frames. */
  lemma PushOne(rest: seq<Frame>, path: seq<string>, xs: seq<Entry>, e: Entry)
    ensures StackEvents(rest + Frames(path, xs + [e]))
         == Cat(Events(path + [e.name], e.node), StackEvents(rest + Frames(path, xs)))
  {
    var f := Frame(path + [e.name], e.node);
    FramesAppend(path, xs, [e]);
    assert Frames(path, [e]) == [f];
    var below := rest + Frames(path, xs);
    assert rest + Frames(path, xs + [e]) == below + [f];
    LastOfSnoc(below, f);
  }

  lemma LastOfSnoc<T>(a: seq<T>, x: T)
    ensures var s := a + [x]; |s| > 0 && s[|s| - 1] == x && s[..|s| - 1] == a
  {
    var s := a + [x];
    assert s[..|s| - 1] == a;
  }

  /** Pushing reversed children on top of `rest` yields the children's events first, in order. */
  lemma {:induction false} PushReversed(rest: seq<Frame>, path: seq<string>, parent: Node, es: seq<Entry>)
    requires forall e :: e in es ==> e.node < parent
    ensures StackEvents(rest + Frames(path, Reverse(es))) == Cat(ChildEvents(path, parent, es), StackEvents(rest))
    decreases |es|
  {
    if |es| == 0 {
      assert rest + Frames(path, Reverse(es)) == rest;
      CatUnit(StackEvents(rest));
    } else {
      var e := es[0];
      var tail := es[1..];
      assert forall x :: x in tail ==> x in es;
      ReverseCons(es);
      PushOne(rest, path, Reverse(tail), e);
      PushReversed(rest, path, parent, tail);
      CatAssoc(Events(path + [e.name], e.node), ChildEvents(path, parent, tail), StackEvents(rest));
    }
  }

  function SumSizes(es: seq<Entry>): nat {
    if |es| == 0 then 0 else Size(es[0].node) + SumSizes(es[1..])
  }

  function StackSize(stack: seq<Frame>): nat {
    if |stack| == 0 then 0 else Size(stack[0].node) + StackSize(stack[1..])
  }

  lemma StackSizeAppend(a: seq<Frame>, b: seq<Frame>)
    ensures StackSize(a + b) == StackSize(a) + StackSize(b)
  {
    if |a| > 0 {
      assert (a + b)[1..] == a[1..] + b;
      StackSizeAppend(a[1..], b);
    } else {
      assert a + b == b;
    }
  }

  lemma SumSizesAppend(a: seq<Entry>, b: seq<Entry>)
    ensures SumSizes(a + b) == SumSizes(a) + SumSizes(b)
  {
    if |a| > 0 {
      assert (a + b)[1..] == a[1..] + b;
      SumSizesAppend(a[1..], b);
    } else {
      assert a + b == b;
    }
  }

  lemma StackSizeFrames(path: seq<string>, es: seq<Entry>)
    ensures StackSize(Frames(path, es)) == SumSizes(es)
  {
    if |es| > 0 {
      assert Frames(path, es)[1..] == Frames(path, es[1..]);
      StackSizeFrames(path, es[1..]);
    }
  }

  lemma SumSizesReverse(es: seq<Entry>)
    ensures SumSizes(Reverse(es)) == SumSizes(es)
  {
    if |es| > 0 {
      assert Reverse(es) == Reverse(es[1..]) + [es[0]];
      SumSizesAppend(Reverse(es[1..]), [es[0]]);
      SumSizesReverse(es[1..]);
    }
  }

  lemma SumSizesInsert(x: Entry, s: seq<Entry>)
    ensures SumSizes(InsertByKey(x, s, SortKey)) == Size(x.node) + SumSizes(s)
  {
    if |s| > 0 && LexLess(SortKey(s[0]), SortKey(x)) {
      SumSizesInsert(x, s[1..]);
    }
  }

  lemma SumSizesSorted(cs: seq<Entry>)
    ensures SumSizes(SortByKey(cs, SortKey)) == SumSizes(cs)
  {
    if |cs| > 0 {
      SumSizesSorted(cs[1..]);
      SumSizesInsert(cs[0], SortByKey(cs[1..], SortKey));
    }
  }

  lemma SizeOfIsSumSizes(parent: Node, es: seq<Entry>)
    requires forall e :: e in es ==> e.node < parent
    ensures SizeOf(parent, es) == SumSizes(es)
  {
    if |es| > 0 {
      assert forall e :: e in es[1..] ==> e in es;
      SizeOfIsSumSizes(parent, es[1..]);
    }
  }

  /** The bookkeeping of one directory pop: the events it accounts for, and the shrinking worklist. */
  lemma DirStep(acc: seq<Event>, rest: seq<Frame>, path: seq<string>, cs: seq<Entry>)
    ensures var pushed := rest + Frames(path, Reverse(SortedChildren(cs)));
            && Cat(Some(acc + [DirVisit(path)]), StackEvents(pushed))
               == Cat(Some(acc), Cat(Events(path, Dir(cs)), StackEvents(rest)))
            && StackSize(pushed) < StackSize(rest) + Size(Dir(cs))
  {
    var n := Dir(cs);
    var sorted := SortedChildren(cs);
    var entries := Reverse(sorted);
    PushReversed(rest, path, n, sorted);
    CatAssoc(Some([DirVisit(path)]), ChildEvents(path, n, sorted), StackEvents(rest));
    CatAssoc(Some(acc), Some([DirVisit(path)]), Cat(ChildEvents(path, n, sorted), StackEvents(rest)));
    StackSizeAppend(rest, Frames(path, entries));
    StackSizeFrames(path, entries);
    SumSizesReverse(sorted);
    SumSizesSorted(cs);
    SizeOfIsSumSizes(n, cs);
  }

  /** Pushes one frame per entry, in order (the `for` loop over the reversed listing). */
  method PushAll(stack0: seq<Frame>, path: seq<string>, entries: seq<Entry>) returns (stack: seq<Frame>)
    ensures stack == stack0 + Frames(path, entries)
  {
    stack := stack0;
    var i := 0;
    while i < |entries|
      invariant 0 <= i <= |entries|
      invariant stack == stack0 + Frames(path, entries[..i])
    {
      assert entries[..i + 1] == entries[..i] + [entries[i]];
      FramesAppend(path, entries[..i], [entries[i]]);
      stack := stack + [Frame(path + [entries[i].name], entries[i].node)];
      i := i + 1;
    }
    assert entries[..i] == entries;
  }

  /** The worklist loop of `recursivelyHashPath`, collecting what each pop contributes.
      `None` means one of `statSync`/`readdirSync` threw. */
  method Traverse(root: Node) returns (r: Option<seq<Event>>)
    ensures r == Events([], root)
  {
    var stack := [Frame([], root)];
    var acc: seq<Event> := [];
    assert StackEvents(stack) == Cat(Events([], root), Some([]));
    CatUnit(Events([], root));
    CatUnit(StackEvents(stack));
    while |stack| > 0
      invariant Cat(Some(acc), StackEvents(stack)) == Events([], root)
      decreases StackSize(stack)
    {
      var top := stack[|stack| - 1];
      var rest := stack[..|stack| - 1];
      assert stack == rest + [top];
      StackSizeAppend(rest, [top]);
      CatAssoc(Some(acc), Events(top.path, top.node), StackEvents(rest));
      if top.node.Dir? {
        DirStep(acc, rest, top.path, top.node.children);
        stack := PushAll(rest, top.path, Reverse(SortedChildren(top.node.children)));
        acc := acc + [DirVisit(top.path)];
      } else if top.node.File? || top.node.UnreadableFile? {
        var content := if top.node.File? then Some(top.node.bytes) else None;
        CatAssoc(Some(acc), Some([FileVisit(top.path, content)]), StackEvents(rest));
        stack := rest;
        acc := acc + [FileVisit(top.path, content)];
      } else if top.node.Other? {
        CatUnit(StackEvents(rest));
        stack := rest;
      } else {
        return None;
      }
    }
    assert StackEvents(stack) == Some([]);
    CatUnit(Some(acc));
    return Some(acc);
  }

  // ---------------------------------------------------------------------------------------
  // Properties of the traversal.

  /** Some `statSync` or `readdirSync` reachable from `n` throws. */
  predicate Broken(n: Node)
    decreases n
  {
    match n
    case Dir(cs) => exists i :: 0 <= i < |cs| && Broken(cs[i].node)
    case UnlistableDir => true
    case Vanished => true
    case _ => false
  }

  /** Some entry of the listing leads to a throwing `stat` or `readdir`. */
  predicate AnyBroken(es: seq<Entry>) {
    exists i :: 0 <= i < |es| && Broken(es[i].node)
  }

  lemma AnyBrokenPermutation(a: seq<Entry>, b: seq<Entry>)
    requires multiset(a) == multiset(b)
    ensures AnyBroken(a) ==> AnyBroken(b)
  {
    if AnyBroken(a) {
      var i :| 0 <= i < |a| && Broken(a[i].node);
      assert a[i] in multiset(b);
      var j :| 0 <= j < |b| && b[j] == a[i];
    }
  }

  lemma AnyBrokenCons(es: seq<Entry>)
    requires |es| > 0
    ensures AnyBroken(es) <==> Broken(es[0].node) || AnyBroken(es[1..])
  {
    if AnyBroken(es[1..]) {
      var i :| 0 <= i < |es[1..]| && Broken(es[1..][i].node);
      assert es[i + 1] == es[1..][i];
    }
    if AnyBroken(es) {
      var i :| 0 <= i < |es| && Broken(es[i].node);
      if i > 0 {
        assert es[1..][i - 1] == es[i];
      }
    }
  }

  /** The walk aborts exactly when a `stat` or `readdir` somewhere in the tree throws. */
  lemma {:induction false} EventsFailIff(p: seq<string>, n: Node)
    ensures Events(p, n).None? <==> Broken(n)
    decreases n, 1
  {
    if n.Dir? {
      var cs := n.children;
      var sorted := SortedChildren(cs);
      ChildEventsFailIff(p, n, sorted);
      AnyBrokenPermutation(cs, sorted);
      AnyBrokenPermutation(sorted, cs);
      assert Broken(n) <==> AnyBroken(cs);
    }
  }

  lemma {:induction false} ChildEventsFailIff(p: seq<string>, parent: Node, es: seq<Entry>)
    requires forall e :: e in es ==> e.node < parent
    ensures ChildEvents(p, parent, es).None? <==> AnyBroken(es)
    decreases parent, 0, |es|
  {
    if |es| > 0 {
      assert es[0] in es;
      assert forall e :: e in es[1..] ==> e in es;
      EventsFailIff(p + [es[0].name], es[0].node);
      ChildEventsFailIff(p, parent, es[1..]);
      AnyBrokenCons(es);
    }
  }

  /** `q` lies at or below `p`. */
  predicate Extends(q: seq<string>, p: seq<string>) {
    |p| <= |q| && q[..|p|] == p
  }

  /** Pre-order: a directory's own visit comes first and everything after it lies strictly
      below it; a non-directory produces at most its own visit. */
  lemma {:induction false} EventsShape(p: seq<string>, n: Node)
    requires Events(p, n).Some?
    ensures var es := Events(p, n).value;
            && (forall i :: 0 <= i < |es| ==> Extends(es[i].path, p))
            && (n.Dir? ==> |es| > 0 && es[0] == DirVisit(p)
                           && forall i :: 1 <= i < |es| ==> |es[i].path| > |p|)
            && (!n.Dir? ==> forall i :: 0 <= i < |es| ==> es[i].path == p)
    decreases n, 1
  {
    if n.Dir? {
      var sorted := SortedChildren(n.children);
      ChildEventsShape(p, n, sorted);
      var es := Events(p, n).value;
      var ce := ChildEvents(p, n, sorted).value;
      assert es == [DirVisit(p)] + ce;
      forall i | 1 <= i < |es|
        ensures Extends(es[i].path, p) && |es[i].path| > |p|
      {
        assert es[i] == ce[i - 1];
      }
    }
  }

  /** A path at or below the child `p + [x]` lies strictly below `p`, through `x`. */
  lemma ExtendsChild(path: seq<string>, p: seq<string>, x: string)
    requires Extends(path, p + [x])
    ensures Extends(path, p) && |path| > |p| && path[|p|] == x
  {
    assert path[..|p| + 1][|p|] == (p + [x])[|p|];
    assert path[..|p|] == path[..|p| + 1][..|p|];
  }

  /** A path that goes through a later sibling goes through one of the entries. */
  lemma LaterSibling(path: seq<string>, p: seq<string>, es: seq<Entry>)
    requires |es| > 0 && |path| > |p|
    requires exists k :: 0 <= k < |es[1..]| && path[|p|] == es[1..][k].name
    ensures exists k :: 0 <= k < |es| && path[|p|] == es[k].name
  {
    var k :| 0 <= k < |es[1..]| && path[|p|] == es[1..][k].name;
    assert es[1..][k] == es[k + 1];
  }

  lemma {:induction false} ChildEventsShape(p: seq<string>, parent: Node, es: seq<Entry>)
    requires forall e :: e in es ==> e.node < parent
    requires ChildEvents(p, parent, es).Some?
    ensures var evs := ChildEvents(p, parent, es).value;
            forall i :: 0 <= i < |evs| ==>
              && Extends(evs[i].path, p) && |evs[i].path| > |p|
              && exists k :: 0 <= k < |es| && evs[i].path[|p|] == es[k].name
    decreases parent, 0, |es|
  {
    if |es| > 0 {
      assert es[0] in es;
      assert forall e :: e in es[1..] ==> e in es;
      var q := p + [es[0].name];
      EventsShape(q, es[0].node);
      ChildEventsShape(p, parent, es[1..]);
      var a := Events(q, es[0].node).value;
      var b := ChildEvents(p, parent, es[1..]).value;
      var evs := ChildEvents(p, parent, es).value;
      assert evs == a + b;
      forall i | 0 <= i < |evs|
        ensures && Extends(evs[i].path, p) && |evs[i].path| > |p|
                && exists k :: 0 <= k < |es| && evs[i].path[|p|] == es[k].name
      {
        if i < |a| {
          assert evs[i] == a[i];
          ExtendsChild(a[i].path, p, es[0].name);
        } else {
          assert evs[i] == b[i - |a|];
          LaterSibling(b[i - |a|].path, p, es);
        }
      }
    }
  }

  /** No two events name the same path. */
  predicate DistinctPaths(evs: seq<Event>) {
    forall i, j :: 0 <= i < j < |evs| ==> evs[i].path != evs[j].path
  }

  /** Sorting a well-formed directory's listing keeps its names unique and its subtrees well-formed. */
  lemma SortedChildrenWellFormed(cs: seq<Entry>)
    requires WellFormed(Dir(cs))
    ensures UniqueKeys(SortedChildren(cs), NameOf)
    ensures forall e :: e in SortedChildren(cs) ==> WellFormed(e.node) && ValidName(e.name)
  {
    var sorted := SortedChildren(cs);
    UniqueKeysPermutation(cs, sorted, NameOf);
    forall e | e in sorted
      ensures WellFormed(e.node) && ValidName(e.name)
    {
      assert e in multiset(cs);
      var j :| 0 <= j < |cs| && cs[j] == e;
    }
  }

  lemma DistinctPrepend(p: seq<string>, ce: seq<Event>)
    requires DistinctPaths(ce)
    requires forall i :: 0 <= i < |ce| ==> |ce[i].path| > |p|
    ensures DistinctPaths([DirVisit(p)] + ce)
  {
    var es := [DirVisit(p)] + ce;
    forall i, j | 0 <= i < j < |es|
      ensures es[i].path != es[j].path
    {
      assert es[j] == ce[j - 1];
      if i > 0 {
        assert es[i] == ce[i - 1];
      }
    }
  }

  /** In a well-formed tree every path is visited at most once. */
  lemma {:induction false} EventsDistinct(p: seq<string>, n: Node)
    requires WellFormed(n) && Events(p, n).Some?
    ensures DistinctPaths(Events(p, n).value)
    decreases n, 1
  {
    if n.Dir? {
      var sorted := SortedChildren(n.children);
      SortedChildrenWellFormed(n.children);
      ChildEventsDistinct(p, n, sorted);
      ChildEventsShape(p, n, sorted);
      var ce := ChildEvents(p, n, sorted).value;
      assert Events(p, n).value == [DirVisit(p)] + ce;
      DistinctPrepend(p, ce);
    }
  }

  /** A path through the first entry differs from one through a later entry. */
  lemma ApartSiblings(p: seq<string>, es: seq<Entry>, x: seq<string>, y: seq<string>)
    requires |es| > 0 && UniqueKeys(es, NameOf)
    requires Extends(x, p + [es[0].name])
    requires |y| > |p| && exists k :: 0 <= k < |es[1..]| && y[|p|] == es[1..][k].name
    ensures x != y
  {
    ExtendsChild(x, p, es[0].name);
    var k :| 0 <= k < |es[1..]| && y[|p|] == es[1..][k].name;
    assert es[1..][k] == es[k + 1];
    assert NameOf(es[0]) != NameOf(es[k + 1]);
  }

  lemma DistinctAppend(a: seq<Event>, b: seq<Event>)
    requires DistinctPaths(a) && DistinctPaths(b)
    requires forall i, j :: 0 <= i < |a| && 0 <= j < |b| ==> a[i].path != b[j].path
    ensures DistinctPaths(a + b)
  {
    var evs := a + b;
    forall i, j | 0 <= i < j < |evs|
      ensures evs[i].path != evs[j].path
    {
      if j < |a| {
        assert evs[i] == a[i] && evs[j] == a[j];
      } else if i >= |a| {
        assert evs[i] == b[i - |a|] && evs[j] == b[j - |a|];
      } else {
        assert evs[i] == a[i] && evs[j] == b[j - |a|];
      }
    }
  }

  lemma {:induction false} ChildEventsDistinct(p: seq<string>, parent: Node, es: seq<Entry>)
    requires forall e :: e in es ==> e.node < parent
    requires UniqueKeys(es, NameOf)
    requires forall e :: e in es ==> WellFormed(e.node)
    requires ChildEvents(p, parent, es).Some?
    ensures DistinctPaths(ChildEvents(p, parent, es).value)
    decreases parent, 0, |es|
  {
    if |es| > 0 {
      assert es[0] in es;
      assert forall e :: e in es[1..] ==> e in es;
      var q := p + [es[0].name];
      EventsDistinct(q, es[0].node);
      EventsShape(q, es[0].node);
      ChildEventsDistinct(p, parent, es[1..]);
      ChildEventsShape(p, parent, es[1..]);
      var a := Events(q, es[0].node).value;
      var b := ChildEvents(p, parent, es[1..]).value;
      assert ChildEvents(p, parent, es).value == a + b;
      forall i, j | 0 <= i < |a| && 0 <= j < |b|
        ensures a[i].path != b[j].path
      {
        ApartSiblings(p, es, a[i].path, b[j].path);
      }
      DistinctAppend(a, b);
    }
  }

  /** The tree with every listing put in name order, at every depth. Two well-formed trees
      with the same canonical form differ only in the order `readdirSync` reports names. */
  function Canon(n: Node): Node
    decreases n, 1
  {
    match n
    case Dir(cs) => Dir(CanonEntries(n, SortedChildren(cs)))
    case _ => n
  }

  function CanonEntries(parent: Node, es: seq<Entry>): (r: seq<Entry>)
    requires forall e :: e in es ==> e.node < parent
    ensures |r| == |es|
    ensures forall i :: 0 <= i < |es| ==> r[i].name == es[i].name
    decreases parent, 0, |es|
  {
    if |es| == 0 then []
    else
      assert es[0] in es;
      assert forall e :: e in es[1..] ==> e in es;
      [Entry(es[0].name, Canon(es[0].node))] + CanonEntries(parent, es[1..])
  }

  /** The containing node only bounds the recursion; the value does not depend on it. */
  lemma CanonEntriesParent(p1: Node, p2: Node, es: seq<Entry>)
    requires forall e :: e in es ==> e.node < p1
    requires forall e :: e in es ==> e.node < p2
    ensures CanonEntries(p1, es) == CanonEntries(p2, es)
  {
    if |es| > 0 {
      assert forall e :: e in es[1..] ==> e in es;
      CanonEntriesParent(p1, p2, es[1..]);
    }
  }

  lemma ChildEventsParent(p: seq<string>, p1: Node, p2: Node, es: seq<Entry>)
    requires forall e :: e in es ==> e.node < p1
    requires forall e :: e in es ==> e.node < p2
    ensures ChildEvents(p, p1, es) == ChildEvents(p, p2, es)
  {
    if |es| > 0 {
      assert forall e :: e in es[1..] ==> e in es;
      ChildEventsParent(p, p1, p2, es[1..]);
    }
  }

  /** Sorting an already strictly ordered listing leaves it alone. */
  lemma SortStrictlySorted(s: seq<Entry>)
    requires StrictlySortedByKey(s, SortKey)
    ensures SortedChildren(s) == s
  {
    var r := SortedChildren(s);
    forall i, j | 0 <= i < j < |s|
      ensures SortKey(s[i]) != SortKey(s[j])
    {
      LexLessIrreflexive(SortKey(s[i]));
    }
    SortByKeySorted(s, SortKey);
    UniqueKeysPermutation(s, r, SortKey);
    SortedUniqueIsStrict(r, SortKey);
    StrictlySortedUnique(r, s, SortKey);
  }

  /** A canonical listing is strictly ordered by name. */
  lemma CanonListingStrict(cs: seq<Entry>)
    requires WellFormed(Dir(cs))
    ensures StrictlySortedByKey(CanonEntries(Dir(cs), SortedChildren(cs)), SortKey)
  {
    var sorted := SortedChildren(cs);
    SortedChildrenWellFormed(cs);
    SortKeysUnique(sorted);
    SortByKeySorted(cs, SortKey);
    SortedUniqueIsStrict(sorted, SortKey);
  }

  /** The traversal only ever sees the canonical form of a well-formed tree. */
  lemma {:induction false} EventsCanon(p: seq<string>, n: Node)
    requires WellFormed(n)
    ensures Events(p, Canon(n)) == Events(p, n)
    decreases n, 1
  {
    if n.Dir? {
      var sorted := SortedChildren(n.children);
      var ce := CanonEntries(n, sorted);
      CanonListingStrict(n.children);
      SortStrictlySorted(ce);
      SortedChildrenWellFormed(n.children);
      ChildEventsCanon(p, n, Dir(ce), sorted);
    }
  }

  lemma {:induction false} ChildEventsCanon(p: seq<string>, parent: Node, canonParent: Node, es: seq<Entry>)
    requires forall e :: e in es ==> e.node < parent && WellFormed(e.node)
    requires forall e :: e in CanonEntries(parent, es) ==> e.node < canonParent
    ensures ChildEvents(p, canonParent, CanonEntries(parent, es)) == ChildEvents(p, parent, es)
    decreases parent, 0, |es|
  {
    if |es| > 0 {
      assert es[0] in es;
      assert forall e :: e in es[1..] ==> e in es;
      var ce := CanonEntries(parent, es);
      assert ce[1..] == CanonEntries(parent, es[1..]);
      assert forall e :: e in ce[1..] ==> e in ce;
      EventsCanon(p + [es[0].name], es[0].node);
      ChildEventsCanon(p, parent, canonParent, es[1..]);
    }
  }

  /** Listing order is invisible: reordering a directory's listing leaves its canonical form unchanged. */
  lemma CanonForgetsOrder(cs1: seq<Entry>, cs2: seq<Entry>)
    requires multiset(cs1) == multiset(cs2) && UniqueKeys(cs1, NameOf)
    ensures Canon(Dir(cs1)) == Canon(Dir(cs2))
  {
    SortKeysUnique(cs1);
    SortByKeyPermutationInvariant(cs1, cs2, SortKey);
    var sorted := SortedChildren(cs1);
    assert sorted == SortedChildren(cs2);
    assert forall e :: e in sorted ==> e in cs2;
    CanonEntriesParent(Dir(cs1), Dir(cs2), sorted);
  }

  /** Two well-formed trees that differ only in listing order produce the same events. */
  lemma EventsOrderInvariant(p: seq<string>, a: Node, b: Node)
    requires WellFormed(a) && WellFormed(b) && Canon(a) == Canon(b)
    ensures Events(p, a) == Events(p, b)
  {
    EventsCanon(p, a);
    EventsCanon(p, b);
  }

  /** The AppleDouble test `/\/\._/` on a relative path. */
  predicate AppleDouble(rel: string) {
    Contains(rel, "/._")
  }

  predicate ValidPath(segs: seq<string>) {
    forall i :: 0 <= i < |segs| ==> ValidName(segs[i])
  }

  /** An occurrence of "/._" after the separator is one in `b`. */
  lemma OccursAfterSeparator(a: string, b: string, i: int)
    requires OccursAt(a + "/" + b, "/._", i) && i > |a|
    ensures OccursAt(b, "/._", i - |a| - 1)
  {
    var s, n := a + "/" + b, |a| + 1;
    assert s[n..] == b;
    assert s[i..i + 3] == s[n..][i - n..i - n + 3];
  }

  /** An occurrence of "/._" at the separator means `b` starts with "._". */
  lemma OccursAtSeparator(a: string, b: string)
    requires OccursAt(a + "/" + b, "/._", |a|)
    ensures StartsWith(b, "._")
  {
    var s, n := a + "/" + b, |a| + 1;
    assert s[n..n + 2] == b[..2];
    assert s[n..n + 2] == s[|a|..|a| + 3][1..];
  }

  /** An occurrence of "/._" before the separator puts a '/' in `a`. */
  lemma SeparatorBefore(a: string, b: string, i: int)
    requires OccursAt(a + "/" + b, "/._", i) && i < |a|
    ensures a[i] == '/'
  {
    var s := a + "/" + b;
    assert s[i] == s[i..i + 3][0];
  }

  /** The parts of `b` are found again in `a + "/" + b`. */
  lemma OccursInB(a: string, b: string)
    ensures StartsWith(b, "._") ==> OccursAt(a + "/" + b, "/._", |a|)
    ensures forall k :: OccursAt(b, "/._", k) ==> OccursAt(a + "/" + b, "/._", k + |a| + 1)
  {
    var s, n := a + "/" + b, |a| + 1;
    if StartsWith(b, "._") {
      assert s[|a|..|a| + 3] == "/" + b[..2];
    }
    forall k | OccursAt(b, "/._", k)
      ensures OccursAt(s, "/._", k + n)
    {
      assert s[k + n..k + n + 3] == b[k..k + 3];
    }
  }

  lemma ContainsAfterSeparator(a: string, b: string)
    requires '/' !in a
    ensures Contains(a + "/" + b, "/._") <==> StartsWith(b, "._") || Contains(b, "/._")
  {
    var s := a + "/" + b;
    if Contains(s, "/._") {
      var i :| 0 <= i <= |s| && OccursAt(s, "/._", i);
      if i > |a| {
        OccursAfterSeparator(a, b, i);
      } else if i == |a| {
        OccursAtSeparator(a, b);
      } else {
        SeparatorBefore(a, b, i);
        assert false;
      }
    }
    OccursInB(a, b);
  }


  lemma StartsJoin(segs: seq<string>)
    requires |segs| >= 1 && ValidPath(segs)
    ensures StartsWith(Join(segs, "/"), "._") <==> StartsWith(segs[0], "._")
  {
    var j := Join(segs, "/");
    if |segs| > 1 {
      assert j == segs[0] + "/" + Join(segs[1..], "/");
      assert ValidName(segs[0]);
      if |segs[0]| >= 2 {
        assert j[..2] == segs[0][..2];
      } else {
        assert j[1] == '/';
      }
    }
  }

  /** A path is skipped as AppleDouble exactly when some component below the first starts with "._":
      a top-level `._name` is not caught by the test. */
  lemma {:induction false} AppleDoubleIff(segs: seq<string>)
    requires ValidPath(segs)
    ensures AppleDouble(RelPath(segs)) <==> exists i :: 1 <= i < |segs| && StartsWith(segs[i], "._")
    decreases |segs|
  {
    if |segs| <= 1 {
      var r := RelPath(segs);
      if |segs| == 1 {
        assert ValidName(segs[0]);
      }
      assert '/' !in r;
      forall i | 0 <= i <= |r|
        ensures !OccursAt(r, "/._", i)
      {
        if i + 3 <= |r| {
          assert r[i..i + 3][0] == r[i];
        }
      }
    } else {
      var rest := segs[1..];
      assert ValidName(segs[0]);
      assert ValidPath(rest);
      assert RelPath(segs) == segs[0] + "/" + RelPath(rest);
      ContainsAfterSeparator(segs[0], RelPath(rest));
      StartsJoin(rest);
      AppleDoubleIff(rest);
      if exists i :: 1 <= i < |rest| && StartsWith(rest[i], "._") {
        var i :| 1 <= i < |rest| && StartsWith(rest[i], "._");
        assert rest[i] == segs[i + 1];
      }
      if exists i :: 2 <= i < |segs| && StartsWith(segs[i], "._") {
        var i :| 2 <= i < |segs| && StartsWith(segs[i], "._");
        assert rest[i - 1] == segs[i];
      }
    }
  }

  /** A directory with one entry: its visit, then the entry's events. */
  lemma SingleChildEvents(p: seq<string>, e: Entry)
    ensures Events(p, Dir([e])) == Cat(Some([DirVisit(p)]), Events(p + [e.name], e.node))
  {
    var cs := [e];
    assert cs[1..] == [];
    assert SortByKey(cs, SortKey) == InsertByKey(e, SortByKey([], SortKey), SortKey) == [e];
    assert SortedChildren(cs) == cs;
    assert ChildEvents(p, Dir(cs), cs) == Cat(Events(p + [e.name], e.node), ChildEvents(p, Dir(cs), []));
    CatUnit(Events(p + [e.name], e.node));
  }

  /** A directory with two entries whose names are in order `a`, `b`. */
  lemma TwoChildEvents(p: seq<string>, a: Entry, b: Entry)
    requires Utf16Less(a.name, b.name)
    ensures Events(p, Dir([a, b])) == Events(p, Dir([b, a]))
            == Cat(Some([DirVisit(p)]), Cat(Events(p + [a.name], a.node), Events(p + [b.name], b.node)))
  {
    var cs := [a, b];
    LexLessAsymmetric(SortKey(a), SortKey(b));
    assert [b][1..] == [] && [a][1..] == [];
    assert SortByKey([b], SortKey) == InsertByKey(b, SortByKey([], SortKey), SortKey) == [b];
    assert SortByKey([a], SortKey) == InsertByKey(a, SortByKey([], SortKey), SortKey) == [a];
    assert cs[1..] == [b] && [b, a][1..] == [a];
    assert InsertByKey(a, [b], SortKey) == [a, b];
    assert InsertByKey(b, [a], SortKey) == [a] + InsertByKey(b, [], SortKey) == [a, b];
    assert SortedChildren([b, a]) == cs;
    assert SortedChildren(cs) == cs;
    var n1 := Dir(cs);
    var n2 := Dir([b, a]);
    assert ChildEvents(p, n1, [b]) == Cat(Events(p + [b.name], b.node), ChildEvents(p, n1, []));
    CatUnit(Events(p + [b.name], b.node));
    assert ChildEvents(p, n1, cs) == Cat(Events(p + [a.name], a.node), Events(p + [b.name], b.node));
    ChildEventsParent(p, n1, n2, cs);
  }

  lemma NoSlashNoAppleDouble(s: string)
    requires '/' !in s
    ensures !AppleDouble(s)
  {
    forall i | 0 <= i <= |s|
      ensures !OccursAt(s, "/._", i)
    {
      if i + 3 <= |s| {
        assert s[i..i + 3][0] == s[i];
      }
    }
  }

  /** `dir/a.txt` next to the AppleDouble file `dir/._cache`, listed in an arbitrary order. */
  function ScenarioTree(hi: seq<Byte>, junk: seq<Byte>): Node {
    Dir([Entry("dir", Dir([Entry("a.txt", File(hi)), Entry("._cache", File(junk))]))])
  }

  /** A directory holding two files visits itself, then the file whose name sorts first. */
  lemma TwoFileEvents(p: seq<string>, x: string, dx: seq<Byte>, y: string, dy: seq<Byte>)
    requires Utf16Less(y, x)
    ensures Events(p, Dir([Entry(x, File(dx)), Entry(y, File(dy))]))
         == Some([DirVisit(p), FileVisit(p + [y], Some(dy)), FileVisit(p + [x], Some(dx))])
  {
    var a, b := Entry(y, File(dy)), Entry(x, File(dx));
    var fa, fb := FileVisit(p + [y], Some(dy)), FileVisit(p + [x], Some(dx));
    FileEvents(p + [y], dy);
    FileEvents(p + [x], dx);
    TwoChildEvents(p, a, b);
    Triple(DirVisit(p), fa, fb);
  }

  /** `Ａ.txt` (U+FF21) and `😀.txt` (U+1F600): the emoji's leading surrogate 0xD83D is the
      smaller code unit, so it is visited first although it is listed second. */
  lemma SurrogateNameFirst(p: seq<string>, dx: seq<Byte>, dy: seq<Byte>)
    ensures Events(p, Dir([Entry("\U{FF21}.txt", File(dx)), Entry("\U{1F600}.txt", File(dy))]))
         == Some([DirVisit(p), FileVisit(p + ["\U{1F600}.txt"], Some(dy)), FileVisit(p + ["\U{FF21}.txt"], Some(dx))])
  {
    SurrogatePairSortsLow();
    TwoFileEvents(p, "\U{FF21}.txt", dx, "\U{1F600}.txt", dy);
  }

  lemma Pair<T>(a: T, b: T)
    ensures [a] + [b] == [a, b]
  {
  }

  lemma PrependThree<T>(a: T, r: seq<T>)
    requires |r| == 3
    ensures [a] + r == [a, r[0], r[1], r[2]]
  {
  }

  lemma Triple<T>(a: T, b: T, c: T)
    ensures [a] + ([b] + [c]) == [a, b, c]
  {
  }

  lemma ScenarioInnerEvents(hi: seq<Byte>, junk: seq<Byte>)
    ensures Events(["dir"], Dir([Entry("a.txt", File(hi)), Entry("._cache", File(junk))]))
         == Some([DirVisit(["dir"]), FileVisit(["dir", "._cache"], Some(junk)), FileVisit(["dir", "a.txt"], Some(hi))])
  {
    ScenarioNamesOrdered();
    TwoFileEvents(["dir"], "a.txt", hi, "._cache", junk);
    Pair("dir", "._cache");
    Pair("dir", "a.txt");
  }

  lemma FileEvents(p: seq<string>, b: seq<Byte>)
    ensures Events(p, File(b)) == Some([FileVisit(p, Some(b))])
  {
  }

  lemma ScenarioNamesOrdered()
    ensures Utf16Less("._cache", "a.txt")
  {
    FirstUnitOrders("._cache", "a.txt");
  }

  /** Names whose first characters lie below U+D800 sort by those characters. */
  lemma FirstUnitOrders(a: string, b: string)
    requires |a| > 0 && |b| > 0 && a[0] < b[0] && (b[0] as int) < 0xD800
    ensures Utf16Less(a, b)
  {
    assert Utf16(a)[0] == a[0] as int && Utf16(b)[0] == b[0] as int;
    LexLessFirst(Utf16(a), Utf16(b));
  }

  lemma ScenarioEvents(hi: seq<Byte>, junk: seq<Byte>)
    ensures Events([], ScenarioTree(hi, junk))
         == Some([DirVisit([]), DirVisit(["dir"]), FileVisit(["dir", "._cache"], Some(junk)),
                  FileVisit(["dir", "a.txt"], Some(hi))])
  {
    var inner := Dir([Entry("a.txt", File(hi)), Entry("._cache", File(junk))]);
    var rest := [DirVisit(["dir"]), FileVisit(["dir", "._cache"], Some(junk)), FileVisit(["dir", "a.txt"], Some(hi))];
    ScenarioInnerEvents(hi, junk);
    assert [] + ["dir"] == ["dir"];
    OneChildDirEvents([], "dir", inner, rest);
    PrependThree(DirVisit([]), rest);
  }

  /** A directory holding one entry whose own events are `rest`. */
  lemma OneChildDirEvents(p: seq<string>, name: string, n: Node, rest: seq<Event>)
    requires Events(p + [name], n) == Some(rest)
    ensures Events(p, Dir([Entry(name, n)])) == Some([DirVisit(p)] + rest)
  {
    SingleChildEvents(p, Entry(name, n));
  }

  lemma ScenarioRelPaths()
    ensures AppleDouble(RelPath(["dir", "._cache"]))
    ensures !AppleDouble(RelPath(["dir", "a.txt"]))
    ensures RelPath(["dir", "a.txt"]) == "dir/a.txt" && RelPath(["dir"]) == "dir" && RelPath([]) == ""
  {
    var pa, pb := ["dir", "._cache"], ["dir", "a.txt"];
    assert pa[1..] == ["._cache"] && pb[1..] == ["a.txt"];
    assert ValidName("dir") && ValidName("._cache") && ValidName("a.txt");
    assert ValidPath(pa) && ValidPath(pb);
    AppleDoubleIff(pa);
    AppleDoubleIff(pb);
    assert StartsWith(pa[1], "._");
    assert pb[1][1] == '.';
    assert !StartsWith(pb[1], "._");
    assert RelPath(pb) == "dir" + "/" + "a.txt";
  }


  /** Every path the walk of a well-formed tree reports is a sequence of valid names. */
  lemma {:induction false} EventsValidPaths(p: seq<string>, n: Node)
    requires WellFormed(n) && ValidPath(p) && Events(p, n).Some?
    ensures forall i :: 0 <= i < |Events(p, n).value| ==> ValidPath(Events(p, n).value[i].path)
    decreases n, 1
  {
    if n.Dir? {
      var sorted := SortedChildren(n.children);
      SortedChildrenWellFormed(n.children);
      ChildEventsValidPaths(p, n, sorted);
      var ce := ChildEvents(p, n, sorted).value;
      var es := Events(p, n).value;
      assert es == [DirVisit(p)] + ce;
      forall i | 1 <= i < |es|
        ensures ValidPath(es[i].path)
      {
        assert es[i] == ce[i - 1];
      }
    }
  }

  lemma {:induction false} ChildEventsValidPaths(p: seq<string>, parent: Node, es: seq<Entry>)
    requires forall e :: e in es ==> e.node < parent
    requires forall e :: e in es ==> WellFormed(e.node) && ValidName(e.name)
    requires ValidPath(p) && ChildEvents(p, parent, es).Some?
    ensures forall i :: 0 <= i < |ChildEvents(p, parent, es).value| ==> ValidPath(ChildEvents(p, parent, es).value[i].path)
    decreases parent, 0, |es|
  {
    if |es| > 0 {
      assert es[0] in es;
      assert forall e :: e in es[1..] ==> e in es;
      var q := p + [es[0].name];
      assert ValidPath(q);
      EventsValidPaths(q, es[0].node);
      ChildEventsValidPaths(p, parent, es[1..]);
      var a := Events(q, es[0].node).value;
      var b := ChildEvents(p, parent, es[1..]).value;
      var evs := ChildEvents(p, parent, es).value;
      assert evs == a + b;
      forall i | 0 <= i < |evs|
        ensures ValidPath(evs[i].path)
      {
        if i < |a| {
          assert evs[i] == a[i];
        } else {
          assert evs[i] == b[i - |a|];
        }
      }
    }
  }

  lemma RelPathNonEmpty(segs: seq<string>)
    requires |segs| > 0 && ValidPath(segs)
    ensures |RelPath(segs)| > 0
  {
    assert ValidName(segs[0]);
  }

  /** Distinct valid paths have distinct relative-path strings. */
  lemma RelPathInjective(a: seq<string>, b: seq<string>)
    requires ValidPath(a) && ValidPath(b) && RelPath(a) == RelPath(b)
    ensures a == b
  {
    if |a| == 0 || |b| == 0 {
      if |a| > 0 {
        RelPathNonEmpty(a);
      }
      if |b| > 0 {
        RelPathNonEmpty(b);
      }
    } else {
      assert forall i :: 0 <= i < |a| ==> '/' !in a[i] by {
        forall i | 0 <= i < |a| ensures '/' !in a[i] { assert ValidName(a[i]); }
      }
      assert forall i :: 0 <= i < |b| ==> '/' !in b[i] by {
        forall i | 0 <= i < |b| ensures '/' !in b[i] { assert ValidName(b[i]); }
      }
      SplitJoin(a, '/');
      SplitJoin(b, '/');
    }
  }
}
