/** The call trace: a forest given by parent indices, and its printing as a tree. */
module TraceForest {
  import opened Common

  /** What the traversal looks at in a `TraceEntry`. */
  datatype Entry = Entry(id: nat, parentId: Option<nat>)

  type Trace = seq<Entry>

  /** Entries are pushed in the order in which calls start: the id is the index, a parent comes first. */
  predicate WellFormed(t: Trace) {
    forall i :: 0 <= i < |t| ==> t[i].id == i && (t[i].parentId.Some? ==> t[i].parentId.value < i)
  }

  /** One printed line: the entry, its indentation, whether it closes its siblings, and for each
      vertical bar to its left whether it is blank. */
  datatype Line = Line(id: nat, indent: nat, isLast: bool, prefix: seq<bool>)

  function GetParent(t: Trace, id: nat): Option<Entry> {
    if id < |t| && t[id].parentId.Some? && t[id].parentId.value < |t| then Some(t[t[id].parentId.value]) else None
  }

  /** The entries from index `from` on whose parent is `p`, in order. */
  function Siblings(t: Trace, p: Option<nat>, from: nat): (r: seq<Entry>)
    requires from <= |t|
    ensures forall e :: e in r ==> e in t && e.parentId == p
    decreases |t| - from
  {
    if from == |t| then []
    else (if t[from].parentId == p then [t[from]] else []) + Siblings(t, p, from + 1)
  }

  function GetChildren(t: Trace, id: nat): seq<Entry> {
    Siblings(t, Some(id), 0)
  }

  /** The two lookups are inverse to each other. */
  lemma ParentsAndChildren(t: Trace, p: nat, c: nat)
    requires WellFormed(t) && p < |t| && c < |t|
    ensures t[c] in GetChildren(t, p) <==> GetParent(t, c) == Some(t[p])
  {
    if t[c].parentId == Some(p) {
      SiblingsComplete(t, Some(p), 0, c);
    }
  }

  lemma {:induction false} SiblingsComplete(t: Trace, p: Option<nat>, from: nat, c: nat)
    requires from <= c < |t| && t[c].parentId == p
    ensures t[c] in Siblings(t, p, from)
    decreases c - from
  {
    if from < c {
      SiblingsComplete(t, p, from + 1, c);
    }
  }

  function ChildPrefix(indent: nat, isLast: bool, prefix: seq<bool>): seq<bool> {
    if indent > 0 then prefix + [isLast] else prefix
  }

  /** The lines printed for entry `id` and everything below it. */
  function Visit(t: Trace, id: nat, indent: nat, isLast: bool, prefix: seq<bool>): seq<Line>
    requires WellFormed(t) && id < |t|
    decreases |t| - id, 0
  {
    [Line(id, indent, isLast, prefix)]
    + VisitFrom(t, Some(id), id + 1, indent + 1, ChildPrefix(indent, isLast, prefix))
  }

  /** The lines of the children of `p` (the roots, for `None`) from index `from` on. */
  function VisitFrom(t: Trace, p: Option<nat>, from: nat, indent: nat, prefix: seq<bool>): seq<Line>
    requires WellFormed(t) && from <= |t|
    decreases |t| - from, 1
  {
    if from == |t| then []
    else
      (if t[from].parentId == p then Visit(t, from, indent, Siblings(t, p, from + 1) == [], prefix) else [])
      + VisitFrom(t, p, from + 1, indent, prefix)
  }

  function PrintedTree(t: Trace): seq<Line>
    requires WellFormed(t)
  {
    VisitFrom(t, None, 0, 0, [])
  }

  // ---------------------------------------------------------------- every entry once

  /** `a` is `x` or an ancestor of it. */
  predicate IsAbove(t: Trace, a: nat, x: nat)
    requires WellFormed(t) && x < |t|
  {
    a == x || (t[x].parentId.Some? && IsAbove(t, a, t[x].parentId.value))
  }

  lemma {:induction false} AboveIsSmaller(t: Trace, a: nat, x: nat)
    requires WellFormed(t) && x < |t| && IsAbove(t, a, x)
    ensures a <= x
  {
    if a != x {
      AboveIsSmaller(t, a, t[x].parentId.value);
    }
  }

  /** What is above the same entry is above each other. */
  lemma {:induction false} AboveIsChain(t: Trace, a: nat, b: nat, x: nat)
    requires WellFormed(t) && x < |t| && IsAbove(t, a, x) && IsAbove(t, b, x) && a <= b
    ensures b < |t| && IsAbove(t, a, b)
  {
    AboveIsSmaller(t, b, x);
    if b != x && a != x {
      AboveIsChain(t, a, b, t[x].parentId.value);
    }
  }

  lemma SiblingsDisjoint(t: Trace, a: nat, b: nat, x: nat)
    requires WellFormed(t) && a < b < |t| && x < |t|
    requires t[a].parentId == t[b].parentId && IsAbove(t, a, x)
    ensures !IsAbove(t, b, x)
  {
    if IsAbove(t, b, x) {
      AboveIsChain(t, a, b, x);
      AboveIsSmaller(t, a, t[b].parentId.value);
    }
  }

  /** Some child of `p` at or after `from` is above `x`. */
  ghost predicate Under(t: Trace, p: Option<nat>, from: nat, x: nat)
    requires WellFormed(t) && x < |t|
  {
    exists c :: from <= c < |t| && t[c].parentId == p && IsAbove(t, c, x)
  }

  lemma UnderStep(t: Trace, p: Option<nat>, from: nat, x: nat)
    requires WellFormed(t) && from < |t| && x < |t|
    ensures var here := t[from].parentId == p && IsAbove(t, from, x);
            && (Under(t, p, from, x) <==> here || Under(t, p, from + 1, x))
            && !(here && Under(t, p, from + 1, x))
  {
    if t[from].parentId == p && IsAbove(t, from, x) {
      forall c | from + 1 <= c < |t| && t[c].parentId == p ensures !IsAbove(t, c, x) {
        SiblingsDisjoint(t, from, c, x);
      }
    }
  }

  lemma {:induction false} UnderChild(t: Trace, id: nat, x: nat)
    requires WellFormed(t) && id < |t| && x < |t|
    ensures IsAbove(t, id, x) && x != id <==> Under(t, Some(id), id + 1, x)
  {
    if x != id && IsAbove(t, id, x) {
      var y := t[x].parentId.value;
      UnderChild(t, id, y);
      if y == id {
        assert IsAbove(t, x, x);
      } else {
        var c :| id + 1 <= c < |t| && t[c].parentId == Some(id) && IsAbove(t, c, y);
        assert IsAbove(t, c, x);
      }
    }
    if Under(t, Some(id), id + 1, x) {
      var c :| id + 1 <= c < |t| && t[c].parentId == Some(id) && IsAbove(t, c, x);
      AboveIsSmaller(t, c, x);
      AboveTransitive(t, id, c, x);
    }
  }

  lemma {:induction false} AboveTransitive(t: Trace, a: nat, c: nat, x: nat)
    requires WellFormed(t) && x < |t| && c < |t| && t[c].parentId == Some(a) && IsAbove(t, c, x)
    ensures IsAbove(t, a, x)
  {
    if c == x {
      assert IsAbove(t, a, a);
    } else {
      AboveTransitive(t, a, c, t[x].parentId.value);
    }
  }

  lemma {:induction false} UnderRoot(t: Trace, x: nat)
    requires WellFormed(t) && x < |t|
    ensures Under(t, None, 0, x)
  {
    if t[x].parentId.None? {
      assert IsAbove(t, x, x);
    } else {
      var y := t[x].parentId.value;
      UnderRoot(t, y);
      var c :| 0 <= c < |t| && t[c].parentId == None && IsAbove(t, c, y);
      assert IsAbove(t, c, x);
    }
  }

  function Times(lines: seq<Line>, x: nat): nat {
    if lines == [] then 0 else (if lines[0].id == x then 1 else 0) + Times(lines[1..], x)
  }

  lemma {:induction false} TimesConcat(a: seq<Line>, b: seq<Line>, x: nat)
    ensures Times(a + b, x) == Times(a, x) + Times(b, x)
  {
    if a == [] {
      assert a + b == b;
    } else {
      assert (a + b)[1..] == a[1..] + b;
      TimesConcat(a[1..], b, x);
    }
  }

  lemma {:induction false} VisitTimes(t: Trace, id: nat, indent: nat, isLast: bool, prefix: seq<bool>, x: nat)
    requires WellFormed(t) && id < |t| && x < |t|
    ensures Times(Visit(t, id, indent, isLast, prefix), x) == if IsAbove(t, id, x) then 1 else 0
    decreases |t| - id, 0
  {
    var below := VisitFrom(t, Some(id), id + 1, indent + 1, ChildPrefix(indent, isLast, prefix));
    VisitFromTimes(t, Some(id), id + 1, indent + 1, ChildPrefix(indent, isLast, prefix), x);
    UnderChild(t, id, x);
    TimesCons(Line(id, indent, isLast, prefix), below, x);
  }

  lemma TimesCons(line: Line, below: seq<Line>, x: nat)
    ensures Times([line] + below, x) == (if line.id == x then 1 else 0) + Times(below, x)
  {
    assert ([line] + below)[1..] == below;
  }

  lemma {:induction false} VisitFromTimes(t: Trace, p: Option<nat>, from: nat, indent: nat, prefix: seq<bool>, x: nat)
    requires WellFormed(t) && from <= |t| && x < |t|
    ensures Times(VisitFrom(t, p, from, indent, prefix), x) == if Under(t, p, from, x) then 1 else 0
    decreases |t| - from, 1
  {
    if from < |t| {
      VisitFromTimes(t, p, from + 1, indent, prefix, x);
      VisitFromHead(t, p, from, indent, prefix);
      UnderStep(t, p, from, x);
      if t[from].parentId == p {
        var isLast := Siblings(t, p, from + 1) == [];
        VisitTimes(t, from, indent, isLast, prefix, x);
        TimesConcat(Visit(t, from, indent, isLast, prefix), VisitFrom(t, p, from + 1, indent, prefix), x);
      }
    }
  }

  lemma VisitFromHead(t: Trace, p: Option<nat>, from: nat, indent: nat, prefix: seq<bool>)
    requires WellFormed(t) && from < |t|
    ensures t[from].parentId == p ==>
              VisitFrom(t, p, from, indent, prefix) ==
              Visit(t, from, indent, Siblings(t, p, from + 1) == [], prefix) + VisitFrom(t, p, from + 1, indent, prefix)
    ensures t[from].parentId != p ==>
              VisitFrom(t, p, from, indent, prefix) == VisitFrom(t, p, from + 1, indent, prefix)
  {
    var rest := VisitFrom(t, p, from + 1, indent, prefix);
    assert [] + rest == rest;
  }

  /** The printed tree shows every entry exactly once. */
  lemma EveryEntryOnce(t: Trace, x: nat)
    requires WellFormed(t) && x < |t|
    ensures Times(PrintedTree(t), x) == 1
  {
    VisitFromTimes(t, None, 0, 0, [], x);
    UnderRoot(t, x);
  }

  // ---------------------------------------------------------------- order and layout

  /** Number of ancestors. */
  function Depth(t: Trace, x: nat): nat
    requires WellFormed(t) && x < |t|
  {
    if t[x].parentId.None? then 0 else 1 + Depth(t, t[x].parentId.value)
  }

  predicate ClosesSiblings(t: Trace, x: nat)
    requires x < |t|
  {
    forall j :: x < j < |t| ==> t[j].parentId != t[x].parentId
  }

  /** For each ancestor below the root, from the top: does it close its siblings? */
  function AncestorFlags(t: Trace, x: nat): (r: seq<bool>)
    requires WellFormed(t) && x < |t|
    ensures |r| == if Depth(t, x) == 0 then 0 else Depth(t, x) - 1
  {
    if t[x].parentId.None? then []
    else
      var p := t[x].parentId.value;
      if t[p].parentId.None? then [] else AncestorFlags(t, p) + [ClosesSiblings(t, p)]
  }

  ghost predicate LineOk(t: Trace, l: Line)
    requires WellFormed(t)
  {
    && l.id < |t|
    && l.indent == Depth(t, l.id)
    && l.isLast == ClosesSiblings(t, l.id)
    && l.prefix == AncestorFlags(t, l.id)
  }

  lemma {:induction false} NoMoreSiblings(t: Trace, p: Option<nat>, from: nat)
    requires from <= |t|
    ensures Siblings(t, p, from) == [] <==> forall j :: from <= j < |t| ==> t[j].parentId != p
    decreases |t| - from
  {
    if from < |t| {
      NoMoreSiblings(t, p, from + 1);
    }
  }

  lemma {:induction false} VisitLayout(t: Trace, id: nat, indent: nat, isLast: bool, prefix: seq<bool>)
    requires WellFormed(t) && id < |t| && LineOk(t, Line(id, indent, isLast, prefix))
    ensures forall k :: 0 <= k < |Visit(t, id, indent, isLast, prefix)| ==>
              LineOk(t, Visit(t, id, indent, isLast, prefix)[k])
    decreases |t| - id, 0
  {
    VisitFromLayout(t, Some(id), id + 1, indent + 1, ChildPrefix(indent, isLast, prefix));
  }

  lemma {:induction false} VisitFromLayout(t: Trace, p: Option<nat>, from: nat, indent: nat, prefix: seq<bool>)
    requires WellFormed(t) && from <= |t|
    requires forall c :: from <= c < |t| && t[c].parentId == p ==>
               Depth(t, c) == indent && AncestorFlags(t, c) == prefix
    ensures forall k :: 0 <= k < |VisitFrom(t, p, from, indent, prefix)| ==>
              LineOk(t, VisitFrom(t, p, from, indent, prefix)[k])
    decreases |t| - from, 1
  {
    if from < |t| {
      VisitFromLayout(t, p, from + 1, indent, prefix);
      if t[from].parentId == p {
        NoMoreSiblings(t, p, from + 1);
        VisitLayout(t, from, indent, Siblings(t, p, from + 1) == [], prefix);
      }
    }
  }

  /** Indentation is the number of ancestors, and connectors and bars show which of them close their siblings. */
  lemma Layout(t: Trace, k: nat)
    requires WellFormed(t) && k < |PrintedTree(t)|
    ensures LineOk(t, PrintedTree(t)[k])
  {
    VisitFromLayout(t, None, 0, 0, []);
  }

  /** Every entry's parent has been seen when the entry is printed. */
  ghost predicate ParentsFirst(t: Trace, lines: seq<Line>, seen: set<nat>) {
    lines == [] ||
    (&& lines[0].id < |t|
     && (t[lines[0].id].parentId.Some? ==> t[lines[0].id].parentId.value in seen)
     && ParentsFirst(t, lines[1..], seen + {lines[0].id}))
  }

  lemma {:induction false} ParentsFirstConcat(t: Trace, a: seq<Line>, b: seq<Line>, seen: set<nat>)
    requires ParentsFirst(t, a, seen) && ParentsFirst(t, b, seen)
    ensures ParentsFirst(t, a + b, seen)
  {
    if a == [] {
      assert a + b == b;
    } else {
      assert (a + b)[1..] == a[1..] + b;
      SeenMore(t, b, seen, seen + {a[0].id});
      ParentsFirstConcat(t, a[1..], b, seen + {a[0].id});
    }
  }

  lemma {:induction false} SeenMore(t: Trace, a: seq<Line>, seen: set<nat>, more: set<nat>)
    requires ParentsFirst(t, a, seen) && seen <= more
    ensures ParentsFirst(t, a, more)
  {
    if a != [] {
      SeenMore(t, a[1..], seen + {a[0].id}, more + {a[0].id});
    }
  }

  lemma {:induction false} VisitParentsFirst(
    t: Trace, id: nat, indent: nat, isLast: bool, prefix: seq<bool>, seen: set<nat>)
    requires WellFormed(t) && id < |t| && (t[id].parentId.Some? ==> t[id].parentId.value in seen)
    ensures ParentsFirst(t, Visit(t, id, indent, isLast, prefix), seen)
    decreases |t| - id, 0
  {
    var below := VisitFrom(t, Some(id), id + 1, indent + 1, ChildPrefix(indent, isLast, prefix));
    VisitFromParentsFirst(t, Some(id), id + 1, indent + 1, ChildPrefix(indent, isLast, prefix), seen + {id});
    assert Visit(t, id, indent, isLast, prefix)[1..] == below;
  }

  lemma {:induction false} VisitFromParentsFirst(
    t: Trace, p: Option<nat>, from: nat, indent: nat, prefix: seq<bool>, seen: set<nat>)
    requires WellFormed(t) && from <= |t| && (p.Some? ==> p.value in seen)
    ensures ParentsFirst(t, VisitFrom(t, p, from, indent, prefix), seen)
    decreases |t| - from, 1
  {
    if from < |t| {
      VisitFromParentsFirst(t, p, from + 1, indent, prefix, seen);
      var rest := VisitFrom(t, p, from + 1, indent, prefix);
      if t[from].parentId == p {
        var isLast := Siblings(t, p, from + 1) == [];
        VisitParentsFirst(t, from, indent, isLast, prefix, seen);
        ParentsFirstConcat(t, Visit(t, from, indent, isLast, prefix), rest, seen);
      } else {
        assert [] + rest == rest;
      }
    }
  }

  lemma {:induction false} FindParent(t: Trace, lines: seq<Line>, seen: set<nat>, k: nat) returns (j: nat)
    requires ParentsFirst(t, lines, seen) && k < |lines|
    ensures lines[k].id < |t|
    ensures t[lines[k].id].parentId.Some? && t[lines[k].id].parentId.value !in seen ==>
              j < k && lines[j].id == t[lines[k].id].parentId.value
    decreases |lines|
  {
    j := 0;
    if k > 0 {
      j := FindParent(t, lines[1..], seen + {lines[0].id}, k - 1);
      if t[lines[k].id].parentId == Some(lines[0].id) {
        j := 0;
      } else {
        j := j + 1;
      }
    }
  }

  /** A child's line comes after its parent's. */
  lemma ParentBeforeChild(t: Trace, k: nat) returns (j: nat)
    requires WellFormed(t) && k < |PrintedTree(t)|
    ensures PrintedTree(t)[k].id < |t|
    ensures var parent := GetParent(t, PrintedTree(t)[k].id);
            parent.Some? ==> j < k && PrintedTree(t)[j].id == parent.value.id
  {
    VisitFromParentsFirst(t, None, 0, 0, [], {});
    j := FindParent(t, PrintedTree(t), {}, k);
  }

  // ---------------------------------------------------------------- the order of the lines

  /** Siblings, in the order of their indices. */
  ghost predicate InOrder(t: Trace, c: nat, d: nat) {
    c < d < |t| && t[c].parentId == t[d].parentId
  }

  /** The entries are below two siblings, `a` below the one with the smaller index. */
  ghost predicate Left(t: Trace, a: nat, b: nat)
    requires WellFormed(t) && a < |t| && b < |t|
  {
    exists c, d :: InOrder(t, c, d) && IsAbove(t, c, a) && IsAbove(t, d, b)
  }

  ghost predicate Precedes(t: Trace, a: nat, b: nat)
    requires WellFormed(t) && a < |t| && b < |t|
  {
    (a != b && IsAbove(t, a, b)) || Left(t, a, b)
  }

  ghost predicate Known(t: Trace, lines: seq<Line>) {
    forall k :: 0 <= k < |lines| ==> lines[k].id < |t|
  }

  ghost predicate Ordered(t: Trace, lines: seq<Line>)
    requires WellFormed(t) && Known(t, lines)
  {
    forall j, k :: 0 <= j < k < |lines| ==> Precedes(t, lines[j].id, lines[k].id)
  }

  ghost predicate AllBelow(t: Trace, id: nat, lines: seq<Line>)
    requires WellFormed(t)
  {
    Known(t, lines) && forall k :: 0 <= k < |lines| ==> IsAbove(t, id, lines[k].id)
  }

  ghost predicate AllUnder(t: Trace, p: Option<nat>, from: nat, lines: seq<Line>)
    requires WellFormed(t)
  {
    Known(t, lines) && forall k :: 0 <= k < |lines| ==> Under(t, p, from, lines[k].id)
  }

  lemma JoinOrdered(t: Trace, a: seq<Line>, b: seq<Line>)
    requires WellFormed(t) && Known(t, a) && Known(t, b) && Ordered(t, a) && Ordered(t, b)
    requires forall j, k :: 0 <= j < |a| && 0 <= k < |b| ==> Precedes(t, a[j].id, b[k].id)
    ensures Known(t, a + b) && Ordered(t, a + b)
  {
  }

  lemma {:induction false} VisitOrdered(t: Trace, id: nat, indent: nat, isLast: bool, prefix: seq<bool>)
    requires WellFormed(t) && id < |t|
    ensures var lines := Visit(t, id, indent, isLast, prefix); AllBelow(t, id, lines) && Ordered(t, lines)
    decreases |t| - id, 0
  {
    var line := [Line(id, indent, isLast, prefix)];
    var below := VisitFrom(t, Some(id), id + 1, indent + 1, ChildPrefix(indent, isLast, prefix));
    VisitFromOrdered(t, Some(id), id + 1, indent + 1, ChildPrefix(indent, isLast, prefix));
    forall k | 0 <= k < |below| ensures IsAbove(t, id, below[k].id) && id != below[k].id {
      UnderChild(t, id, below[k].id);
    }
    JoinOrdered(t, line, below);
    assert IsAbove(t, id, id);
  }

  lemma {:induction false} VisitFromOrdered(t: Trace, p: Option<nat>, from: nat, indent: nat, prefix: seq<bool>)
    requires WellFormed(t) && from <= |t|
    ensures var lines := VisitFrom(t, p, from, indent, prefix); AllUnder(t, p, from, lines) && Ordered(t, lines)
    decreases |t| - from, 1
  {
    if from < |t| {
      VisitFromOrdered(t, p, from + 1, indent, prefix);
      var rest := VisitFrom(t, p, from + 1, indent, prefix);
      UnderLater(t, p, from, rest);
      var isLast := Siblings(t, p, from + 1) == [];
      if t[from].parentId == p {
        VisitOrdered(t, from, indent, isLast, prefix);
        FirstThenRest(t, p, from, Visit(t, from, indent, isLast, prefix), rest);
      }
      VisitFromHead(t, p, from, indent, prefix);
    }
  }

  lemma UnderLater(t: Trace, p: Option<nat>, from: nat, lines: seq<Line>)
    requires WellFormed(t) && from < |t| && AllUnder(t, p, from + 1, lines)
    ensures AllUnder(t, p, from, lines)
  {
    forall k | 0 <= k < |lines| ensures Under(t, p, from, lines[k].id) {
      UnderStep(t, p, from, lines[k].id);
    }
  }

  lemma FirstThenRest(t: Trace, p: Option<nat>, from: nat, first: seq<Line>, rest: seq<Line>)
    requires WellFormed(t) && from < |t| && t[from].parentId == p
    requires AllBelow(t, from, first) && AllUnder(t, p, from + 1, rest) && AllUnder(t, p, from, rest)
    requires Ordered(t, first) && Ordered(t, rest)
    ensures AllUnder(t, p, from, first + rest) && Ordered(t, first + rest)
  {
    forall j, k | 0 <= j < |first| && 0 <= k < |rest| ensures Precedes(t, first[j].id, rest[k].id) {
      var d :| from + 1 <= d < |t| && t[d].parentId == p && IsAbove(t, d, rest[k].id);
      assert InOrder(t, from, d);
    }
    JoinOrdered(t, first, rest);
  }

  lemma EarlierPrecedes(t: Trace, j: nat, k: nat)
    requires WellFormed(t) && j < k < |PrintedTree(t)|
    ensures PrintedTree(t)[j].id < |t| && PrintedTree(t)[k].id < |t|
    ensures Precedes(t, PrintedTree(t)[j].id, PrintedTree(t)[k].id)
  {
    VisitFromOrdered(t, None, 0, 0, []);
  }

  lemma {:induction false} AboveThrough(t: Trace, a: nat, b: nat, x: nat)
    requires WellFormed(t) && x < |t| && b < |t| && IsAbove(t, a, b) && IsAbove(t, b, x)
    ensures IsAbove(t, a, x)
  {
    if b != x {
      AboveThrough(t, a, b, t[x].parentId.value);
    }
  }

  lemma SiblingBranches(t: Trace, c: nat, d: nat, x: nat)
    requires WellFormed(t) && InOrder(t, c, d) && x < |t|
    ensures !(IsAbove(t, c, x) && IsAbove(t, d, x))
  {
    if IsAbove(t, c, x) {
      SiblingsDisjoint(t, c, d, x);
    }
  }

  /** What is above one of two siblings, but not that sibling, is above the other. */
  lemma AboveSibling(t: Trace, a: nat, c: nat, d: nat)
    requires WellFormed(t) && c < |t| && d < |t| && t[c].parentId == t[d].parentId && IsAbove(t, a, c) && a != c
    ensures IsAbove(t, a, d)
  {
  }

  lemma NotBothLeft(t: Trace, x: nat, y: nat)
    requires WellFormed(t) && x < |t| && y < |t| && Left(t, y, x)
    ensures !Precedes(t, x, y)
  {
    var c, d :| InOrder(t, c, d) && IsAbove(t, c, y) && IsAbove(t, d, x);
    if IsAbove(t, x, y) {
      AboveThrough(t, d, x, y);
      SiblingBranches(t, c, d, y);
    }
    if Left(t, x, y) {
      var e, f :| InOrder(t, e, f) && IsAbove(t, e, x) && IsAbove(t, f, y);
      CrossedSiblings(t, c, d, e, f, x, y);
    }
  }

  lemma CrossedSiblings(t: Trace, c: nat, d: nat, e: nat, f: nat, x: nat, y: nat)
    requires WellFormed(t) && x < |t| && y < |t| && InOrder(t, c, d) && InOrder(t, e, f)
    requires IsAbove(t, c, y) && IsAbove(t, d, x) && IsAbove(t, e, x)
    ensures !IsAbove(t, f, y)
  {
    if !IsAbove(t, f, y) {
    } else if c == f {
      OneBranch(t, d, e, x);
    } else if c < f {
      AboveIsChain(t, c, f, y);
      AboveSibling(t, c, f, e);
      AboveThrough(t, c, e, x);
      SiblingBranches(t, c, d, x);
    } else {
      AboveIsChain(t, f, c, y);
      AboveSibling(t, f, c, d);
      AboveThrough(t, f, d, x);
      SiblingBranches(t, e, f, x);
    }
  }

  lemma OneBranch(t: Trace, d: nat, e: nat, x: nat)
    requires WellFormed(t) && x < |t| && d < |t| && e < |t| && t[d].parentId == t[e].parentId
    requires IsAbove(t, d, x) && IsAbove(t, e, x)
    ensures d == e
  {
    if d < e {
      SiblingBranches(t, d, e, x);
    } else if e < d {
      SiblingBranches(t, e, d, x);
    }
  }

  lemma PrecedesOneWay(t: Trace, x: nat, y: nat)
    requires WellFormed(t) && x < |t| && y < |t| && Precedes(t, y, x)
    ensures !Precedes(t, x, y)
  {
    if Left(t, y, x) {
      NotBothLeft(t, x, y);
    } else {
      AboveIsSmaller(t, y, x);
      if IsAbove(t, x, y) {
        AboveIsSmaller(t, x, y);
      }
      if Left(t, x, y) {
        NotBothLeft(t, y, x);
      }
    }
  }

  /** The lines are in depth-first order: an entry comes before what is below it, and everything below a sibling
      before everything below the siblings after it. */
  lemma DepthFirst(t: Trace, j: nat, k: nat)
    requires WellFormed(t) && j < |PrintedTree(t)| && k < |PrintedTree(t)| && j != k
    ensures PrintedTree(t)[j].id < |t| && PrintedTree(t)[k].id < |t|
    ensures Precedes(t, PrintedTree(t)[j].id, PrintedTree(t)[k].id) <==> j < k
  {
    if j < k {
      EarlierPrecedes(t, j, k);
    } else {
      EarlierPrecedes(t, k, j);
      PrecedesOneWay(t, PrintedTree(t)[j].id, PrintedTree(t)[k].id);
    }
  }

  /** What comes after an entry below `a` and is not below `a` itself comes after all that is. */
  lemma LeavesSubtree(t: Trace, a: nat, x: nat, y: nat, z: nat)
    requires WellFormed(t) && a < |t| && x < |t| && y < |t| && z < |t|
    requires IsAbove(t, a, x) && !IsAbove(t, a, y) && IsAbove(t, a, z) && Precedes(t, x, y)
    ensures Left(t, z, y)
  {
    if IsAbove(t, x, y) {
      AboveThrough(t, a, x, y);
    }
    var c, d :| InOrder(t, c, d) && IsAbove(t, c, x) && IsAbove(t, d, y);
    if a < c {
      AboveIsChain(t, a, c, x);
      AboveSibling(t, a, c, d);
      AboveThrough(t, a, d, y);
    } else {
      AboveIsChain(t, c, a, x);
      AboveThrough(t, c, a, z);
    }
  }

  /** The lines of an entry and of everything below it are next to each other. */
  lemma SubtreesAreContiguous(t: Trace, a: nat, j: nat, k: nat, l: nat)
    requires WellFormed(t) && a < |t| && j < k < l < |PrintedTree(t)|
    ensures var lines := PrintedTree(t);
            && lines[j].id < |t| && lines[k].id < |t| && lines[l].id < |t|
            && (IsAbove(t, a, lines[j].id) && IsAbove(t, a, lines[l].id) ==> IsAbove(t, a, lines[k].id))
  {
    DepthFirst(t, j, k);
    DepthFirst(t, k, l);
    var x, y, z := PrintedTree(t)[j].id, PrintedTree(t)[k].id, PrintedTree(t)[l].id;
    if IsAbove(t, a, x) && IsAbove(t, a, z) && !IsAbove(t, a, y) {
      LeavesSubtree(t, a, x, y, z);
      NotBothLeft(t, y, z);
    }
  }

  // ---------------------------------------------------------------- printing

  /** The lines of a list of siblings: the last of the list closes it. */
  function VisitList(t: Trace, list: seq<Entry>, indent: nat, prefix: seq<bool>): seq<Line>
    requires WellFormed(t) && forall e :: e in list ==> e in t
  {
    if list == [] then []
    else
      assert list[0] in t;
      Visit(t, list[0].id, indent, |list| == 1, prefix) + VisitList(t, list[1..], indent, prefix)
  }

  lemma {:induction false} VisitListIsVisitFrom(t: Trace, p: Option<nat>, from: nat, indent: nat, prefix: seq<bool>)
    requires WellFormed(t) && from <= |t|
    ensures VisitList(t, Siblings(t, p, from), indent, prefix) == VisitFrom(t, p, from, indent, prefix)
    decreases |t| - from
  {
    if from < |t| {
      VisitListIsVisitFrom(t, p, from + 1, indent, prefix);
      VisitFromHead(t, p, from, indent, prefix);
      var rest := Siblings(t, p, from + 1);
      if t[from].parentId == p {
        VisitListHead(t, t[from], rest, indent, prefix);
      } else {
        assert Siblings(t, p, from) == rest;
      }
    }
  }

  lemma VisitListHead(t: Trace, e: Entry, rest: seq<Entry>, indent: nat, prefix: seq<bool>)
    requires WellFormed(t) && e in t && forall x :: x in rest ==> x in t
    ensures VisitList(t, [e] + rest, indent, prefix) ==
            Visit(t, e.id, indent, rest == [], prefix) + VisitList(t, rest, indent, prefix)
  {
    assert ([e] + rest)[1..] == rest;
  }

  /** Children come after their parent, so scanning from the start finds the same ones. */
  lemma {:induction false} ChildrenAfter(t: Trace, id: nat, from: nat)
    requires WellFormed(t) && id < |t| && from <= id + 1
    ensures Siblings(t, Some(id), from) == Siblings(t, Some(id), id + 1)
    decreases id + 1 - from
  {
    if from < id + 1 {
      ChildrenAfter(t, id, from + 1);
    }
  }

  class TreePrinter {
    var out: seq<Line>

    method PrintTraceTree(t: Trace)
      requires WellFormed(t)
      modifies this
      ensures out == old(out) + PrintedTree(t)
    {
      var roots := Siblings(t, None, 0);
      VisitListIsVisitFrom(t, None, 0, 0, []);
      PrintSiblings(t, roots, 0, [], 0);
    }

    /** The loop over the roots, or over the children of an entry. */
    method PrintSiblings(t: Trace, list: seq<Entry>, indent: nat, prefix: seq<bool>, ghost floor: nat)
      requires WellFormed(t) && floor <= |t|
      requires forall e :: e in list ==> e in t && floor <= e.id
      modifies this
      ensures out == old(out) + VisitList(t, list, indent, prefix)
      decreases |t| - floor, 1
    {
      for i := 0 to |list|
        invariant out + VisitList(t, list[i..], indent, prefix) == old(out) + VisitList(t, list, indent, prefix)
      {
        ghost var before := out;
        var isLast := i == |list| - 1;
        PrintTraceEntry(t, list[i].id, indent, isLast, prefix);
        assert list[i..][1..] == list[i + 1..];
        Associative(before, Visit(t, list[i].id, indent, isLast, prefix), VisitList(t, list[i + 1..], indent, prefix));
      }
    }

    method PrintTraceEntry(t: Trace, id: nat, indent: nat, isLast: bool, prefix: seq<bool>)
      requires WellFormed(t) && id < |t|
      modifies this
      ensures out == old(out) + Visit(t, id, indent, isLast, prefix)
      decreases |t| - id, 0
    {
      out := out + [Line(id, indent, isLast, prefix)];
      var children := GetChildren(t, id);
      ChildrenAfter(t, id, 0);
      var childPrefix := if indent > 0 then prefix + [isLast] else prefix;
      VisitListIsVisitFrom(t, Some(id), id + 1, indent + 1, childPrefix);
      PrintSiblings(t, children, indent + 1, childPrefix, id + 1);
      Associative(old(out), [Line(id, indent, isLast, prefix)], VisitList(t, children, indent + 1, childPrefix));
    }
  }
}
