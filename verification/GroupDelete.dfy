/** Planning a group delete: the subtree of a selection, deepest first, over possibly corrupt parents. */
module GroupDelete {
  import opened Text
  import opened Ordering

  /** A group: its parent's id, empty at the top level, and its connections. */
  datatype Group = Group(parent: string, connections: seq<string>)

  type Groups = map<string, Group>

  // ---------------------------------------------------------------- ancestors and depth

  /** The parent of a group, when it names an existing one. */
  function Parent(g: Groups, id: string): Option<string> {
    if id in g && g[id].parent != "" && g[id].parent in g then Some(g[id].parent) else None
  }

  /** The `n`-th ancestor. */
  function Up(g: Groups, id: string, n: nat): Option<string>
    decreases n
  {
    if n == 0 then Some(id)
    else
      match Parent(g, id)
      case None => None
      case Some(p) => Up(g, p, n - 1)
  }

  /** Steps from `parent` upwards until the top or a group already in `seen`. */
  function DepthFrom(g: Groups, parent: Option<string>, seen: set<string>): nat
    decreases |g.Keys - seen|
  {
    if parent.Some? && parent.value in g && parent.value !in seen then
      Shrinks(g, seen, parent.value);
      1 + DepthFrom(g, Parent(g, parent.value), seen + {parent.value})
    else 0
  }

  lemma Shrinks(g: Groups, seen: set<string>, id: string)
    requires id in g && id !in seen
    ensures |g.Keys - (seen + {id})| < |g.Keys - seen|
  {
    assert g.Keys - seen == g.Keys - (seen + {id}) + {id};
  }

  function Depth(g: Groups, id: string): nat { DepthFrom(g, Parent(g, id), {id}) }

  lemma DepthStep(g: Groups, p: string, seen: set<string>)
    requires p in g && p !in seen
    ensures DepthFrom(g, Some(p), seen) == 1 + DepthFrom(g, Parent(g, p), seen + {p})
  {
    assert Some(p).value == p;
  }

  lemma DepthEnds(g: Groups, parent: Option<string>, seen: set<string>)
    requires parent.None? || parent.value in seen
    ensures DepthFrom(g, parent, seen) == 0
  {
  }

  method GroupDepth(g: Groups, id: string) returns (depth: nat)
    ensures depth == Depth(g, id)
  {
    hide DepthFrom;
    depth := 0;
    var seen := {id};
    var parent := Parent(g, id);
    while parent.Some? && parent.value !in seen
      invariant parent.Some? ==> parent.value in g
      invariant Depth(g, id) == depth + DepthFrom(g, parent, seen)
      decreases |g.Keys - seen|
    {
      DepthStep(g, parent.value, seen);
      Shrinks(g, seen, parent.value);
      seen := seen + {parent.value};
      depth := depth + 1;
      parent := Parent(g, parent.value);
    }
    DepthEnds(g, parent, seen);
  }

  lemma {:induction false} UpAdd(g: Groups, id: string, m: nat, n: nat)
    ensures Up(g, id, m + n) == match Up(g, id, m) case None => None case Some(x) => Up(g, x, n)
    decreases m
  {
    if m > 0 && Parent(g, id).Some? { UpAdd(g, Parent(g, id).value, m - 1, n); }
  }

  /** A group that is not above `parent` does not cut the climb short. */
  lemma {:induction false} DepthIgnores(g: Groups, parent: Option<string>, seen: set<string>, x: string)
    requires parent.Some? ==> forall n: nat :: Up(g, parent.value, n) != Some(x)
    ensures DepthFrom(g, parent, seen + {x}) == DepthFrom(g, parent, seen)
    decreases |g.Keys - seen|
  {
    if parent.Some? && parent.value in g && parent.value !in seen {
      var p := parent.value;
      assert Up(g, p, 0) == Some(p);
      assert p != x;
      Shrinks(g, seen, p);
      if Parent(g, p).Some? {
        forall n: nat ensures Up(g, Parent(g, p).value, n) != Some(x) { assert Up(g, p, n + 1) != Some(x); }
      }
      DepthIgnores(g, Parent(g, p), seen + {p}, x);
      assert seen + {p} + {x} == seen + {x} + {p};
    } else if parent.Some? {
      assert Up(g, parent.value, 0) == Some(parent.value);
    }
  }

  /** A child is one level below its parent, unless it is also above it. */
  lemma ChildIsDeeper(g: Groups, child: string)
    requires Parent(g, child).Some? && forall n: nat :: n > 0 ==> Up(g, child, n) != Some(child)
    ensures Depth(g, child) == Depth(g, Parent(g, child).value) + 1
  {
    var p := Parent(g, child).value;
    assert Up(g, child, 1) == Some(p) by { assert Up(g, p, 0) == Some(p); }
    assert p != child;
    var above := Parent(g, p);
    if above.Some? {
      forall n: nat ensures Up(g, above.value, n) != Some(child) {
        assert Up(g, p, n + 1) == Up(g, above.value, n);
        assert Up(g, child, n + 2) == Up(g, p, n + 1);
      }
    }
    DepthIgnores(g, above, {p}, child);
    assert {child} + {p} == {p} + {child};
  }

  // ---------------------------------------------------------------- the subtree

  /** `id` is a selected group or lies below one. */
  ghost predicate Below(g: Groups, chosen: set<string>, id: string) {
    exists n: nat :: BelowBy(g, chosen, id, n)
  }

  predicate BelowBy(g: Groups, chosen: set<string>, id: string, n: nat) {
    Up(g, id, n).Some? && Up(g, id, n).value in chosen
  }

  lemma ChildIsBelow(g: Groups, chosen: set<string>, child: string)
    requires Parent(g, child).Some? && Below(g, chosen, Parent(g, child).value)
    ensures Below(g, chosen, child)
  {
    var n: nat :| BelowBy(g, chosen, Parent(g, child).value, n);
    assert BelowBy(g, chosen, child, n + 1);
  }

  ghost predicate ClosedDown(g: Groups, s: set<string>) {
    forall c :: c in g && Parent(g, c).Some? && Parent(g, c).value in s ==> c in s
  }

  lemma {:induction false} BelowIsIn(g: Groups, chosen: set<string>, s: set<string>, id: string, n: nat)
    requires chosen <= s && ClosedDown(g, s) && BelowBy(g, chosen, id, n)
    ensures id in s
    decreases n
  {
    if n > 0 {
      var p := Parent(g, id).value;
      assert BelowBy(g, chosen, p, n - 1);
      BelowIsIn(g, chosen, s, p, n - 1);
    }
  }

  lemma BelowIsInside(g: Groups, chosen: set<string>, s: set<string>, id: string)
    requires chosen <= s && ClosedDown(g, s) && Below(g, chosen, id)
    ensures id in s
  {
    var n: nat :| BelowBy(g, chosen, id, n);
    BelowIsIn(g, chosen, s, id, n);
  }

  lemma RootIsBelow(g: Groups, chosen: set<string>, id: string)
    requires id in chosen
    ensures Below(g, chosen, id)
  {
    assert BelowBy(g, chosen, id, 0);
  }

  predicate Lists(children: map<string, seq<string>>, p: string, c: string) { p in children && c in children[p] }

  /** The children of every group, as the program indexes them. */
  method IndexChildren(g: Groups) returns (children: map<string, seq<string>>)
    ensures forall p, c :: Lists(children, p, c) <==> c in g && g[c].parent == p && p != ""
  {
    children := map[];
    var keys := g.Keys;
    while keys != {}
      invariant keys <= g.Keys
      invariant forall p, c :: Lists(children, p, c) <==> c in g && c !in keys && g[c].parent == p && p != ""
      decreases |keys|
    {
      var id :| id in keys;
      var parent := g[id].parent;
      if parent != "" {
        var before := if parent in children then children[parent] else [];
        ghost var was := children;
        children := children[parent := before + [id]];
        assert forall p, c :: Lists(children, p, c) <==> Lists(was, p, c) || (p == parent && c == id);
      }
      keys := keys - {id};
    }
  }

  /** What the worklist keeps: everything found is below the selection, and nothing found is forgotten. */
  ghost predicate Searching(g: Groups, roots: set<string>, found: set<string>, pending: seq<string>) {
    && found <= g.Keys
    && (forall id :: id in pending ==> id in g)
    && (forall id :: id in found || id in pending ==> Below(g, roots, id))
    && (forall id :: id in roots ==> id in found || id in pending)
    && (forall c :: c in g && Parent(g, c).Some? && Parent(g, c).value in found ==> c in found || c in pending)
  }

  lemma SearchStarts(g: Groups, chosen: seq<string>)
    requires forall id :: id in chosen ==> id in g
    ensures Searching(g, SetOf(chosen), {}, chosen)
  {
    hide Below;
    forall id | id in chosen ensures Below(g, SetOf(chosen), id) { RootIsBelow(g, SetOf(chosen), id); }
  }

  lemma LastIsKnown(g: Groups, roots: set<string>, found: set<string>, pending: seq<string>, id: string)
    requires Searching(g, roots, found, pending + [id])
    ensures id in g
  {
    hide Below, Parent;
    assert id in pending + [id];
  }

  lemma SkipStep(g: Groups, roots: set<string>, found: set<string>, pending: seq<string>, id: string)
    requires Searching(g, roots, found, pending + [id]) && id in found
    ensures Searching(g, roots, found, pending)
  {
    hide Below, Parent;
    forall x ensures x in pending + [id] <==> x in pending || x == id { }
  }

  lemma VisitStep(g: Groups, roots: set<string>, found: set<string>, pending: seq<string>, id: string,
    more: seq<string>)
    requires Searching(g, roots, found, pending + [id]) && id !in found
    requires forall c :: c in more <==> c in g && Parent(g, c) == Some(id) && c !in found + {id}
    ensures Searching(g, roots, found + {id}, pending + more)
  {
    hide Below, Parent;
    forall x ensures x in pending + [id] <==> x in pending || x == id { }
    forall c | c in more ensures Below(g, roots, c) { ChildIsBelow(g, roots, c); }
  }

  /** The cascade set: a worklist that ends for every parent map, cycles included. */
  method Subtree(g: Groups, chosen: seq<string>) returns (subtree: set<string>)
    requires forall id :: id in chosen ==> id in g
    ensures subtree <= g.Keys
    ensures forall id :: id in subtree <==> Below(g, SetOf(chosen), id)
  {
    hide Below, DepthFrom, Up, Searching, ToVisit, NotIn, Lists, SetOf, Parent;
    var children := IndexChildren(g);
    ghost var roots := SetOf(chosen);
    subtree := {};
    var pending := chosen;
    SearchStarts(g, chosen);
    while pending != []
      invariant subtree <= g.Keys && Searching(g, roots, subtree, pending)
      decreases |g.Keys - subtree|, |pending|
    {
      var id := pending[|pending| - 1];
      assert pending == pending[..|pending| - 1] + [id];
      pending := pending[..|pending| - 1];
      if id !in subtree {
        LastIsKnown(g, roots, subtree, pending, id);
        Shrinks(g, subtree, id);
        var more := ToVisit(g, children, id, subtree + {id});
        VisitStep(g, roots, subtree, pending, id, more);
        subtree := subtree + {id};
        pending := pending + more;
      } else {
        SkipStep(g, roots, subtree, pending, id);
      }
    }
    forall id ensures id in subtree <==> Below(g, roots, id) { SearchIsOver(g, roots, subtree, id); }
  }

  lemma SearchIsOver(g: Groups, roots: set<string>, found: set<string>, id: string)
    requires Searching(g, roots, found, [])
    ensures id in found <==> Below(g, roots, id)
  {
    hide Below;
    assert ClosedDown(g, found);
    if Below(g, roots, id) { BelowIsInside(g, roots, found, id); }
  }

  function ToVisit(g: Groups, children: map<string, seq<string>>, id: string, out: set<string>): (r: seq<string>)
    requires id in g && forall p, c :: Lists(children, p, c) <==> c in g && g[c].parent == p && p != ""
    ensures forall c :: c in r <==> c in g && Parent(g, c) == Some(id) && c !in out
  {
    assert forall c :: Lists(children, id, c) <==> c in g && Parent(g, c) == Some(id);
    NotIn(if id in children then children[id] else [], out)
  }

  function NotIn(s: seq<string>, out: set<string>): (r: seq<string>)
    ensures forall x :: x in r <==> x in s && x !in out
  {
    if s == [] then [] else (if s[0] !in out then [s[0]] else []) + NotIn(s[1..], out)
  }

  // ---------------------------------------------------------------- the order

  /** Deepest first, then by id. */
  predicate Before(g: Groups, a: string, b: string) {
    Depth(g, a) > Depth(g, b) || (Depth(g, a) == Depth(g, b) && Less(a, b))
  }

  /** Each id comes before every later one: sorted, and without repetition. */
  predicate Ordered(g: Groups, s: seq<string>) {
    forall i, j :: 0 <= i < j < |s| ==> Before(g, s[i], s[j])
  }

  method InsertId(g: Groups, id: string, s: seq<string>) returns (r: seq<string>)
    requires Ordered(g, s) && id !in s
    ensures Ordered(g, r) && SetOf(r) == SetOf(s) + {id}
  {
    hide Depth, Less;
    var k := 0;
    while k < |s| && Before(g, s[k], id)
      invariant 0 <= k <= |s|
      invariant forall i :: 0 <= i < k ==> Before(g, s[i], id)
    {
      k := k + 1;
    }
    r := s[..k] + [id] + s[k..];
    if k < |s| {
      LessIsTotal(s[k], id);
      assert Before(g, id, s[k]);
      forall j | k < j < |s| ensures Before(g, id, s[j]) {
        if Less(id, s[k]) && Less(s[k], s[j]) { LessIsTransitive(id, s[k], s[j]); }
      }
    }
    assert s == s[..k] + s[k..];
  }

  method DeepestFirst(g: Groups, ids: set<string>) returns (r: seq<string>)
    ensures Ordered(g, r) && SetOf(r) == ids
  {
    r := [];
    var left := ids;
    while left != {}
      invariant left <= ids && SetOf(r) == ids - left && Ordered(g, r)
      decreases |left|
    {
      var id :| id in left;
      assert id !in SetOf(r);
      r := InsertId(g, id, r);
      left := left - {id};
    }
  }

  lemma OrderedIsDistinct(g: Groups, s: seq<string>, i: nat, j: nat)
    requires Ordered(g, s) && i < |s| && j < |s| && s[i] == s[j]
    ensures i == j
  {
    LessIsTotal(s[i], s[j]);
  }

  /** There is only one deepest-first arrangement of a set of groups. */
  lemma {:induction false} OrderIsUnique(g: Groups, s: seq<string>, t: seq<string>)
    requires Ordered(g, s) && Ordered(g, t) && SetOf(s) == SetOf(t)
    ensures s == t
  {
    hide Depth, Less;
    assert s != [] ==> s[0] in SetOf(s) && s[0] in t;
    assert t != [] ==> t[0] in SetOf(t) && t[0] in s;
    if s != [] && t != [] {
      var i :| 0 <= i < |t| && t[i] == s[0];
      var j :| 0 <= j < |s| && s[j] == t[0];
      LessIsTotal(s[0], t[0]);
      assert s[0] == t[0];
      TailSet(g, s);
      TailSet(g, t);
      OrderIsUnique(g, s[1..], t[1..]);
      assert s == [s[0]] + s[1..] && t == [t[0]] + t[1..];
    }
  }

  lemma TailSet(g: Groups, s: seq<string>)
    requires Ordered(g, s) && s != []
    ensures Ordered(g, s[1..]) && SetOf(s[1..]) == SetOf(s) - {s[0]}
  {
    hide Depth, Less;
    forall x ensures x in SetOf(s[1..]) <==> x in SetOf(s) - {s[0]} {
      if x in SetOf(s[1..]) {
        var j :| 0 <= j < |s[1..]| && s[1..][j] == x;
        if x == s[0] { OrderedIsDistinct(g, s, 0, j + 1); }
      }
    }
  }

  // ---------------------------------------------------------------- deleting along the order

  /** The group is its own proper ancestor: the parent map is corrupt above it. */
  ghost predicate Cyclic(g: Groups, id: string) { exists n: nat :: LoopsIn(g, id, n) }

  predicate LoopsIn(g: Groups, id: string, n: nat) { n > 0 && Up(g, id, n) == Some(id) }

  /** Every ancestor that is also listed comes later in the list. */
  ghost predicate AncestorsLast(g: Groups, s: seq<string>) {
    forall i, j, n: nat :: 0 <= i < |s| && 0 <= j < |s| && n > 0 && Up(g, s[i], n) == Some(s[j]) ==> i < j
  }

  /** When a group's turn comes, its children are already gone. */
  ghost predicate ChildrenFirst(g: Groups, s: seq<string>) {
    forall i, c :: 0 <= i < |s| && c in g && Parent(g, c) == Some(s[i]) ==> c in s[..i]
  }

  /** A proper ancestor that is on no cycle is strictly less deep, provided nothing between loops. */
  lemma {:induction false} AncestorIsShallower(g: Groups, id: string, n: nat, top: string)
    requires n > 0 && Up(g, id, n) == Some(top) && !Cyclic(g, id) && !Cyclic(g, top)
    ensures Depth(g, id) > Depth(g, top)
    decreases n
  {
    hide Depth, Less;
    var p := Parent(g, id).value;
    forall m: nat | m > 0 ensures Up(g, id, m) != Some(id) { assert !LoopsIn(g, id, m); }
    ChildIsDeeper(g, id);
    assert Up(g, p, n - 1) == Some(top);
    if n > 1 {
      if Cyclic(g, p) {
        var m: nat :| LoopsIn(g, p, m);
        AboveLoop(g, p, m, n - 1, top);
        assert false;
      }
      AncestorIsShallower(g, p, n - 1, top);
    }
  }

  /** Whatever lies above a group on a cycle lies on a cycle. */
  lemma AboveLoop(g: Groups, x: string, m: nat, n: nat, top: string)
    requires LoopsIn(g, x, m) && Up(g, x, n) == Some(top)
    ensures Cyclic(g, top)
  {
    hide Depth, Less;
    UpAdd(g, x, n, m);
    UpAdd(g, x, m, n);
    assert Up(g, top, m) == Some(top);
    assert LoopsIn(g, top, m);
  }

  /** Deepest first puts descendants before ancestors exactly when no listed group loops. */
  lemma DescendantsComeFirst(g: Groups, s: seq<string>)
    requires Ordered(g, s)
    ensures AncestorsLast(g, s) <==> forall id :: id in s ==> !Cyclic(g, id)
  {
    hide Depth, Less;
    if id :| id in s && Cyclic(g, id) {
      var n: nat :| LoopsIn(g, id, n);
      var i :| 0 <= i < |s| && s[i] == id;
      assert Up(g, s[i], n) == Some(s[i]);
    } else {
      forall i, j, n: nat | 0 <= i < |s| && 0 <= j < |s| && n > 0 && Up(g, s[i], n) == Some(s[j]) ensures i < j {
        AncestorIsShallower(g, s[i], n, s[j]);
      }
    }
  }

  /** The listed groups are closed under taking children. */
  ghost predicate ClosedList(g: Groups, s: seq<string>) {
    forall c :: c in g && Parent(g, c).Some? && Parent(g, c).value in s ==> c in s
  }

  /**
   * Deleting a whole subtree in this order never removes a group that still has
   * a child, exactly when no group of the subtree is its own ancestor.
   */
  lemma CascadeIsSafe(g: Groups, s: seq<string>)
    requires Ordered(g, s) && ClosedList(g, s) && forall id :: id in s ==> id in g
    ensures ChildrenFirst(g, s) <==> forall id :: id in s ==> !Cyclic(g, id)
  {
    hide Depth, Less;
    if forall id :: id in s ==> !Cyclic(g, id) {
      DescendantsComeFirst(g, s);
      forall i, c | 0 <= i < |s| && c in g && Parent(g, c) == Some(s[i]) ensures c in s[..i] {
        assert s[i] in s;
        var k :| 0 <= k < |s| && s[k] == c;
        assert Up(g, c, 1) == Some(s[i]) by { assert Up(g, s[i], 0) == Some(s[i]); }
        assert k < i;
        assert s[..i][k] == c;
      }
    }
    if ChildrenFirst(g, s) {
      forall id | id in s ensures !Cyclic(g, id) {
        if Cyclic(g, id) {
          var n: nat :| LoopsIn(g, id, n);
          var i :| 0 <= i < |s| && s[i] == id;
          ClimbMovesOn(g, s, i, n, n);
          assert false;
        }
      }
    }
  }

  /** Around a cycle inside the list, every climb moves strictly further down the list. */
  lemma {:induction false} ClimbMovesOn(g: Groups, s: seq<string>, i: nat, n: nat, k: nat)
    requires Ordered(g, s) && ClosedList(g, s) && ChildrenFirst(g, s) && forall id :: id in s ==> id in g
    requires i < |s| && LoopsIn(g, s[i], n) && k <= n
    ensures exists j :: i + k <= j < |s| && Up(g, s[i], k) == Some(s[j])
    ensures k < n
  {
    hide Ordered, ClosedList, ChildrenFirst;
    if k == 0 {
      assert Up(g, s[i], 0) == Some(s[i]);
    } else {
      ClimbMovesOn(g, s, i, n, k - 1);
      var j :| i + k - 1 <= j < |s| && Up(g, s[i], k - 1) == Some(s[j]);
      UpAdd(g, s[i], k - 1, 1);
      UpAdd(g, s[i], k, n - k);
      var p := Up(g, s[i], k).value;
      assert Up(g, p, n - k) == Some(s[i]);
      assert Parent(g, s[j]) == Some(p) by { assert Up(g, s[j], 1) == Some(p); ParentIsUp(g, s[j]); }
      StaysListed(g, s, p, n - k);
      var q := ParentIsLater(g, s, j, p);
      if k == n { OrderedIsDistinct(g, s, i, q); }
    }
  }

  lemma ParentIsLater(g: Groups, s: seq<string>, j: nat, p: string) returns (q: nat)
    requires Ordered(g, s) && ChildrenFirst(g, s)
    requires j < |s| && s[j] in g && Parent(g, s[j]) == Some(p) && p in s
    ensures j < q < |s| && s[q] == p
  {
    hide Depth, Less, Parent;
    q :| 0 <= q < |s| && s[q] == p;
    assert s[j] in s[..q];
    var k :| 0 <= k < q && s[..q][k] == s[j];
    OrderedIsDistinct(g, s, j, k);
  }

  lemma ParentIsUp(g: Groups, id: string)
    ensures Up(g, id, 1) == Parent(g, id)
  {
    if Parent(g, id).Some? { assert Up(g, Parent(g, id).value, 0) == Parent(g, id); }
  }

  lemma {:induction false} StaysListed(g: Groups, s: seq<string>, id: string, n: nat)
    requires ClosedList(g, s) && Up(g, id, n).Some? && Up(g, id, n).value in s && id in g
    ensures id in s
    decreases n
  {
    hide Depth, Less;
    if n > 0 { StaysListed(g, s, Parent(g, id).value, n - 1); }
  }

  // ---------------------------------------------------------------- running the delete

  /** The group is dropped and its children move to its parent. */
  function DeleteGroup(g: Groups, id: string): Groups
    requires id in g
  {
    map c | c in g && c != id :: if Parent(g, c) == Some(id) then g[c].(parent := g[id].parent) else g[c]
  }

  /** The groups left when some are simply forgotten. */
  function Without(g: Groups, dead: set<string>): Groups { map c | c in g && c !in dead :: g[c] }

  /** What the sequence of delete calls leaves, unless one names an unknown group. */
  function DeleteAll(g: Groups, s: seq<string>): Option<Groups> {
    if s == [] then Some(g)
    else
      match DeleteAll(g, s[..|s| - 1])
      case None => None
      case Some(before) => if s[|s| - 1] in before then Some(DeleteGroup(before, s[|s| - 1])) else None
  }

  /** Deleting a group whose children are gone moves nothing. */
  lemma DeleteLeaf(g: Groups, dead: set<string>, id: string)
    requires id in g && id !in dead
    requires forall c :: c in g && Parent(g, c) == Some(id) ==> c in dead
    ensures id in Without(g, dead) && DeleteGroup(Without(g, dead), id) == Without(g, dead + {id})
  {
    hide Depth, Less;
    var before := Without(g, dead);
    forall c | c in before && c != id ensures Parent(before, c) != Some(id) {
      assert Parent(before, c) == Some(id) ==> Parent(g, c) == Some(id);
    }
    assert DeleteGroup(before, id) == Without(g, dead + {id});
  }

  lemma PrefixSet(g: Groups, s: seq<string>, k: nat)
    requires Ordered(g, s) && k < |s|
    ensures s[k] !in SetOf(s[..k]) && SetOf(s[..k + 1]) == SetOf(s[..k]) + {s[k]}
  {
    hide Depth, Less, Before;
    assert s[..k + 1] == s[..k] + [s[k]];
    forall j | 0 <= j < k ensures s[j] != s[k] {
      if s[j] == s[k] { OrderedIsDistinct(g, s, j, k); }
    }
  }

  /** After any number of steps of a cascade, nothing has been moved: the rest is untouched. */
  lemma {:induction false} CascadeMovesNothing(g: Groups, s: seq<string>, k: nat)
    requires Ordered(g, s) && ChildrenFirst(g, s) && (forall id :: id in s ==> id in g) && k <= |s|
    ensures DeleteAll(g, s[..k]) == Some(Without(g, SetOf(s[..k])))
  {
    hide Ordered, DeleteGroup, Parent;
    if k == 0 {
      assert SetOf(s[..0]) == {} && Without(g, {}) == g;
    } else {
      CascadeMovesNothing(g, s, k - 1);
      PrefixSet(g, s, k - 1);
      assert s[..k][..k - 1] == s[..k - 1];
      DeleteLeaf(g, SetOf(s[..k - 1]), s[k - 1]);
    }
  }

  // ---------------------------------------------------------------- the plan

  datatype Plan = Plan(selected: seq<string>, subtree: seq<string>, subgroups: seq<string>, connections: seq<string>)

  predicate Counts(known: Option<set<string>>, c: string) { known.None? || c in known.value }

  /** `a` is met in `all` before `b` is. */
  ghost predicate Earlier(all: seq<string>, a: string, b: string) {
    exists k :: 0 <= k < |all| && all[k] == a && b !in all[..k + 1]
  }

  /** `r` holds the known entries of `all`, each once, in the order they are first met. */
  ghost predicate Gathered(all: seq<string>, known: Option<set<string>>, r: seq<string>) {
    && Distinct(r)
    && (forall c :: c in r <==> c in all && Counts(known, c))
    && (forall i, j :: 0 <= i < j < |r| ==> Earlier(all, r[i], r[j]))
  }

  lemma EarlierStays(all: seq<string>, a: string, b: string, x: string)
    requires Earlier(all, a, b)
    ensures Earlier(all + [x], a, b)
  {
    var k :| 0 <= k < |all| && all[k] == a && b !in all[..k + 1];
    assert (all + [x])[..k + 1] == all[..k + 1];
    assert (all + [x])[k] == a;
  }

  lemma EarlierThanLast(all: seq<string>, a: string, x: string)
    requires a in all && x !in all
    ensures Earlier(all + [x], a, x)
  {
    var k :| 0 <= k < |all| && all[k] == a;
    assert (all + [x])[..k + 1] == all[..k + 1];
    assert (all + [x])[k] == a;
  }

  lemma GatherStep(all: seq<string>, known: Option<set<string>>, r: seq<string>, x: string)
    requires Gathered(all, known, r)
    ensures Gathered(all + [x], known, if x !in r && Counts(known, x) then r + [x] else r)
  {
    hide Earlier;
    forall i, j | 0 <= i < j < |r| ensures Earlier(all + [x], r[i], r[j]) { EarlierStays(all, r[i], r[j], x); }
    if x !in r && Counts(known, x) {
      forall i | 0 <= i < |r| ensures Earlier(all + [x], r[i], x) { EarlierThanLast(all, r[i], x); }
    }
  }

  method AddConnections(items: seq<string>, known: Option<set<string>>, sofar: seq<string>, ghost before: seq<string>)
    returns (r: seq<string>)
    requires Gathered(before, known, sofar)
    ensures Gathered(before + items, known, r)
  {
    hide Gathered;
    r := sofar;
    assert before + items[..0] == before;
    for k := 0 to |items|
      invariant Gathered(before + items[..k], known, r)
    {
      GatherStep(before + items[..k], known, r, items[k]);
      assert before + items[..k] + [items[k]] == before + items[..k + 1];
      if items[k] !in r && Counts(known, items[k]) { r := r + [items[k]]; }
    }
    assert items[..|items|] == items;
  }

  /** Every membership entry of the listed groups, in list order. */
  function Members(g: Groups, s: seq<string>): seq<string>
    requires forall id :: id in s ==> id in g
  {
    if s == [] then [] else Members(g, s[..|s| - 1]) + g[s[|s| - 1]].connections
  }

  method CollectConnections(g: Groups, ordered: seq<string>, known: Option<set<string>>) returns (r: seq<string>)
    requires forall id :: id in ordered ==> id in g
    ensures Gathered(Members(g, ordered), known, r)
  {
    r := [];
    for k := 0 to |ordered|
      invariant Gathered(Members(g, ordered[..k]), known, r)
    {
      hide Gathered;
      assert ordered[..k + 1][..k] == ordered[..k] && ordered[..k + 1][k] == ordered[k];
      r := AddConnections(g[ordered[k]].connections, known, r, Members(g, ordered[..k]));
    }
    assert ordered[..|ordered|] == ordered;
  }

  /** A connection is a member of the list exactly when some listed group holds it. */
  lemma {:induction false} MembersHeld(g: Groups, s: seq<string>, c: string)
    requires forall id :: id in s ==> id in g
    ensures c in Members(g, s) <==> exists id :: id in s && c in g[id].connections
  {
    if s != [] {
      var front, last := s[..|s| - 1], s[|s| - 1];
      assert s == front + [last];
      MembersHeld(g, front, c);
    }
  }

  /** The selected ids that exist, each once. */
  method ExistingOnce(g: Groups, ids: seq<string>) returns (chosen: seq<string>)
    ensures Distinct(chosen)
    ensures forall id :: id in chosen <==> id in ids && id in g
  {
    chosen := [];
    for k := 0 to |ids|
      invariant Distinct(chosen)
      invariant forall id :: id in chosen <==> id in ids[..k] && id in g
    {
      assert ids[..k + 1] == ids[..k] + [ids[k]];
      if ids[k] in g && ids[k] !in chosen { chosen := chosen + [ids[k]]; }
    }
    assert ids[..|ids|] == ids;
  }

  /** The existing groups among the selected ids. */
  function Existing(g: Groups, ids: seq<string>): set<string> { set x | x in ids && x in g }

  /** The whole plan, for every parent map. */
  method PlanGroupDelete(g: Groups, ids: seq<string>, known: Option<set<string>>) returns (plan: Plan)
    ensures Ordered(g, plan.selected) && SetOf(plan.selected) == Existing(g, ids)
    ensures Ordered(g, plan.subtree) && ClosedList(g, plan.subtree)
    ensures forall id :: id in plan.subtree <==> Below(g, Existing(g, ids), id)
    ensures forall id :: id in plan.subtree ==> id in g
    ensures Ordered(g, plan.subgroups)
    ensures forall id :: id in plan.subgroups <==> id in plan.subtree && id !in plan.selected
    ensures Gathered(Members(g, plan.subtree), known, plan.connections)
    ensures ChildrenFirst(g, plan.subtree) <==> forall id :: id in plan.subtree ==> !Cyclic(g, id)
    ensures AncestorsLast(g, plan.selected) <==> forall id :: id in plan.selected ==> !Cyclic(g, id)
  {
    hide Depth, Less, Before, Up, Cyclic, ChildrenFirst, AncestorsLast, Gathered, Members;
    var chosen := ExistingOnce(g, ids);
    assert SetOf(chosen) == Existing(g, ids);
    var below := Subtree(g, chosen);
    var ordered := DeepestFirst(g, below);
    forall id ensures id in ordered <==> id in below { assert id in SetOf(ordered) <==> id in ordered; }
    var selected := DeepestFirst(g, SetOf(chosen));
    forall id ensures id in selected <==> id in chosen {
      assert id in SetOf(selected) <==> id in selected;
      assert id in SetOf(chosen) <==> id in chosen;
    }
    var subgroups := Unpicked(g, ordered, SetOf(chosen));
    var connections := CollectConnections(g, ordered, known);
    plan := Plan(selected, ordered, subgroups, connections);
    forall c | c in g && Parent(g, c).Some? && Parent(g, c).value in ordered ensures c in ordered {
      ChildIsBelow(g, SetOf(chosen), c);
    }
    CascadeIsSafe(g, ordered);
    DescendantsComeFirst(g, selected);
  }

  method Unpicked(g: Groups, s: seq<string>, picked: set<string>) returns (r: seq<string>)
    requires Ordered(g, s)
    ensures Ordered(g, r) && forall x :: x in r <==> x in s && x !in picked
  {
    hide Depth, Less, Before;
    r := [];
    for k := 0 to |s|
      invariant Ordered(g, r) && forall x :: x in r <==> x in s[..k] && x !in picked
    {
      assert s[..k + 1] == s[..k] + [s[k]];
      forall i | 0 <= i < |r| ensures Before(g, r[i], s[k]) {
        assert r[i] in s[..k];
        var j :| 0 <= j < k && s[..k][j] == r[i];
        assert Before(g, s[j], s[k]);
      }
      if s[k] !in picked { r := r + [s[k]]; }
    }
    assert s[..|s|] == s;
  }

  /** Two groups that name each other as parent: no order can delete either one childless. */
  lemma CorruptMapStrandsAChild(a: string, b: string)
    requires a != b && a != "" && b != ""
    ensures var g := map[a := Group(b, []), b := Group(a, [])];
      forall s :: |s| == 2 && a in s && b in s ==> !ChildrenFirst(g, s)
  {
    var g := map[a := Group(b, []), b := Group(a, [])];
    forall s | |s| == 2 && a in s && b in s ensures !ChildrenFirst(g, s) {
      assert s[..0] == [];
      assert Parent(g, a) == Some(b) && Parent(g, b) == Some(a);
      assert s[0] == a || s[0] == b;
    }
  }
}
