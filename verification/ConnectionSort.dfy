/** Sorting the connections of every list, and renumbering the group forest by name. */
module ConnectionSort {
  import opened Text
  import opened Ordering

  // ---------------------------------------------------------------- the keys

  datatype Connection = Connection(id: string, displayName: string, nickname: string, hostname: string, alias: string)

  /** Case folding is a parameter. */
  type Fold = string -> string

  function Primary(c: Connection): string {
    if c.displayName != "" then c.displayName
    else if c.nickname != "" then c.nickname
    else if c.alias != "" then c.alias
    else c.hostname
  }

  function Entered(lookup: map<string, Connection>, ref: string, c: Connection): map<string, Connection> {
    if ref != "" then lookup[ref := c] else lookup
  }

  /** Connections by id and by nickname. */
  function Lookup(cs: seq<Connection>): map<string, Connection> {
    if cs == [] then map[]
    else
      var c := cs[|cs| - 1];
      Entered(Entered(Lookup(cs[..|cs| - 1]), c.id, c), c.nickname, c)
  }

  predicate Names(c: Connection, ref: string) { ref != "" && (c.id == ref || c.nickname == ref) }

  /** A reference finds the last connection it names, and nothing when it names none. */
  lemma {:induction false} LookupFindsLast(cs: seq<Connection>, ref: string)
    ensures ref in Lookup(cs) <==> exists i :: 0 <= i < |cs| && Names(cs[i], ref)
    ensures ref in Lookup(cs) ==>
      exists i :: 0 <= i < |cs| && Names(cs[i], ref) && Lookup(cs)[ref] == cs[i]
        && forall j :: i < j < |cs| ==> !Names(cs[j], ref)
  {
    if cs != [] {
      var front, last := cs[..|cs| - 1], cs[|cs| - 1];
      LookupFindsLast(front, ref);
      assert forall i :: 0 <= i < |front| ==> front[i] == cs[i];
    }
  }

  method BuildLookup(cs: seq<Connection>) returns (lookup: map<string, Connection>)
    ensures lookup == Lookup(cs)
  {
    lookup := map[];
    for k := 0 to |cs|
      invariant lookup == Lookup(cs[..k])
    {
      assert cs[..k + 1][..k] == cs[..k];
      if cs[k].id != "" { lookup := lookup[cs[k].id := cs[k]]; }
      if cs[k].nickname != "" { lookup := lookup[cs[k].nickname := cs[k]]; }
    }
    assert cs[..|cs|] == cs;
  }

  /** The decorated key, flattened: known connections first, then the folded names. */
  function Key(lookup: map<string, Connection>, fold: Fold, ref: string): seq<string> {
    if ref in lookup then
      var c := lookup[ref];
      ["0", fold(fold(Primary(c))), fold(fold(c.nickname)), fold(fold(c.alias)), fold(fold(c.hostname)), fold(ref)]
    else ["1", fold(ref), fold(ref)]
  }

  type Order = (string, string) -> bool

  /** `a` may stand before `b`; `reverse` turns the keys round and leaves ties alone. */
  function ByKey(key: string -> seq<string>, reverse: bool): Order {
    (a, b) => if reverse then !TupleLess(key(a), key(b)) else !TupleLess(key(b), key(a))
  }

  lemma ByKeyIsOrder(key: string -> seq<string>, reverse: bool)
    ensures TotalPreorder(ByKey(key, reverse))
  {
    hide TupleLess;
    var le := ByKey(key, reverse);
    forall a, b ensures le(a, b) || le(b, a) { TupleLessIsTotal(key(a), key(b)); }
    forall a, b, c | le(a, b) && le(b, c) ensures le(a, c) {
      if reverse { NotLessIsTransitive(key(c), key(b), key(a)); } else { NotLessIsTransitive(key(a), key(b), key(c)); }
    }
  }

  lemma NotLessIsTransitive(a: seq<string>, b: seq<string>, c: seq<string>)
    requires !TupleLess(b, a) && !TupleLess(c, b)
    ensures !TupleLess(c, a)
  {
    hide TupleLess;
    TupleLessIsTotal(a, b);
    TupleLessIsTotal(b, c);
    TupleLessIsTotal(a, c);
    if TupleLess(a, b) && TupleLess(b, c) { TupleLessIsTransitive(a, b, c); }
  }

  // ---------------------------------------------------------------- the forest

  datatype Info = Info(parent: Option<string>, name: string)

  /** The groups in the order the program enumerates them. */
  datatype Forest = Forest(ids: seq<string>, info: map<string, Info>)

  ghost predicate WellKept(f: Forest) {
    Distinct(f.ids) && forall id :: id in f.ids <==> id in f.info
  }

  function ParentOf(f: Forest, id: string): Option<string> { if id in f.info then f.info[id].parent else None }

  function GroupKey(f: Forest, fold: Fold): string -> seq<string> {
    id => [fold(if id in f.info then f.info[id].name else "")]
  }

  function Where(f: Forest, ids: seq<string>, parent: Option<string>): (r: seq<string>)
    ensures forall id :: id in r <==> id in ids && ParentOf(f, id) == parent
  {
    if ids == [] then []
    else (if ParentOf(f, ids[0]) == parent then [ids[0]] else []) + Where(f, ids[1..], parent)
  }

  lemma {:induction false} WhereIsDistinct(f: Forest, ids: seq<string>, parent: Option<string>)
    requires Distinct(ids)
    ensures Distinct(Where(f, ids, parent))
  {
    if ids != [] {
      WhereIsDistinct(f, ids[1..], parent);
      assert forall i :: 0 <= i < |ids[1..]| ==> ids[1..][i] == ids[i + 1] && ids[0] != ids[i + 1];
      assert ids[0] !in Where(f, ids[1..], parent);
    }
  }

  /** The groups with one parent, by name. */
  function Siblings(f: Forest, le: Order, parent: Option<string>): seq<string> {
    Sort(Where(f, f.ids, parent), le)
  }

  lemma OnceInDistinct(s: seq<string>, i: nat)
    requires Distinct(s) && i < |s|
    ensures multiset(s)[s[i]] == 1
  {
    var x, a, b := s[i], s[..i], s[i + 1..];
    assert s == a + [x] + b;
    assert x !in a && x !in b;
    hide Distinct;
    assert multiset(s) == multiset(a) + multiset{x} + multiset(b);
  }

  lemma TwiceInRepeated(s: seq<string>, i: nat, j: nat)
    requires i < j < |s| && s[i] == s[j]
    ensures multiset(s)[s[i]] >= 2
  {
    var a, b := s[..j], s[j..];
    assert s == a + b && a[i] == s[i] && b[0] == s[j];
    assert s[i] in multiset(a) && s[i] in multiset(b);
    assert multiset(s) == multiset(a) + multiset(b);
  }

  lemma DistinctIsMultiset(s: seq<string>)
    ensures Distinct(s) <==> forall x :: x in s ==> multiset(s)[x] == 1
  {
    if Distinct(s) {
      forall x | x in s ensures multiset(s)[x] == 1 {
        var i :| 0 <= i < |s| && s[i] == x;
        OnceInDistinct(s, i);
      }
    } else {
      var i, j :| 0 <= i < j < |s| && s[i] == s[j];
      TwiceInRepeated(s, i, j);
      assert s[i] in s;
    }
  }

  lemma SiblingsFacts(f: Forest, le: Order, parent: Option<string>)
    requires WellKept(f)
    ensures Distinct(Siblings(f, le, parent))
    ensures forall id :: id in Siblings(f, le, parent) <==> id in f.info && ParentOf(f, id) == parent
  {
    var w := Where(f, f.ids, parent);
    var s := Siblings(f, le, parent);
    WhereIsDistinct(f, f.ids, parent);
    SortPermutes(w, le);
    forall id ensures id in s <==> id in w { assert id in multiset(s) <==> id in multiset(w); }
    DistinctIsMultiset(w);
    DistinctIsMultiset(s);
  }

  function Position(s: seq<string>, x: string): (n: nat)
    ensures n <= |s| && (x in s ==> n < |s| && s[n] == x)
  {
    if s == [] || s[0] == x then 0 else 1 + Position(s[1..], x)
  }

  lemma PositionAt(s: seq<string>, k: nat)
    requires Distinct(s) && k < |s|
    ensures Position(s, s[k]) == k
  {
    assert s[k] in s;
  }

  /** The number a group gets: its place among its siblings. */
  function Rank(f: Forest, le: Order, id: string): nat { Position(Siblings(f, le, ParentOf(f, id)), id) }

  /** `id` is a child of `p`, or of something below `p`; `None` is the root. */
  predicate UnderBy(f: Forest, id: string, p: Option<string>, n: nat)
    decreases n
  {
    && id in f.info
    && (ParentOf(f, id) == p || (n > 0 && ParentOf(f, id).Some? && UnderBy(f, ParentOf(f, id).value, p, n - 1)))
  }

  ghost predicate Under(f: Forest, id: string, p: Option<string>) { exists n: nat :: UnderBy(f, id, p, n) }

  ghost function Below(f: Forest, p: Option<string>): set<string> { set id | id in f.info && Under(f, id, p) }

  lemma {:induction false} FirstStep(f: Forest, id: string, p: Option<string>, n: nat)
    requires UnderBy(f, id, p, n)
    ensures ParentOf(f, id) == p || exists c :: c in f.info && ParentOf(f, c) == p && Under(f, id, Some(c))
    decreases n
  {
    if ParentOf(f, id) != p {
      var q := ParentOf(f, id).value;
      FirstStep(f, q, p, n - 1);
      if ParentOf(f, q) == p {
        assert UnderBy(f, id, Some(q), 0);
      } else {
        var c :| c in f.info && ParentOf(f, c) == p && Under(f, q, Some(c));
        var m: nat :| UnderBy(f, q, Some(c), m);
        assert UnderBy(f, id, Some(c), m + 1);
      }
    }
  }

  lemma {:induction false} StepUp(f: Forest, id: string, c: string, p: Option<string>, n: nat)
    requires UnderBy(f, id, Some(c), n) && c in f.info && ParentOf(f, c) == p
    ensures UnderBy(f, id, p, n + 1)
    decreases n
  {
    if ParentOf(f, id) != Some(c) { StepUp(f, ParentOf(f, id).value, c, p, n - 1); }
    else { assert UnderBy(f, c, p, n); }
  }

  /** What lies below `p`: its children, and what lies below them. */
  lemma BelowSplits(f: Forest, p: Option<string>, id: string)
    ensures id in Below(f, p) <==>
      id in f.info && (ParentOf(f, id) == p
        || exists c :: c in f.info && ParentOf(f, c) == p && id in Below(f, Some(c)))
  {
    if id in Below(f, p) {
      var n: nat :| UnderBy(f, id, p, n);
      FirstStep(f, id, p, n);
    } else if id in f.info {
      assert !UnderBy(f, id, p, 0);
      forall c | c in f.info && ParentOf(f, c) == p ensures id !in Below(f, Some(c)) {
        if Under(f, id, Some(c)) {
          var n: nat :| UnderBy(f, id, Some(c), n);
          StepUp(f, id, c, p, n);
        }
      }
    }
  }

  // ---------------------------------------------------------------- why the recursion ends

  /** The chain of groups from the root down to `p`. */
  predicate PathTo(f: Forest, path: seq<string>, p: Option<string>) {
    && Distinct(path)
    && (forall i :: 0 <= i < |path| ==> Linked(f, path, i))
    && p == if path == [] then None else Some(path[|path| - 1])
  }

  predicate Linked(f: Forest, path: seq<string>, i: nat)
    requires i < |path|
  {
    path[i] in f.info && ParentOf(f, path[i]) == if i == 0 then None else Some(path[i - 1])
  }

  /** Going down never meets a group twice, whatever the parents say: the way back up is unique. */
  lemma PathGrows(f: Forest, path: seq<string>, p: Option<string>, child: string)
    requires PathTo(f, path, p) && child in f.info && ParentOf(f, child) == p
    ensures PathTo(f, path + [child], Some(child))
  {
    forall j | 0 <= j < |path| ensures path[j] != child {
      assert Linked(f, path, j);
      assert j > 0 ==> path[j - 1] != path[|path| - 1];
    }
    var longer := path + [child];
    forall i | 0 <= i < |longer| ensures Linked(f, longer, i) { assert i < |path| ==> Linked(f, path, i); }
  }

  lemma PathIsShort(f: Forest, path: seq<string>, p: Option<string>)
    requires WellKept(f) && PathTo(f, path, p)
    ensures |path| <= |f.ids|
  {
    forall x | x in path ensures x in f.ids {
      var i :| 0 <= i < |path| && path[i] == x;
      assert Linked(f, path, i);
    }
    FitsIn(path, f.ids);
  }

  lemma {:induction false} FitsIn(s: seq<string>, t: seq<string>)
    requires Distinct(s) && forall x :: x in s ==> x in t
    ensures |s| <= |t|
  {
    if s != [] {
      assert s[0] in t;
      var i :| 0 <= i < |t| && t[i] == s[0];
      var rest := t[..i] + t[i + 1..];
      forall x | x in s[1..] ensures x in rest {
        var k :| 0 <= k < |s[1..]| && s[1..][k] == x;
        assert s[k + 1] == x && x in s;
        assert t == t[..i] + [t[i]] + t[i + 1..];
      }
      FitsIn(s[1..], rest);
    }
  }

  // ---------------------------------------------------------------- renumbering

  type Orders = map<string, int>

  /** The groups in `done` carry their rank, the others what they had. */
  ghost predicate Renumbered(f: Forest, le: Order, was: Orders, now: Orders, done: set<string>) {
    && was.Keys == now.Keys == f.info.Keys
    && forall id :: id in f.info ==> now[id] == if id in done then Rank(f, le, id) else was[id]
  }

  lemma RenumberedTwice(f: Forest, le: Order, a: Orders, b: Orders, c: Orders, s: set<string>, t: set<string>)
    requires Renumbered(f, le, a, b, s) && Renumbered(f, le, b, c, t)
    ensures Renumbered(f, le, a, c, s + t) && (a == c <==> a == b && b == c)
  {
    hide Rank;
    if a == c {
      assert forall id :: id in f.info ==> b[id] == a[id];
    }
  }

  lemma RenumberOne(f: Forest, le: Order, was: Orders, now: Orders, done: set<string>, id: string)
    requires Renumbered(f, le, was, now, done) && id in f.info
    ensures id in now
    ensures now[id] == Rank(f, le, id) ==> Renumbered(f, le, was, now, done + {id})
    ensures now[id] != Rank(f, le, id) ==>
      var next := now[id := Rank(f, le, id)]; Renumbered(f, le, was, next, done + {id}) && was != next
  {
    hide Rank;
    if now[id] != Rank(f, le, id) {
      var next := now[id := Rank(f, le, id)];
      assert was[id] == now[id] && next[id] != was[id];
    }
  }

  lemma NothingRenumbered(f: Forest, le: Order, was: Orders)
    requires was.Keys == f.info.Keys
    ensures Renumbered(f, le, was, was, {})
  {
  }

  lemma SetOfNext(s: seq<string>, k: nat)
    requires k < |s|
    ensures SetOf(s[..k + 1]) == SetOf(s[..k]) + {s[k]}
  {
    assert s[..k + 1] == s[..k] + [s[k]];
  }

  /** The siblings, and what lies below the first `k` of them. */
  ghost predicate Covered(f: Forest, s: seq<string>, k: nat, done: set<string>)
    requires k <= |s|
  {
    forall id :: id in done <==> id in s || exists j :: 0 <= j < k && id in Below(f, Some(s[j]))
  }

  lemma CoveredStarts(f: Forest, s: seq<string>)
    ensures Covered(f, s, 0, SetOf(s))
  {
  }

  lemma CoveredNext(f: Forest, s: seq<string>, k: nat, done: set<string>)
    requires k < |s| && Covered(f, s, k, done)
    ensures Covered(f, s, k + 1, done + Below(f, Some(s[k])))
  {
    hide Below;
  }

  type Lists = map<string, seq<string>>

  /** The lists of the groups in `done` are sorted, the others are as they were. */
  ghost predicate Rearranged(le: Order, was: Lists, now: Lists, done: set<string>) {
    was.Keys == now.Keys && forall id :: id in was ==> now[id] == if id in done then Sort(was[id], le) else was[id]
  }

  lemma RearrangeOne(le: Order, was: Lists, now: Lists, done: set<string>, id: string)
    requires Rearranged(le, was, now, done) && id in was && id !in done
    ensures now[id] == was[id]
    ensures now[id] == Sort(now[id], le) ==> Rearranged(le, was, now, done + {id})
    ensures now[id] != Sort(now[id], le) ==>
      var next := now[id := Sort(now[id], le)]; Rearranged(le, was, next, done + {id}) && was != next
  {
    hide Sort;
    if now[id] != Sort(now[id], le) {
      var next := now[id := Sort(now[id], le)];
      assert next[id] != was[id];
    }
  }

  lemma NothingRearranged(le: Order, was: Lists)
    ensures Rearranged(le, was, was, {})
  {
  }

  /** The projection the sort rewrites: `orders`, the lists and the root list change, the forest does not. */
  class GroupManager {
    const forest: Forest
    var root: seq<string>
    var lists: map<string, seq<string>>
    var orders: Orders
    var changed: bool

    ghost predicate Valid()
      reads this
    {
      WellKept(forest) && lists.Keys == forest.info.Keys && orders.Keys == forest.info.Keys
    }

    /** Numbers the siblings 0, 1, 2, and so on in name order. */
    method NumberSiblings(s: seq<string>, le: Order, ghost parent: Option<string>)
      requires Valid() && s == Siblings(forest, le, parent)
      modifies this`orders, this`changed
      ensures Valid() && Renumbered(forest, le, old(orders), orders, SetOf(s))
      ensures changed == (old(changed) || orders != old(orders))
    {
      hide Rank, Siblings, Renumbered, SetOf, WellKept;
      SiblingsFacts(forest, le, parent);
      assert s[..0] == [] && SetOf([]) == {} by { EmptySet(); }
      NothingRenumbered(forest, le, orders);
      for k := 0 to |s|
        invariant orders.Keys == forest.info.Keys && Renumbered(forest, le, old(orders), orders, SetOf(s[..k]))
        invariant changed == (old(changed) || orders != old(orders))
      {
        RankOf(forest, le, parent, k);
        assert s[k] in s;
        RenumberOne(forest, le, old(orders), orders, SetOf(s[..k]), s[k]);
        SetOfNext(s, k);
        if orders[s[k]] != k {
          orders := orders[s[k] := k];
          changed := true;
        }
      }
      assert s[..|s|] == s;
    }

    /** Everything below `parent` is renumbered; `path` is why this ends even when parents form cycles. */
    method SortGroups(parent: Option<string>, le: Order, ghost path: seq<string>)
      requires Valid() && PathTo(forest, path, parent)
      modifies this`orders, this`changed
      ensures Valid() && Renumbered(forest, le, old(orders), orders, Below(forest, parent))
      ensures changed == (old(changed) || orders != old(orders))
      decreases |forest.ids| - |path|
    {
      hide Rank, PathTo, Renumbered, Below, Covered, SetOf, WellKept;
      var s := Sort(Where(forest, forest.ids, parent), le);
      assert s == Siblings(forest, le, parent);
      hide Siblings;
      SiblingsFacts(forest, le, parent);
      NumberSiblings(s, le, parent);
      ghost var done := SetOf(s);
      CoveredStarts(forest, s);
      for k := 0 to |s|
        invariant Valid() && Renumbered(forest, le, old(orders), orders, done)
        invariant changed == (old(changed) || orders != old(orders))
        invariant Covered(forest, s, k, done)
      {
        ghost var before := orders;
        assert s[k] in s;
        PathGrows(forest, path, parent, s[k]);
        PathIsShort(forest, path + [s[k]], Some(s[k]));
        SortGroups(Some(s[k]), le, path + [s[k]]);
        RenumberedTwice(forest, le, old(orders), before, orders, done, Below(forest, Some(s[k])));
        CoveredNext(forest, s, k, done);
        done := done + Below(forest, Some(s[k]));
      }
      WholeSubtree(forest, s, parent, done);
    }

    ghost function TheView(): View
      reads this
    {
      View(root, lists, orders)
    }

    /** Sorts every list and renumbers the forest; answers whether anything moved. */
    method ApplyConnectionSort(connections: seq<Connection>, preset: Preset, fold: Fold) returns (r: bool)
      requires Valid()
      modifies this
      ensures Valid()
      ensures preset.Manual? || preset.Unknown? ==> TheView() == old(TheView()) && !r
      ensures preset.ByName? ==> TheView() == SortedView(forest, connections, fold, preset.reverse, old(TheView()))
      ensures r == (TheView() != old(TheView()))
    {
      hide Rank, Below, PathTo, Renumbered, Rearranged, SetOf, Sort, SortedView;
      if !preset.ByName? { return false; }
      ghost var was := TheView();
      var lookup := BuildLookup(connections);
      var byKey := ConnectionOrder(lookup, fold, preset.reverse);
      var byName := ByKey(GroupKey(forest, fold), preset.reverse);
      changed := false;
      var sorted := Sort(root, byKey);
      if root != sorted {
        root := sorted;
        changed := true;
      }
      SortLists(byKey);
      EmptyPath(forest);
      SortGroups(None, byName, []);
      r := changed;
      ViewIsSorted(forest, connections, fold, preset.reverse, was, TheView());
    }

    method SortLists(le: Order)
      requires Valid()
      modifies this`lists, this`changed
      ensures Valid() && Rearranged(le, old(lists), lists, SetOf(forest.ids))
      ensures changed == (old(changed) || lists != old(lists))
    {
      hide Rearranged, SetOf, Sort, WellKept;
      assert forest.ids[..0] == [] && SetOf([]) == {} by { EmptySet(); }
      NothingRearranged(le, lists);
      for k := 0 to |forest.ids|
        invariant Valid() && Rearranged(le, old(lists), lists, SetOf(forest.ids[..k]))
        invariant changed == (old(changed) || lists != old(lists))
      {
        var id := forest.ids[k];
        KeptIds(forest, k);
        RearrangeOne(le, old(lists), lists, SetOf(forest.ids[..k]), id);
        SetOfNext(forest.ids, k);
        var sorted := Sort(lists[id], le);
        if lists[id] != sorted {
          lists := lists[id := sorted];
          changed := true;
        }
      }
      assert forest.ids[..|forest.ids|] == forest.ids;
    }
  }

  lemma EmptySet()
    ensures SetOf([]) == {}
  {
  }

  lemma KeptIds(f: Forest, k: nat)
    requires WellKept(f) && k < |f.ids|
    ensures f.ids[k] in f.info && f.ids[k] !in SetOf(f.ids[..k])
  {
    assert f.ids[k] in f.ids;
  }

  lemma EmptyPath(f: Forest)
    ensures PathTo(f, [], None)
  {
  }

  lemma WholeSubtree(f: Forest, s: seq<string>, p: Option<string>, done: set<string>)
    requires forall id :: id in s <==> id in f.info && ParentOf(f, id) == p
    requires Covered(f, s, |s|, done)
    ensures done == Below(f, p)
  {
    forall id ensures id in done <==> id in Below(f, p) {
      BelowSplits(f, p, id);
      hide Under, UnderBy;
      if c :| c in f.info && ParentOf(f, c) == p && id in Below(f, Some(c)) {
        assert c in s;
        var j :| 0 <= j < |s| && s[j] == c;
        assert id in done;
      }
      assert forall j :: 0 <= j < |s| ==> s[j] in s;
    }
  }

  // ---------------------------------------------------------------- the whole sort

  datatype Preset = Manual | Unknown | ByName(reverse: bool)

  datatype View = View(root: seq<string>, lists: map<string, seq<string>>, orders: Orders)

  function ConnectionOrder(lookup: map<string, Connection>, fold: Fold, reverse: bool): Order {
    ByKey(ref => Key(lookup, fold, ref), reverse)
  }

  /** What the sort leaves. */
  ghost function SortedView(f: Forest, connections: seq<Connection>, fold: Fold, reverse: bool, v: View): View
  {
    var byKey := ConnectionOrder(Lookup(connections), fold, reverse);
    var byName := ByKey(GroupKey(f, fold), reverse);
    View(
      Sort(v.root, byKey),
      map id | id in v.lists :: Sort(v.lists[id], byKey),
      map id | id in v.orders :: if id in Below(f, None) then Rank(f, byName, id) else v.orders[id])
  }

  lemma ConnectionOrderIsOrder(lookup: map<string, Connection>, fold: Fold, reverse: bool)
    ensures TotalPreorder(ConnectionOrder(lookup, fold, reverse))
  {
    ByKeyIsOrder(ref => Key(lookup, fold, ref), reverse);
  }

  lemma ViewIsSorted(f: Forest, connections: seq<Connection>, fold: Fold, reverse: bool, v: View, w: View)
    requires WellKept(f) && v.lists.Keys == f.info.Keys
    requires w.root == Sort(v.root, ConnectionOrder(Lookup(connections), fold, reverse))
    requires Rearranged(ConnectionOrder(Lookup(connections), fold, reverse), v.lists, w.lists, SetOf(f.ids))
    requires Renumbered(f, ByKey(GroupKey(f, fold), reverse), v.orders, w.orders, Below(f, None))
    ensures w == SortedView(f, connections, fold, reverse, v)
  {
    hide Rank, Below, Sort, ConnectionOrder, ByKey, Renumbered, Rearranged, SetOf;
    ListsOfView(f, ConnectionOrder(Lookup(connections), fold, reverse), v.lists, w.lists);
    OrdersOfView(f, ByKey(GroupKey(f, fold), reverse), v.orders, w.orders);
  }

  lemma ListsOfView(f: Forest, le: Order, was: Lists, now: Lists)
    requires WellKept(f) && was.Keys == f.info.Keys && Rearranged(le, was, now, SetOf(f.ids))
    ensures now == map id | id in was :: Sort(was[id], le)
  {
    hide Sort;
  }

  lemma OrdersOfView(f: Forest, le: Order, was: Orders, now: Orders)
    requires Renumbered(f, le, was, now, Below(f, None))
    ensures now == map id | id in was :: if id in Below(f, None) then Rank(f, le, id) else was[id]
  {
    hide Rank, Below;
  }

  /** Sorting again moves nothing, in either direction and whatever the parents say. */
  lemma SecondSortChangesNothing(f: Forest, connections: seq<Connection>, fold: Fold, reverse: bool, v: View)
    ensures var once := SortedView(f, connections, fold, reverse, v);
      SortedView(f, connections, fold, reverse, once) == once
  {
    hide Rank, Below, Sort, Ordered, ConnectionOrder, Lookup, ByKey;
    var byKey := ConnectionOrder(Lookup(connections), fold, reverse);
    var once := SortedView(f, connections, fold, reverse, v);
    SortTwice(v.root, connections, fold, reverse);
    forall id | id in v.lists ensures Sort(once.lists[id], byKey) == once.lists[id] {
      SortTwice(v.lists[id], connections, fold, reverse);
    }
    var twice := SortedView(f, connections, fold, reverse, once);
    assert twice.lists == once.lists;
    assert twice.orders == once.orders;
  }

  lemma SortTwice(s: seq<string>, connections: seq<Connection>, fold: Fold, reverse: bool)
    ensures var le := ConnectionOrder(Lookup(connections), fold, reverse); Sort(Sort(s, le), le) == Sort(s, le)
  {
    hide Sort, Ordered, ConnectionOrder;
    var le := ConnectionOrder(Lookup(connections), fold, reverse);
    ConnectionOrderIsOrder(Lookup(connections), fold, reverse);
    SortOrders(s, le);
    SortOfOrdered(Sort(s, le), le);
  }

  /** Every list keeps its members, is ordered by the decorated key, and keeps ties as they were; no other list is. */
  lemma ListsAreStablySorted(s: seq<string>, t: seq<string>, connections: seq<Connection>, fold: Fold, reverse: bool)
    ensures var le := ConnectionOrder(Lookup(connections), fold, reverse);
      && (t == Sort(s, le) <==> Ordered(t, le) && SameTies(s, t, le))
      && multiset(Sort(s, le)) == multiset(s)
  {
    hide Sort, Ordered, ConnectionOrder, SameTies;
    var le := ConnectionOrder(Lookup(connections), fold, reverse);
    ConnectionOrderIsOrder(Lookup(connections), fold, reverse);
    SortIsTheOne(s, t, le);
    SortPermutes(s, le);
  }

  /** Siblings are numbered 0 to k - 1, each number once, in name order. */
  lemma SiblingsAreNumbered(f: Forest, fold: Fold, reverse: bool, parent: Option<string>)
    requires WellKept(f)
    ensures var le := ByKey(GroupKey(f, fold), reverse);
      var k := |Where(f, f.ids, parent)|;
      && (forall id :: id in f.info && ParentOf(f, id) == parent ==> Rank(f, le, id) < k)
      && (forall a, b ::
            a in f.info && b in f.info && ParentOf(f, a) == parent && ParentOf(f, b) == parent
            && Rank(f, le, a) < Rank(f, le, b)
            ==> le(a, b))
      && (forall n :: 0 <= n < k ==> NumberTaken(f, le, parent, n))
  {
    hide ByKey, Where, Rank, NumberTaken;
    var le := ByKey(GroupKey(f, fold), reverse);
    ByKeyIsOrder(GroupKey(f, fold), reverse);
    SortPermutes(Where(f, f.ids, parent), le);
    forall id | id in f.info && ParentOf(f, id) == parent ensures Rank(f, le, id) < |Siblings(f, le, parent)| {
      RankIsPlace(f, le, id);
    }
    forall a, b | a in f.info && b in f.info && ParentOf(f, a) == parent && ParentOf(f, b) == parent
      && Rank(f, le, a) < Rank(f, le, b)
      ensures le(a, b) {
      RankIsPlace(f, le, a);
      RankIsPlace(f, le, b);
      SortOrders(Where(f, f.ids, parent), le);
    }
    forall n | 0 <= n < |Siblings(f, le, parent)| ensures NumberTaken(f, le, parent, n) {
      EveryNumberIsTaken(f, le, parent, n);
    }
  }

  lemma RankIsPlace(f: Forest, le: Order, id: string)
    requires WellKept(f) && id in f.info
    ensures var s := Siblings(f, le, ParentOf(f, id)); Rank(f, le, id) < |s| && s[Rank(f, le, id)] == id
  {
    hide Siblings;
    SiblingsFacts(f, le, ParentOf(f, id));
  }

  lemma EveryNumberIsTaken(f: Forest, le: Order, parent: Option<string>, n: nat)
    requires WellKept(f) && n < |Siblings(f, le, parent)|
    ensures NumberTaken(f, le, parent, n)
  {
    hide Rank, Siblings;
    var s := Siblings(f, le, parent);
    SiblingsFacts(f, le, parent);
    assert s[n] in s;
    RankOf(f, le, parent, n);
    forall a, b | a in f.info && b in f.info && ParentOf(f, a) == parent && ParentOf(f, b) == parent
      && Rank(f, le, a) == n && Rank(f, le, b) == n
      ensures a == b {
      RankIsPlace(f, le, a);
      RankIsPlace(f, le, b);
    }
  }

  /** Exactly one of the siblings has the number. */
  ghost predicate NumberTaken(f: Forest, le: Order, parent: Option<string>, n: nat) {
    && (exists id :: id in f.info && ParentOf(f, id) == parent && Rank(f, le, id) == n)
    && (forall a, b ::
          a in f.info && b in f.info && ParentOf(f, a) == parent && ParentOf(f, b) == parent
          && Rank(f, le, a) == n && Rank(f, le, b) == n
          ==> a == b)
  }

  lemma RankOf(f: Forest, le: Order, parent: Option<string>, k: nat)
    requires WellKept(f) && k < |Siblings(f, le, parent)|
    ensures Rank(f, le, Siblings(f, le, parent)[k]) == k
  {
    var s := Siblings(f, le, parent);
    SiblingsFacts(f, le, parent);
    assert s[k] in s;
    PositionAt(s, k);
  }
}
