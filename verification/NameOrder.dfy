/** The order of the connections and of the groups, told by their names. */
module NameOrder {
  import opened Text
  import opened Ordering
  import opened ConnectionSort

  // ---------------------------------------------------------------- texts and tuples

  /** `a` is a proper start of `b`, or is smaller at the first place where they differ. */
  ghost predicate Dictionary(a: string, b: string) { exists k :: 0 <= k < |b| && SmallerAt(a, b, k) }

  predicate SmallerAt(a: string, b: string, k: nat)
    requires k < |b|
  {
    k <= |a| && a[..k] == b[..k] && (k == |a| || a[k] < b[k])
  }

  lemma {:induction false} LessIs(a: string, b: string)
    ensures Less(a, b) <==> Dictionary(a, b)
    decreases |b|
  {
    if b != [] && a != [] && a[0] == b[0] {
      LessIs(a[1..], b[1..]);
      if Less(a[1..], b[1..]) {
        var k :| 0 <= k < |b[1..]| && SmallerAt(a[1..], b[1..], k);
        assert a[..k + 1] == [a[0]] + a[1..][..k] && b[..k + 1] == [b[0]] + b[1..][..k];
        assert SmallerAt(a, b, k + 1);
      }
      if Dictionary(a, b) {
        var k :| 0 <= k < |b| && SmallerAt(a, b, k);
        assert k > 0;
        assert a[1..][..k - 1] == a[..k][1..] && b[1..][..k - 1] == b[..k][1..];
        assert SmallerAt(a[1..], b[1..], k - 1);
      }
    } else if b != [] {
      if Less(a, b) { assert SmallerAt(a, b, 0); }
      if Dictionary(a, b) {
        var k :| 0 <= k < |b| && SmallerAt(a, b, k);
        assert k > 0 ==> a[..k][0] == b[..k][0];
      }
    }
  }

  /** Tuples of one length: the first difference decides. */
  predicate DiffersAt(a: seq<string>, b: seq<string>, k: nat)
    requires k < |a| == |b|
  {
    a[..k] == b[..k] && Less(a[k], b[k])
  }

  ghost predicate Precedes(a: seq<string>, b: seq<string>)
    requires |a| == |b|
  {
    exists k :: 0 <= k < |a| && DiffersAt(a, b, k)
  }

  lemma {:induction false} TupleLessIs(a: seq<string>, b: seq<string>)
    requires |a| == |b|
    ensures TupleLess(a, b) <==> Precedes(a, b)
  {
    hide Less;
    if a != [] {
      TupleLessIs(a[1..], b[1..]);
      LessIsTotal(a[0], b[0]);
      if Less(a[0], b[0]) { assert DiffersAt(a, b, 0); }
      if a[0] == b[0] && Precedes(a[1..], b[1..]) {
        var k :| 0 <= k < |a[1..]| && DiffersAt(a[1..], b[1..], k);
        assert a[..k + 1] == [a[0]] + a[1..][..k] && b[..k + 1] == [b[0]] + b[1..][..k];
        assert DiffersAt(a, b, k + 1);
      }
      if Precedes(a, b) {
        var k :| 0 <= k < |a| && DiffersAt(a, b, k);
        if k > 0 {
          assert a[..k][0] == b[..k][0];
          assert a[1..][..k - 1] == a[..k][1..] && b[1..][..k - 1] == b[..k][1..];
          assert DiffersAt(a[1..], b[1..], k - 1);
        }
      }
    }
  }

  // ---------------------------------------------------------------- connections

  /** The connection is shown under the first of its names that is not empty. */
  ghost predicate ShownAs(c: Connection, x: string) {
    var names := [c.displayName, c.nickname, c.alias, c.hostname];
    if exists k :: 0 <= k < 4 && names[k] != ""
      then exists k :: 0 <= k < 4 && names[k] == x && x != "" && forall j :: 0 <= j < k ==> names[j] == ""
      else x == ""
  }

  lemma PrimaryIs(c: Connection, x: string)
    ensures Primary(c) == x <==> ShownAs(c, x)
  {
    var names := [c.displayName, c.nickname, c.alias, c.hostname];
    assert names[0] == c.displayName && names[1] == c.nickname && names[2] == c.alias && names[3] == c.hostname;
  }

  /** The names that decide, in turn. */
  function Deciding(c: Connection, fold: Fold, shown: string, ref: string): seq<string> {
    [fold(fold(shown)), fold(fold(c.nickname)), fold(fold(c.alias)), fold(fold(c.hostname)), fold(ref)]
  }

  /** `a` is known and `b` is not, or their names decide. */
  ghost predicate Ahead(lookup: map<string, Connection>, fold: Fold, a: string, b: string) {
    if a in lookup && b in lookup then
      exists p, q :: ShownAs(lookup[a], p) && ShownAs(lookup[b], q)
        && Precedes(Deciding(lookup[a], fold, p, a), Deciding(lookup[b], fold, q, b))
    else if a !in lookup && b !in lookup then Less(fold(a), fold(b))
    else a in lookup
  }

  lemma KeyLess(lookup: map<string, Connection>, fold: Fold, a: string, b: string)
    ensures TupleLess(Key(lookup, fold, a), Key(lookup, fold, b)) <==> Ahead(lookup, fold, a, b)
  {
    hide ShownAs, Less, Primary, Precedes;
    ZeroBeforeOne();
    var k, l := Key(lookup, fold, a), Key(lookup, fold, b);
    if a in lookup && b in lookup {
      var p, q := Primary(lookup[a]), Primary(lookup[b]);
      PrimaryIs(lookup[a], p);
      PrimaryIs(lookup[b], q);
      forall x | ShownAs(lookup[a], x) ensures x == p { PrimaryIs(lookup[a], x); }
      forall x | ShownAs(lookup[b], x) ensures x == q { PrimaryIs(lookup[b], x); }
      assert k[1..] == Deciding(lookup[a], fold, p, a) && l[1..] == Deciding(lookup[b], fold, q, b);
      TupleLessIs(k[1..], l[1..]);
      FirstDecides(k, l);
    } else {
      FirstDecides(k, l);
      if a !in lookup && b !in lookup { TwiceTheSame(fold(a), fold(b)); }
    }
  }

  lemma FirstDecides(k: seq<string>, l: seq<string>)
    requires k != [] && l != []
    ensures TupleLess(k, l) <==> Less(k[0], l[0]) || (k[0] == l[0] && TupleLess(k[1..], l[1..]))
  {
  }

  lemma ZeroBeforeOne()
    ensures Less("0", "1") && !Less("1", "0") && !Less("0", "0") && !Less("1", "1") && "0" != "1"
  {
    assert "0"[0] == '0' && "1"[0] == '1';
  }

  lemma TwiceTheSame(x: string, y: string)
    ensures TupleLess(["1", x, x][1..], ["1", y, y][1..]) <==> Less(x, y)
  {
    hide Less;
    assert ["1", x, x][1..] == [x, x] && ["1", y, y][1..] == [y, y];
    TupleLessIs([x, x], [y, y]);
    if Less(x, y) { assert DiffersAt([x, x], [y, y], 0); }
  }

  /** Unknown references come last, in reverse first; no list turns the order of two names round. */
  lemma ConnectionsAreInOrder(s: seq<string>, connections: seq<Connection>, fold: Fold, reverse: bool, i: nat, j: nat)
    requires i < j < |Sort(s, ConnectionOrder(Lookup(connections), fold, reverse))|
    ensures var lookup := Lookup(connections);
      var t := Sort(s, ConnectionOrder(lookup, fold, reverse));
      if reverse then !Ahead(lookup, fold, t[i], t[j]) else !Ahead(lookup, fold, t[j], t[i])
  {
    hide Ahead, TupleLess, Sort, Lookup, Key;
    var lookup := Lookup(connections);
    var le := ConnectionOrder(lookup, fold, reverse);
    var t := Sort(s, le);
    ConnectionOrderIsOrder(lookup, fold, reverse);
    SortOrders(s, le);
    assert le(t[i], t[j]);
    KeyLess(lookup, fold, t[i], t[j]);
    KeyLess(lookup, fold, t[j], t[i]);
  }

  /** Among known connections the names shown go up, in reverse down. */
  lemma ShownNamesAreInOrder(s: seq<string>, connections: seq<Connection>, fold: Fold, reverse: bool, i: nat, j: nat,
    p: string, q: string)
    requires i < j < |Sort(s, ConnectionOrder(Lookup(connections), fold, reverse))|
    requires var t := Sort(s, ConnectionOrder(Lookup(connections), fold, reverse));
      && t[i] in Lookup(connections) && ShownAs(Lookup(connections)[t[i]], p)
      && t[j] in Lookup(connections) && ShownAs(Lookup(connections)[t[j]], q)
    ensures if reverse then !Dictionary(fold(fold(p)), fold(fold(q))) else !Dictionary(fold(fold(q)), fold(fold(p)))
  {
    hide ShownAs, Sort, Lookup, Less, Dictionary;
    var lookup := Lookup(connections);
    var t := Sort(s, ConnectionOrder(lookup, fold, reverse));
    ConnectionsAreInOrder(s, connections, fold, reverse, i, j);
    LessIs(fold(fold(p)), fold(fold(q)));
    LessIs(fold(fold(q)), fold(fold(p)));
    var a, b := Deciding(lookup[t[i]], fold, p, t[i]), Deciding(lookup[t[j]], fold, q, t[j]);
    if Less(a[0], b[0]) { assert DiffersAt(a, b, 0); }
    if Less(b[0], a[0]) { assert DiffersAt(b, a, 0); }
  }

  // ---------------------------------------------------------------- groups

  /** The numbers of siblings go up with their names, in reverse down. */
  lemma NumbersFollowNames(f: Forest, fold: Fold, reverse: bool, a: string, b: string)
    requires WellKept(f) && a in f.info && b in f.info && f.info[a].parent == f.info[b].parent
    requires var le := ByKey(GroupKey(f, fold), reverse); Rank(f, le, a) < Rank(f, le, b)
    ensures var x, y := fold(f.info[a].name), fold(f.info[b].name);
      if reverse then !Dictionary(x, y) else !Dictionary(y, x)
  {
    hide Rank, Less, TupleLess, Dictionary, WellKept;
    var le := ByKey(GroupKey(f, fold), reverse);
    SiblingsAreNumbered(f, fold, reverse, f.info[a].parent);
    assert le(a, b);
    OneName(fold(f.info[a].name), fold(f.info[b].name));
    OneName(fold(f.info[b].name), fold(f.info[a].name));
  }

  lemma OneName(x: string, y: string)
    ensures TupleLess([x], [y]) <==> Dictionary(x, y)
  {
    hide Less, Dictionary;
    assert [x][1..] == [] && [y][1..] == [];
    LessIs(x, y);
  }
}
