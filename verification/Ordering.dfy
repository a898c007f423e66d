/** Orders on text, and the one stable arrangement of a list that follows an order. */
module Ordering {

  // ---------------------------------------------------------------- text

  /** Code-point order. */
  predicate Less(a: string, b: string) {
    b != [] && (a == [] || a[0] < b[0] || (a[0] == b[0] && Less(a[1..], b[1..])))
  }

  lemma {:induction false} LessIsTotal(a: string, b: string)
    ensures Less(a, b) || Less(b, a) || a == b
    ensures !(Less(a, b) && Less(b, a)) && !(Less(a, b) && a == b)
    decreases |a|
  {
    if a != [] && b != [] && a[0] == b[0] {
      LessIsTotal(a[1..], b[1..]);
      assert a == [a[0]] + a[1..] && b == [b[0]] + b[1..];
    }
  }

  lemma {:induction false} LessIsTransitive(a: string, b: string, c: string)
    requires Less(a, b) && Less(b, c)
    ensures Less(a, c)
    decreases |a|
  {
    if a != [] && a[0] == b[0] && b[0] == c[0] { LessIsTransitive(a[1..], b[1..], c[1..]); }
  }

  /** Tuple order: the first difference decides. */
  predicate TupleLess(a: seq<string>, b: seq<string>) {
    b != [] && (a == [] || Less(a[0], b[0]) || (a[0] == b[0] && TupleLess(a[1..], b[1..])))
  }

  lemma {:induction false} TupleLessIsTotal(a: seq<string>, b: seq<string>)
    ensures TupleLess(a, b) || TupleLess(b, a) || a == b
    ensures !(TupleLess(a, b) && TupleLess(b, a))
    decreases |a|
  {
    hide Less;
    if a != [] && b != [] {
      LessIsTotal(a[0], b[0]);
      if a[0] == b[0] {
        TupleLessIsTotal(a[1..], b[1..]);
        assert a == [a[0]] + a[1..] && b == [b[0]] + b[1..];
      }
    }
  }

  lemma {:induction false} TupleLessIsTransitive(a: seq<string>, b: seq<string>, c: seq<string>)
    requires TupleLess(a, b) && TupleLess(b, c)
    ensures TupleLess(a, c)
    decreases |a|
  {
    hide Less;
    if a != [] {
      if Less(a[0], b[0]) && Less(b[0], c[0]) { LessIsTransitive(a[0], b[0], c[0]); }
      if a[0] == b[0] && b[0] == c[0] && !Less(a[0], c[0]) {
        LessIsTotal(a[0], a[0]);
        TupleLessIsTransitive(a[1..], b[1..], c[1..]);
      }
    }
  }

  // ---------------------------------------------------------------- stable sorting

  ghost predicate TotalPreorder<T(!new)>(le: (T, T) -> bool) {
    && (forall a, b :: le(a, b) || le(b, a))
    && (forall a, b, c :: le(a, b) && le(b, c) ==> le(a, c))
  }

  predicate Ordered<T>(s: seq<T>, le: (T, T) -> bool) {
    forall i, j :: 0 <= i < j < |s| ==> le(s[i], s[j])
  }

  function Insert<T>(x: T, s: seq<T>, le: (T, T) -> bool): seq<T> {
    if s == [] || le(x, s[0]) then [x] + s else [s[0]] + Insert(x, s[1..], le)
  }

  /** `sorted`: ties keep their order. */
  function Sort<T>(s: seq<T>, le: (T, T) -> bool): seq<T> {
    if s == [] then [] else Insert(s[0], Sort(s[1..], le), le)
  }

  function Tie<T>(y: T, x: T, le: (T, T) -> bool): seq<T> { if le(x, y) && le(y, x) then [y] else [] }

  /** The elements that tie with `x`, in list order. */
  function Ties<T>(s: seq<T>, x: T, le: (T, T) -> bool): seq<T> {
    if s == [] then [] else Tie(s[0], x, le) + Ties(s[1..], x, le)
  }

  lemma {:induction false} InsertPermutes<T>(x: T, s: seq<T>, le: (T, T) -> bool)
    ensures multiset(Insert(x, s, le)) == multiset(s) + multiset{x}
  {
    if s != [] {
      assert s == [s[0]] + s[1..];
      if !le(x, s[0]) { InsertPermutes(x, s[1..], le); }
    }
  }

  lemma {:induction false} SortPermutes<T>(s: seq<T>, le: (T, T) -> bool)
    ensures multiset(Sort(s, le)) == multiset(s) && |Sort(s, le)| == |s|
  {
    if s != [] {
      assert s == [s[0]] + s[1..];
      SortPermutes(s[1..], le);
      InsertPermutes(s[0], Sort(s[1..], le), le);
    }
    assert |multiset(Sort(s, le))| == |Sort(s, le)| && |multiset(s)| == |s|;
  }

  lemma {:induction false} InsertOrders<T(!new)>(x: T, s: seq<T>, le: (T, T) -> bool)
    requires TotalPreorder(le) && Ordered(s, le)
    ensures Ordered(Insert(x, s, le), le)
  {
    if s != [] && !le(x, s[0]) {
      var r := Insert(x, s[1..], le);
      InsertOrders(x, s[1..], le);
      InsertPermutes(x, s[1..], le);
      forall i | 0 <= i < |r| ensures le(s[0], r[i]) {
        assert r[i] in multiset(r);
        assert r[i] == x || r[i] in s[1..];
      }
    } else if s != [] {
      forall i | 0 <= i < |s| ensures le(x, s[i]) { assert i > 0 ==> le(s[0], s[i]); }
    }
  }

  lemma {:induction false} SortOrders<T(!new)>(s: seq<T>, le: (T, T) -> bool)
    requires TotalPreorder(le)
    ensures Ordered(Sort(s, le), le)
  {
    if s != [] {
      SortOrders(s[1..], le);
      InsertOrders(s[0], Sort(s[1..], le), le);
    }
  }

  lemma TieApart<T(!new)>(y: T, z: T, x: T, le: (T, T) -> bool, rest: seq<T>)
    requires TotalPreorder(le) && !le(y, z)
    ensures Tie(z, x, le) + (Tie(y, x, le) + rest) == Tie(y, x, le) + (Tie(z, x, le) + rest)
  {
    if le(x, y) && le(y, x) {
      assert !le(x, z);
      assert Tie(z, x, le) == [];
    } else {
      assert Tie(y, x, le) == [];
    }
  }

  lemma {:induction false} InsertTies<T(!new)>(y: T, s: seq<T>, x: T, le: (T, T) -> bool)
    requires TotalPreorder(le)
    ensures Ties(Insert(y, s, le), x, le) == Tie(y, x, le) + Ties(s, x, le)
  {
    hide Tie, TotalPreorder;
    if s == [] || le(y, s[0]) {
      assert ([y] + s)[1..] == s;
    } else {
      var r := Insert(y, s[1..], le);
      InsertTies(y, s[1..], x, le);
      assert ([s[0]] + r)[1..] == r;
      TieApart(y, s[0], x, le, Ties(s[1..], x, le));
    }
  }

  /** Sorting never changes the order of elements that tie. */
  lemma {:induction false} SortIsStable<T(!new)>(s: seq<T>, x: T, le: (T, T) -> bool)
    requires TotalPreorder(le)
    ensures Ties(Sort(s, le), x, le) == Ties(s, x, le)
  {
    if s != [] {
      SortIsStable(s[1..], x, le);
      InsertTies(s[0], Sort(s[1..], le), x, le);
    }
  }

  /** Nothing moves in a list that is already in order. */
  lemma {:induction false} SortOfOrdered<T>(s: seq<T>, le: (T, T) -> bool)
    requires Ordered(s, le)
    ensures Sort(s, le) == s
  {
    if s != [] {
      SortOfOrdered(s[1..], le);
      assert |s| > 1 ==> s[1..][0] == s[1];
    }
  }

  lemma {:induction false} TiesAreMembers<T>(s: seq<T>, x: T, le: (T, T) -> bool, y: T)
    ensures y in Ties(s, x, le) <==> y in s && le(x, y) && le(y, x)
  {
    if s != [] {
      TiesAreMembers(s[1..], x, le, y);
      assert s == [s[0]] + s[1..];
    }
  }

  ghost predicate SameTies<T(!new)>(s: seq<T>, t: seq<T>, le: (T, T) -> bool) {
    forall x :: Ties(s, x, le) == Ties(t, x, le)
  }

  lemma FirstIsLeast<T(!new)>(s: seq<T>, y: T, le: (T, T) -> bool)
    requires TotalPreorder(le) && Ordered(s, le) && y in s
    ensures le(s[0], y)
  {
    var i :| 0 <= i < |s| && s[i] == y;
    assert i == 0 || le(s[0], s[i]);
  }

  /** An ordered list is determined by its ties: there is one stable sorted arrangement. */
  lemma {:induction false} OneArrangement<T(!new)>(s: seq<T>, t: seq<T>, le: (T, T) -> bool)
    requires TotalPreorder(le) && Ordered(s, le) && Ordered(t, le) && SameTies(s, t, le)
    ensures s == t
  {
    hide TotalPreorder;
    if s != [] { Meets(s, t, s[0], le); }
    if t != [] { Meets(t, s, t[0], le); }
    if s != [] && t != [] {
      FirstIsLeast(s, t[0], le);
      FirstIsLeast(t, s[0], le);
      SelfTie(s[0], le);
      assert Ties(s, s[0], le) == [s[0]] + Ties(s[1..], s[0], le);
      assert Ties(t, s[0], le) == [t[0]] + Ties(t[1..], s[0], le);
      assert Ties(s, s[0], le)[0] == Ties(t, s[0], le)[0];
      forall x ensures Ties(s[1..], x, le) == Ties(t[1..], x, le) { TiesOfTail(s, t, x, le); }
      OneArrangement(s[1..], t[1..], le);
    }
  }

  lemma TiesOfTail<T>(s: seq<T>, t: seq<T>, x: T, le: (T, T) -> bool)
    requires s != [] && t != [] && s[0] == t[0] && Ties(s, x, le) == Ties(t, x, le)
    ensures Ties(s[1..], x, le) == Ties(t[1..], x, le)
  {
    var n := |Tie(s[0], x, le)|;
    assert Ties(s, x, le)[n..] == Ties(s[1..], x, le);
    assert Ties(t, x, le)[n..] == Ties(t[1..], x, le);
  }

  lemma SelfTie<T(!new)>(x: T, le: (T, T) -> bool)
    requires TotalPreorder(le)
    ensures le(x, x)
  {
  }

  lemma Meets<T(!new)>(s: seq<T>, t: seq<T>, x: T, le: (T, T) -> bool)
    requires TotalPreorder(le) && SameTies(s, t, le) && x in s
    ensures x in t
  {
    TiesAreMembers(s, x, le, x);
    TiesAreMembers(t, x, le, x);
  }

  /** What `sorted` returns, without saying how: ordered, and every tie as it was. */
  lemma SortIsTheOne<T(!new)>(s: seq<T>, t: seq<T>, le: (T, T) -> bool)
    requires TotalPreorder(le)
    ensures t == Sort(s, le) <==> Ordered(t, le) && SameTies(s, t, le)
  {
    hide TotalPreorder;
    SortOrders(s, le);
    forall x ensures Ties(Sort(s, le), x, le) == Ties(s, x, le) { SortIsStable(s, x, le); }
    if Ordered(t, le) && SameTies(s, t, le) {
      forall x ensures Ties(t, x, le) == Ties(Sort(s, le), x, le) { assert Ties(s, x, le) == Ties(t, x, le); }
      OneArrangement(t, Sort(s, le), le);
    }
  }
}
