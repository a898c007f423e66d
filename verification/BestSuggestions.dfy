/** What the popup shows, told by the offers: the best of them, and only when there is something to complete. */
module BestSuggestions {
  import opened Text
  import opened LineTracker
  import opened SessionHistory
  import opened Suggestions

  /** The matches of a provider are its matching entries, every one of them and in its order. */
  lemma {:induction false} AllMatchesAre(entries: seq<string>, prefix: string) returns (ix: seq<nat>)
    ensures PicksInOrder(AllMatches(entries, prefix), entries, ix)
    ensures forall i: nat :: i in ix <==> i < |entries| && Matches(entries[i], prefix)
  {
    hide Matches, PicksInOrder, Shifted;
    if entries == [] {
      ix := [];
      NothingPicked<string>();
    } else {
      var e, tail := entries[0], entries[1..];
      var inner := AllMatchesAre(tail, prefix);
      assert entries == [e] + tail;
      ShiftedHas(inner);
      if Matches(e, prefix) {
        ix := [0] + Shifted(inner);
        PicksKeep(AllMatches(tail, prefix), e, tail, inner);
      } else {
        ix := Shifted(inner);
        PicksSkip(AllMatches(tail, prefix), e, tail, inner);
        assert AllMatches(entries, prefix) == AllMatches(tail, prefix);
      }
      forall i: nat ensures i in ix <==> i < |entries| && Matches(entries[i], prefix) {
        if 0 < i < |entries| { assert entries[i] == tail[i - 1]; }
      }
    }
  }

  // ---------------------------------------------------------------- the best offers

  /** Offers that begin with what was typed are ahead of the others; beyond that their order decides. */
  predicate Ahead(offers: seq<Suggestion>, prefix: string, a: nat, b: nat) {
    && a < |offers| && b < |offers|
    && if (prefix <= offers[a].text) == (prefix <= offers[b].text) then a < b
       else prefix <= offers[a].text
  }

  /** `ix` are first offers of their texts, in rank order. */
  predicate InRankOrder(offers: seq<Suggestion>, prefix: string, ix: seq<nat>) {
    && (forall i :: 0 <= i < |ix| ==> First(offers, ix[i]))
    && (forall i, j :: 0 <= i < j < |ix| ==> Ahead(offers, prefix, ix[i], ix[j]))
  }

  /** A first offer is left out only behind a full list. */
  predicate NoneBetter(offers: seq<Suggestion>, prefix: string, limit: nat, ix: seq<nat>) {
    forall a :: 0 <= a < |offers| && First(offers, a) && a !in ix ==>
      |ix| == limit && forall i :: 0 <= i < |ix| ==> Ahead(offers, prefix, ix[i], a)
  }

  /** `r` are the best offers, at most `limit` of them. */
  predicate Best(offers: seq<Suggestion>, prefix: string, limit: nat, r: seq<Suggestion>, ix: seq<nat>) {
    && |ix| == |r| <= limit
    && InRankOrder(offers, prefix, ix) && NoneBetter(offers, prefix, limit, ix)
    && forall i :: 0 <= i < |r| ==> ix[i] < |offers| && r[i] == offers[ix[i]]
  }

  /** Ranking moves the prefix matches ahead and changes nothing else. */
  lemma RankedIn(first: seq<Suggestion>, prefix: string) returns (inner: seq<nat>)
    ensures |inner| == |Ranked(first, prefix)|
    ensures forall k :: 0 <= k < |inner| ==> inner[k] < |first| && Ranked(first, prefix)[k] == first[inner[k]]
    ensures forall i, j :: 0 <= i < j < |inner| ==> Ahead(first, prefix, inner[i], inner[j])
    ensures forall m :: 0 <= m < |first| ==> m in inner
  {
    hide WithPrefix;
    var up := WithPrefixAre(first, prefix, true);
    var down := WithPrefixAre(first, prefix, false);
    inner := up + down;
    forall k | 0 <= k < |inner|
      ensures inner[k] < |first| && ((prefix <= first[inner[k]].text) == (k < |up|))
    {
      if k < |up| { assert inner[k] in up; } else { assert inner[k] in down; }
    }
    forall m | 0 <= m < |first| ensures m in inner { assert m in up || m in down; }
  }

  /** All first offers, prefix matches first. */
  lemma RankedAre(offers: seq<Suggestion>, prefix: string) returns (ix: seq<nat>)
    ensures var all := Ranked(FirstOfEach(offers, {}), prefix);
      && |ix| == |all| && InRankOrder(offers, prefix, ix)
      && (forall i :: 0 <= i < |ix| ==> ix[i] < |offers| && all[i] == offers[ix[i]])
      && forall a :: First(offers, a) ==> a in ix
  {
    hide FirstOfEach, Ranked, First;
    var first := FirstOfEach(offers, {});
    var outer := FirstOfEachAre(offers, {});
    var inner := RankedIn(first, prefix);
    ix := seq(|inner|, k requires 0 <= k < |inner| => outer[inner[k]]);
    forall i | 0 <= i < |ix| ensures First(offers, ix[i]) { assert ix[i] in outer; }
    forall a | First(offers, a) ensures a in ix {
      assert a in outer;
      var m :| 0 <= m < |outer| && outer[m] == a;
      assert m in inner;
      var k :| 0 <= k < |inner| && inner[k] == m;
      assert ix[k] == a;
    }
  }

  /** The first of a ranked list are the best. */
  lemma CutIsBest(offers: seq<Suggestion>, prefix: string, limit: nat, ix: seq<nat>, n: nat)
    requires InRankOrder(offers, prefix, ix) && forall a :: First(offers, a) ==> a in ix
    requires n <= |ix| && (n < |ix| ==> n == limit)
    ensures InRankOrder(offers, prefix, ix[..n]) && NoneBetter(offers, prefix, limit, ix[..n])
  {
    hide First, Ahead;
    forall a | 0 <= a < |offers| && First(offers, a) && a !in ix[..n]
      ensures n == limit && forall i :: 0 <= i < n ==> Ahead(offers, prefix, ix[i], a)
    {
      var k :| 0 <= k < |ix| && ix[k] == a;
      assert a !in ix[..n];
    }
  }

  lemma SuggestIsBest(ps: seq<Provider>, prefix: string, limit: nat) returns (ix: seq<nat>)
    ensures Best(AllOffers(ps, prefix, limit), prefix, limit, Suggest(ps, prefix, limit), ix)
  {
    hide AllOffers, FirstOfEach, Ranked, InRankOrder, NoneBetter;
    var offers := AllOffers(ps, prefix, limit);
    var full := RankedAre(offers, prefix);
    var n := if |full| <= limit then |full| else limit;
    CutIsBest(offers, prefix, limit, full, n);
    ix := full[..n];
  }

  lemma {:induction false} SameStart(offers: seq<Suggestion>, prefix: string, limit: nat, r: seq<Suggestion>,
    ix: seq<nat>, s: seq<Suggestion>, jx: seq<nat>, k: nat)
    requires Best(offers, prefix, limit, r, ix) && Best(offers, prefix, limit, s, jx) && k <= |ix| && k <= |jx|
    ensures ix[..k] == jx[..k]
  {
    if k > 0 {
      SameStart(offers, prefix, limit, r, ix, s, jx, k - 1);
      NotAhead(offers, prefix, limit, r, ix, s, jx, k - 1);
      NotAhead(offers, prefix, limit, s, jx, r, ix, k - 1);
      assert ix[..k] == ix[..k - 1] + [ix[k - 1]] && jx[..k] == jx[..k - 1] + [jx[k - 1]];
    }
  }

  lemma NotAhead(offers: seq<Suggestion>, prefix: string, limit: nat, r: seq<Suggestion>, ix: seq<nat>,
    s: seq<Suggestion>, jx: seq<nat>, k: nat)
    requires Best(offers, prefix, limit, r, ix) && Best(offers, prefix, limit, s, jx)
    requires k < |ix| && k < |jx| && ix[..k] == jx[..k]
    ensures !Ahead(offers, prefix, ix[k], jx[k])
  {
    hide First;
    var a, b := ix[k], jx[k];
    if Ahead(offers, prefix, a, b) {
      forall l | 0 <= l < |jx| ensures jx[l] != a {
        if l < k {
          assert jx[l] == jx[..k][l] == ix[..k][l] == ix[l];
          assert Ahead(offers, prefix, ix[l], a);
        }
        if l > k { assert Ahead(offers, prefix, b, jx[l]); }
      }
      assert false;
    }
  }

  lemma NotLonger(offers: seq<Suggestion>, prefix: string, limit: nat, r: seq<Suggestion>, ix: seq<nat>,
    s: seq<Suggestion>, jx: seq<nat>)
    requires Best(offers, prefix, limit, r, ix) && Best(offers, prefix, limit, s, jx)
    ensures |jx| <= |ix|
  {
    hide First;
    var n := |ix|;
    if n < |jx| {
      SameStart(offers, prefix, limit, r, ix, s, jx, n);
      var b := jx[n];
      forall l | 0 <= l < n ensures ix[l] != b {
        assert ix[l] == ix[..n][l] == jx[..n][l] == jx[l];
        assert Ahead(offers, prefix, jx[l], b);
      }
      assert false;
    }
  }

  /** The suggestions are the best offers and nothing else: there is only one such list. */
  lemma SuggestIs(ps: seq<Provider>, prefix: string, limit: nat, r: seq<Suggestion>)
    ensures r == Suggest(ps, prefix, limit)
      <==> exists ix :: Best(AllOffers(ps, prefix, limit), prefix, limit, r, ix)
  {
    hide Suggest, AllOffers, InRankOrder, NoneBetter;
    var offers, s := AllOffers(ps, prefix, limit), Suggest(ps, prefix, limit);
    var jx := SuggestIsBest(ps, prefix, limit);
    if ix :| Best(offers, prefix, limit, r, ix) {
      NotLonger(offers, prefix, limit, r, ix, s, jx);
      NotLonger(offers, prefix, limit, s, jx, r, ix);
      SameStart(offers, prefix, limit, r, ix, s, jx, |ix|);
      assert ix[..|ix|] == ix && jx[..|jx|] == jx;
    }
  }

  // ---------------------------------------------------------------- when the popup shows

  /** Some provider has an entry that contains the text and is not the text. */
  ghost predicate CanComplete(ps: seq<Provider>, text: string) {
    exists k, e :: 0 <= k < |ps| && e in ps[k].entries && Contains(e, text) && e != text
  }

  lemma {:induction false} OffersFrom(ps: seq<Provider>, prefix: string, limit: nat)
    ensures AllOffers(ps, prefix, limit) != [] <==> CanComplete(ps, prefix)
  {
    hide Contains, Offered;
    if ps != [] {
      OffersFrom(ps[1..], prefix, limit);
      OneOffers(ps[0], prefix, limit);
      if CanComplete(ps[1..], prefix) {
        var k, e :| 0 <= k < |ps[1..]| && e in ps[1..][k].entries && Contains(e, prefix) && e != prefix;
        assert e in ps[k + 1].entries;
      }
      if CanComplete(ps, prefix) {
        var k, e :| 0 <= k < |ps| && e in ps[k].entries && Contains(e, prefix) && e != prefix;
        if k > 0 { assert e in ps[1..][k - 1].entries; }
      }
    }
  }

  lemma OneOffers(p: Provider, prefix: string, limit: nat)
    ensures Offered(p, prefix, limit) != []
      <==> exists e :: e in p.entries && Contains(e, prefix) && e != prefix
  {
    hide Contains;
    AllMatchesMatch(p.entries, prefix);
    var all := AllMatches(p.entries, prefix);
    if all != [] {
      assert all[0] in all;
      assert Matches(all[0], prefix);
    }
    if e :| e in p.entries && Contains(e, prefix) && e != prefix { assert Matches(e, prefix); }
  }

  lemma SomethingIsSuggested(ps: seq<Provider>, prefix: string, limit: nat)
    ensures Suggest(ps, prefix, limit) != [] <==> limit > 0 && CanComplete(ps, prefix)
  {
    hide Suggest, AllOffers, CanComplete;
    OffersFrom(ps, prefix, limit);
    var offers, r := AllOffers(ps, prefix, limit), Suggest(ps, prefix, limit);
    var ix := SuggestIsBest(ps, prefix, limit);
    if offers != [] { assert First(offers, 0); }
    if r != [] { assert First(offers, ix[0]); }
  }

  /** Typing the suffix completes the text: what is missing of it, or all of it over what was typed. */
  predicate Completes(prefix: string, item: Item) {
    && Contains(item.text, prefix) && item.text != prefix
    && if prefix <= item.text then item.text == prefix + item.suffix
       else item.suffix == Erasures(|prefix|) + item.text
  }

  predicate Shown(p: Option<Payload>) { p.Some? && p.value.Show? }

  /** The popup shows exactly on a known line of two characters or more, outside a prompt, that can be completed. */
  lemma ShownExactly(t: Tracker, quiet: bool, ps: seq<Provider>, limit: nat, visible: bool)
    ensures var (now, sent) := Respond(t, quiet, Suggest(ps, t.line, limit), visible);
      && now == Shown(sent)
      && (Shown(sent) <==> t.valid && |t.line| >= 2 && !quiet && limit > 0 && CanComplete(ps, t.line))
      && (sent == Some(Hide) <==> visible && !Shown(sent))
  {
    hide Suggest, CanComplete;
    SomethingIsSuggested(ps, t.line, limit);
  }

  /** It shows the suggestions for that line, each with the keystrokes that type it. */
  lemma ShownItems(t: Tracker, quiet: bool, ps: seq<Provider>, limit: nat, visible: bool, prefix: string,
    items: seq<Item>, i: nat)
    requires Respond(t, quiet, Suggest(ps, t.line, limit), visible).1 == Some(Show(prefix, items))
    ensures prefix == t.line && |items| == |Suggest(ps, prefix, limit)|
    ensures i < |items| ==>
      var s := Suggest(ps, prefix, limit)[i];
      items[i].text == s.text && items[i].source == s.source && Completes(prefix, items[i])
  {
    hide Suggest, Contains;
    SuggestFacts(ps, prefix, limit);
    if i < |items| {
      assert Matches(Suggest(ps, prefix, limit)[i].text, prefix);
    }
  }
}
