/** The autocomplete popup: what is suggested, what accepting a suggestion types, when it hides. */
module Suggestions {
  import opened Text
  import opened LineTracker
  import opened SessionHistory

  datatype Suggestion = Suggestion(text: string, source: string)

  /** An entry is offered for a prefix when it contains but does not equal it. */
  predicate Matches(entry: string, prefix: string) { Contains(entry, prefix) && entry != prefix }

  /** The matching entries, in order. */
  function AllMatches(entries: seq<string>, prefix: string): seq<string> {
    if entries == [] then []
    else (if Matches(entries[0], prefix) then [entries[0]] else []) + AllMatches(entries[1..], prefix)
  }

  /** The first matches, at least one if there is one: the loop checks its bound after adding. */
  method MatchEntries(entries: seq<string>, prefix: string, limit: nat) returns (out: seq<string>)
    ensures out == Take(AllMatches(entries, prefix), if limit == 0 then 1 else limit)
  {
    hide Matches;
    out := [];
    assert entries[0..] == entries;
    for i := 0 to |entries|
      invariant AllMatches(entries, prefix) == out + AllMatches(entries[i..], prefix)
      invariant |out| < if limit == 0 then 1 else limit
    {
      assert entries[i..][1..] == entries[i + 1..];
      if Matches(entries[i], prefix) {
        assert out + ([entries[i]] + AllMatches(entries[i + 1..], prefix))
          == out + [entries[i]] + AllMatches(entries[i + 1..], prefix);
        out := out + [entries[i]];
        if |out| >= limit {
          return;
        }
      }
    }
  }

  /** A provider: ranked entries and where they come from. */
  datatype Provider = Provider(entries: seq<string>, source: string)

  function Offered(p: Provider, prefix: string, limit: nat): (r: seq<Suggestion>)
    ensures forall s :: s in r ==> s.source == p.source && Matches(s.text, prefix) && s.text in p.entries
  {
    var texts := Take(AllMatches(p.entries, prefix), if limit == 0 then 1 else limit);
    AllMatchesMatch(p.entries, prefix);
    seq(|texts|, i requires 0 <= i < |texts| => Suggestion(texts[i], p.source))
  }

  lemma {:induction false} AllMatchesMatch(entries: seq<string>, prefix: string)
    ensures forall e :: e in AllMatches(entries, prefix) <==> e in entries && Matches(e, prefix)
  {
    hide Matches;
    if entries != [] {
      AllMatchesMatch(entries[1..], prefix);
      forall e ensures e in AllMatches(entries, prefix) <==> e in entries && Matches(e, prefix) {
        assert e in entries <==> e == entries[0] || e in entries[1..];
      }
    }
  }

  /** The offers of all providers, in provider order. */
  function AllOffers(ps: seq<Provider>, prefix: string, limit: nat): seq<Suggestion> {
    if ps == [] then [] else Offered(ps[0], prefix, limit) + AllOffers(ps[1..], prefix, limit)
  }

  /** The first suggestion of each text. */
  function FirstOfEach(ss: seq<Suggestion>, seen: set<string>): seq<Suggestion> {
    if ss == [] then []
    else if ss[0].text in seen then FirstOfEach(ss[1..], seen)
    else [ss[0]] + FirstOfEach(ss[1..], seen + {ss[0].text})
  }

  function WithPrefix(ss: seq<Suggestion>, prefix: string, yes: bool): seq<Suggestion> {
    if ss == [] then []
    else (if (prefix <= ss[0].text) == yes then [ss[0]] else []) + WithPrefix(ss[1..], prefix, yes)
  }

  /** Stable sort on one bit: prefix matches first, each group in its order. */
  function Ranked(ss: seq<Suggestion>, prefix: string): seq<Suggestion> {
    WithPrefix(ss, prefix, true) + WithPrefix(ss, prefix, false)
  }

  function Suggest(ps: seq<Provider>, prefix: string, limit: nat): seq<Suggestion> {
    var all := Ranked(FirstOfEach(AllOffers(ps, prefix, limit), {}), prefix);
    if |all| <= limit then all else all[..limit]
  }

  // ---------------------------------------------------------------- what is suggested

  predicate DistinctTexts(ss: seq<Suggestion>) {
    forall i, j :: 0 <= i < j < |ss| ==> ss[i].text != ss[j].text
  }

  lemma {:induction false} FirstOfEachFacts(ss: seq<Suggestion>, seen: set<string>)
    ensures DistinctTexts(FirstOfEach(ss, seen))
    ensures forall s :: s in FirstOfEach(ss, seen) ==> s in ss && s.text !in seen
  {
    if ss != [] {
      FirstOfEachFacts(ss[1..], seen);
      FirstOfEachFacts(ss[1..], seen + {ss[0].text});
      forall s | s in FirstOfEach(ss, seen) ensures s in ss && s.text !in seen {
        if s != ss[0] { assert s in ss[1..]; }
      }
    }
  }

  lemma {:induction false} FirstOfEachComplete(ss: seq<Suggestion>, seen: set<string>, s: Suggestion)
    requires s in ss && s.text !in seen
    ensures exists k :: 0 <= k < |FirstOfEach(ss, seen)| && FirstOfEach(ss, seen)[k].text == s.text
  {
    var r := FirstOfEach(ss, seen);
    if ss[0].text == s.text {
      assert r[0].text == s.text;
    } else if ss[0].text in seen {
      assert s in ss[1..];
      FirstOfEachComplete(ss[1..], seen, s);
    } else {
      assert s in ss[1..];
      FirstOfEachComplete(ss[1..], seen + {ss[0].text}, s);
      var k :| 0 <= k < |r[1..]| && r[1..][k].text == s.text;
      assert r[k + 1].text == s.text;
    }
  }

  lemma {:induction false} WithPrefixFacts(ss: seq<Suggestion>, prefix: string, yes: bool)
    ensures forall s :: s in WithPrefix(ss, prefix, yes) <==> s in ss && ((prefix <= s.text) == yes)
    ensures DistinctTexts(ss) ==> DistinctTexts(WithPrefix(ss, prefix, yes))
  {
    if ss != [] {
      WithPrefixFacts(ss[1..], prefix, yes);
      var rest := WithPrefix(ss[1..], prefix, yes);
      forall s ensures s in WithPrefix(ss, prefix, yes) <==> s in ss && ((prefix <= s.text) == yes) {
        assert s in ss <==> s == ss[0] || s in ss[1..];
      }
      if DistinctTexts(ss) {
        assert DistinctTexts(ss[1..]);
        forall j | 0 <= j < |rest| ensures rest[j].text != ss[0].text {
          assert rest[j] in rest && rest[j] in ss[1..];
          var i :| 0 <= i < |ss[1..]| && ss[1..][i] == rest[j];
          assert ss[i + 1] == rest[j];
        }
      }
    }
  }

  lemma {:induction false} OffersMatch(ps: seq<Provider>, prefix: string, limit: nat)
    ensures forall s :: s in AllOffers(ps, prefix, limit) ==> Matches(s.text, prefix)
  {
    hide Matches, Offered;
    if ps != [] { OffersMatch(ps[1..], prefix, limit); }
  }

  lemma RankedFacts(ss: seq<Suggestion>, prefix: string)
    requires DistinctTexts(ss)
    ensures DistinctTexts(Ranked(ss, prefix))
    ensures forall s :: s in Ranked(ss, prefix) <==> s in ss
    ensures forall i, j :: 0 <= i < j < |Ranked(ss, prefix)| && prefix <= Ranked(ss, prefix)[j].text ==>
              prefix <= Ranked(ss, prefix)[i].text
  {
    hide WithPrefix;
    WithPrefixFacts(ss, prefix, true);
    WithPrefixFacts(ss, prefix, false);
    var a, b := WithPrefix(ss, prefix, true), WithPrefix(ss, prefix, false);
    forall i | 0 <= i < |a| ensures prefix <= a[i].text { assert a[i] in a; }
    forall i | 0 <= i < |b| ensures !(prefix <= b[i].text) { assert b[i] in b; }
  }

  /**
   * The suggestions: at most `limit`, all different, each containing but not equal to what was
   * typed, prefix matches before the others.
   */
  lemma SuggestFacts(ps: seq<Provider>, prefix: string, limit: nat)
    ensures var r := Suggest(ps, prefix, limit);
            && |r| <= limit && DistinctTexts(r)
            && (forall s :: s in r ==> Matches(s.text, prefix))
            && (forall i, j :: 0 <= i < j < |r| && prefix <= r[j].text ==> prefix <= r[i].text)
  {
    hide Matches, AllOffers, FirstOfEach, Ranked;
    var offers := AllOffers(ps, prefix, limit);
    var first := FirstOfEach(offers, {});
    OffersMatch(ps, prefix, limit);
    FirstOfEachFacts(offers, {});
    RankedFacts(first, prefix);
    var all := Ranked(first, prefix);
    forall s | s in Suggest(ps, prefix, limit) ensures Matches(s.text, prefix) {
      assert s in all;
      assert s in first && s in offers;
    }
  }

  /** `sub` are the elements of `s` at increasing positions. */
  predicate PicksInOrder<T(==)>(sub: seq<T>, s: seq<T>, idx: seq<nat>) {
    && |idx| == |sub|
    && (forall i :: 0 <= i < |idx| ==> idx[i] < |s| && s[idx[i]] == sub[i])
    && (forall i, j :: 0 <= i < j < |idx| ==> idx[i] < idx[j])
  }

  function Shifted(idx: seq<nat>): (r: seq<nat>)
    ensures |r| == |idx| && forall i :: 0 <= i < |r| ==> r[i] == idx[i] + 1
  {
    seq(|idx|, i requires 0 <= i < |idx| => idx[i] + 1)
  }

  lemma PicksSkip<T>(sub: seq<T>, x: T, s: seq<T>, idx: seq<nat>)
    requires PicksInOrder(sub, s, idx)
    ensures PicksInOrder(sub, [x] + s, Shifted(idx))
  {
  }

  lemma PicksKeep<T>(sub: seq<T>, x: T, s: seq<T>, idx: seq<nat>)
    requires PicksInOrder(sub, s, idx)
    ensures PicksInOrder([x] + sub, [x] + s, [0] + Shifted(idx))
  {
  }

  lemma NothingPicked<T>()
    ensures PicksInOrder<T>([], [], [])
  {
  }

  lemma ShiftedHas(ix: seq<nat>)
    ensures forall i: nat :: i in Shifted(ix) <==> i > 0 && i - 1 in ix
  {
    forall i: nat ensures i in Shifted(ix) <==> i > 0 && i - 1 in ix {
      if i > 0 && i - 1 in ix {
        var k :| 0 <= k < |ix| && ix[k] == i - 1;
        assert Shifted(ix)[k] == i;
      }
    }
  }

  /** No earlier offer has this text. */
  predicate First(offers: seq<Suggestion>, a: nat) {
    a < |offers| && forall k :: 0 <= k < a ==> offers[k].text != offers[a].text
  }

  lemma {:induction false} FirstOfEachAre(ss: seq<Suggestion>, seen: set<string>) returns (ix: seq<nat>)
    ensures PicksInOrder(FirstOfEach(ss, seen), ss, ix)
    ensures forall i: nat :: i in ix <==> First(ss, i) && ss[i].text !in seen
  {
    hide PicksInOrder, Shifted;
    if ss == [] {
      ix := [];
      NothingPicked<Suggestion>();
    } else {
      assert ss == [ss[0]] + ss[1..];
      var next := if ss[0].text in seen then seen else seen + {ss[0].text};
      var inner := FirstOfEachAre(ss[1..], next);
      ShiftedHas(inner);
      if ss[0].text in seen {
        ix := Shifted(inner);
        PicksSkip(FirstOfEach(ss[1..], next), ss[0], ss[1..], inner);
      } else {
        ix := [0] + Shifted(inner);
        PicksKeep(FirstOfEach(ss[1..], next), ss[0], ss[1..], inner);
      }
      forall i: nat ensures i in ix <==> First(ss, i) && ss[i].text !in seen { FirstNext(ss, i); }
    }
  }

  lemma FirstNext(ss: seq<Suggestion>, i: nat)
    requires ss != []
    ensures i == 0 ==> First(ss, i)
    ensures i > 0 ==> (First(ss, i) <==> First(ss[1..], i - 1) && ss[1..][i - 1].text != ss[0].text)
  {
    if i > 0 && First(ss, i) {
      assert forall k :: 0 <= k < i - 1 ==> ss[1..][k] == ss[k + 1];
    }
  }

  lemma {:induction false} WithPrefixAre(ss: seq<Suggestion>, prefix: string, yes: bool) returns (ix: seq<nat>)
    ensures PicksInOrder(WithPrefix(ss, prefix, yes), ss, ix)
    ensures forall i: nat :: i in ix <==> i < |ss| && (prefix <= ss[i].text) == yes
  {
    hide PicksInOrder, Shifted;
    if ss == [] {
      ix := [];
      NothingPicked<Suggestion>();
    } else {
      var rest := WithPrefix(ss[1..], prefix, yes);
      var inner := WithPrefixAre(ss[1..], prefix, yes);
      assert ss == [ss[0]] + ss[1..];
      ShiftedHas(inner);
      if (prefix <= ss[0].text) == yes {
        ix := [0] + Shifted(inner);
        PicksKeep(rest, ss[0], ss[1..], inner);
      } else {
        ix := Shifted(inner);
        PicksSkip(rest, ss[0], ss[1..], inner);
        assert [] + rest == rest;
      }
    }
  }

  /** Where the `i`-th suggestion stands within its rank. */
  lemma RankPosition(first: seq<Suggestion>, prefix: string, i: nat, yes: bool) returns (k: nat)
    requires i < |Ranked(first, prefix)| && (prefix <= Ranked(first, prefix)[i].text) == yes
    ensures k < |WithPrefix(first, prefix, yes)| && WithPrefix(first, prefix, yes)[k] == Ranked(first, prefix)[i]
    ensures k == if yes then i else i - |WithPrefix(first, prefix, true)|
  {
    hide WithPrefix;
    var up, down := WithPrefix(first, prefix, true), WithPrefix(first, prefix, false);
    WithPrefixFacts(first, prefix, true);
    WithPrefixFacts(first, prefix, false);
    k := if yes then i else i - |up|;
    if i < |up| { assert up[i] in up; } else { assert down[i - |up|] in down; }
  }

  /** Two suggestions of the same rank come in the order in which the providers offered them. */
  lemma SuggestKeepsProviderOrder(ps: seq<Provider>, prefix: string, limit: nat, i: nat, j: nat)
    returns (a: nat, b: nat)
    requires i < j < |Suggest(ps, prefix, limit)|
    requires (prefix <= Suggest(ps, prefix, limit)[i].text) == (prefix <= Suggest(ps, prefix, limit)[j].text)
    ensures var offers, r := AllOffers(ps, prefix, limit), Suggest(ps, prefix, limit);
            a < b < |offers| && offers[a] == r[i] && offers[b] == r[j]
  {
    hide AllOffers, FirstOfEach, WithPrefix, Ranked;
    var offers := AllOffers(ps, prefix, limit);
    var first := FirstOfEach(offers, {});
    var all := Ranked(first, prefix);
    var yes := prefix <= all[i].text;
    var outer := FirstOfEachAre(offers, {});
    var inner := WithPrefixAre(first, prefix, yes);
    var x := RankPosition(first, prefix, i, yes);
    var y := RankPosition(first, prefix, j, yes);
    a, b := outer[inner[x]], outer[inner[y]];
  }

  function Texts(ss: seq<Suggestion>): set<string> { set s | s in ss :: s.text }

  lemma {:induction false} TextsCount(ss: seq<Suggestion>)
    ensures |Texts(ss)| <= |ss| && (DistinctTexts(ss) ==> |Texts(ss)| == |ss|)
  {
    if ss == [] {
      assert Texts(ss) == {};
    } else {
      var n := |ss| - 1;
      TextsCount(ss[..n]);
      assert ss == ss[..n] + [ss[n]];
      assert Texts(ss) == Texts(ss[..n]) + {ss[n].text};
      if DistinctTexts(ss) {
        assert DistinctTexts(ss[..n]);
        assert forall s :: s in ss[..n] ==> s.text != ss[n].text;
      }
    }
  }

  lemma {:induction false} MatchesDistinct(entries: seq<string>, prefix: string)
    requires Distinct(entries)
    ensures Distinct(AllMatches(entries, prefix))
  {
    hide Matches;
    if entries != [] {
      MatchesDistinct(entries[1..], prefix);
      AllMatchesMatch(entries[1..], prefix);
      var rest := AllMatches(entries[1..], prefix);
      forall j | 0 <= j < |rest| ensures rest[j] != entries[0] { assert rest[j] in rest; }
    }
  }

  /** A provider that offers less than the limit offers all it has. */
  lemma OfferedFacts(p: Provider, prefix: string, limit: nat, e: string)
    requires limit > 0 && Distinct(p.entries) && e in p.entries && Matches(e, prefix)
    ensures DistinctTexts(Offered(p, prefix, limit))
    ensures |Offered(p, prefix, limit)| < limit ==> e in Texts(Offered(p, prefix, limit))
    ensures |Offered(p, prefix, limit)| <= limit
  {
    hide Matches;
    var all := AllMatches(p.entries, prefix);
    AllMatchesMatch(p.entries, prefix);
    MatchesDistinct(p.entries, prefix);
    var out := Offered(p, prefix, limit);
    if |out| < limit {
      assert Take(all, limit) == all;
      var i :| 0 <= i < |all| && all[i] == e;
      assert out[i].text == e && out[i] in out;
    }
  }

  /**
   * A list that is not full holds every matching entry of every provider that does not repeat
   * itself.
   */
  lemma NothingIsMissing(ps: seq<Provider>, prefix: string, limit: nat, k: nat, e: string)
    requires k < |ps| && Distinct(ps[k].entries) && e in ps[k].entries && Matches(e, prefix)
    requires |Suggest(ps, prefix, limit)| < limit
    ensures e in Texts(Suggest(ps, prefix, limit))
  {
    hide Matches, AllOffers, FirstOfEach, Ranked, Offered;
    var offers := AllOffers(ps, prefix, limit);
    var first := FirstOfEach(offers, {});
    FirstOfEachFacts(offers, {});
    RankedFacts(first, prefix);
    var all := Ranked(first, prefix);
    var mine := Offered(ps[k], prefix, limit);
    assert Suggest(ps, prefix, limit) == all && Texts(all) == Texts(first);
    OfferedFacts(ps[k], prefix, limit, e);
    OffersOf(ps, prefix, limit, k);
    forall t | t in Texts(mine) ensures t in Texts(first) {
      var s :| s in mine && s.text == t;
      FirstOfEachComplete(offers, {}, s);
      var i :| 0 <= i < |first| && first[i].text == t;
      assert first[i] in first;
    }
    TextsCount(mine);
    TextsCount(all);
    Subset(Texts(mine), Texts(first));
  }

  lemma Subset(a: set<string>, b: set<string>)
    requires a <= b
    ensures |a| <= |b|
  {
    assert b == a + (b - a);
  }

  lemma {:induction false} OffersOf(ps: seq<Provider>, prefix: string, limit: nat, k: nat)
    requires k < |ps|
    ensures forall s :: s in Offered(ps[k], prefix, limit) ==> s in AllOffers(ps, prefix, limit)
  {
    hide Offered;
    if k > 0 { OffersOf(ps[1..], prefix, limit, k - 1); }
  }

  lemma {:induction false} FirstOfEachAppend(a: seq<Suggestion>, b: seq<Suggestion>, seen: set<string>)
    ensures FirstOfEach(a + b, seen) == FirstOfEach(a, seen) + FirstOfEach(b, seen + Texts(a))
  {
    if a == [] {
      assert a + b == b && seen + Texts(a) == seen;
    } else {
      assert (a + b)[0] == a[0] && (a + b)[1..] == a[1..] + b;
      assert a == [a[0]] + a[1..];
      assert Texts(a) == {a[0].text} + Texts(a[1..]);
      if a[0].text in seen {
        FirstOfEachAppend(a[1..], b, seen);
        assert seen + Texts(a) == seen + Texts(a[1..]);
      } else {
        var more := seen + {a[0].text};
        FirstOfEachAppend(a[1..], b, more);
        assert seen + Texts(a) == more + Texts(a[1..]);
        assert [a[0]] + (FirstOfEach(a[1..], more) + FirstOfEach(b, more + Texts(a[1..])))
            == [a[0]] + FirstOfEach(a[1..], more) + FirstOfEach(b, more + Texts(a[1..]));
      }
    }
  }

  lemma NothingSeen(ss: seq<Suggestion>)
    ensures ss[0..] == ss && ss[..|ss|] == ss && Texts(ss[..0]) == {}
    ensures forall seen :: FirstOfEach(ss[|ss|..], seen) == []
  {
  }

  lemma UnseenStep(ss: seq<Suggestion>, i: nat, seen: set<string>)
    requires i < |ss|
    ensures FirstOfEach(ss[i..], seen)
      == if ss[i].text in seen then FirstOfEach(ss[i + 1..], seen)
         else [ss[i]] + FirstOfEach(ss[i + 1..], seen + {ss[i].text})
    ensures Texts(ss[..i + 1]) == Texts(ss[..i]) + {ss[i].text}
  {
    assert ss[i..][1..] == ss[i + 1..] && ss[i..][0] == ss[i];
    assert ss[..i + 1] == ss[..i] + [ss[i]];
  }

  /** Adds the suggestions whose text was not seen yet. */
  method AddUnseen(offered: seq<Suggestion>, seen: set<string>) returns (added: seq<Suggestion>, now: set<string>)
    ensures added == FirstOfEach(offered, seen) && now == seen + Texts(offered)
  {
    hide FirstOfEach, Texts;
    added, now := [], seen;
    NothingSeen(offered);
    for i := 0 to |offered|
      invariant FirstOfEach(offered, seen) == added + FirstOfEach(offered[i..], now)
      invariant now == seen + Texts(offered[..i])
    {
      UnseenStep(offered, i, now);
      if offered[i].text !in now {
        Regroup(added, [offered[i]], FirstOfEach(offered[i + 1..], now + {offered[i].text}));
        now := now + {offered[i].text};
        added := added + [offered[i]];
      }
    }
  }

  method SuggestFrom(ps: seq<Provider>, prefix: string, limit: nat) returns (r: seq<Suggestion>)
    ensures r == Suggest(ps, prefix, limit)
  {
    hide Offered, FirstOfEach, Ranked;
    var results: seq<Suggestion>, seen: set<string> := [], {};
    assert ps[0..] == ps;
    assert [] + FirstOfEach(AllOffers(ps, prefix, limit), {}) == FirstOfEach(AllOffers(ps, prefix, limit), {});
    for i := 0 to |ps|
      invariant FirstOfEach(AllOffers(ps, prefix, limit), {})
        == results + FirstOfEach(AllOffers(ps[i..], prefix, limit), seen)
    {
      assert ps[i..][1..] == ps[i + 1..];
      var offered := Offers(ps[i], prefix, limit);
      var added, now := AddUnseen(offered, seen);
      ghost var rest := AllOffers(ps[i + 1..], prefix, limit);
      FirstOfEachAppend(offered, rest, seen);
      assert results + (added + FirstOfEach(rest, now)) == results + added + FirstOfEach(rest, now);
      results, seen := results + added, now;
    }
    assert FirstOfEach([], seen) == [] by { NoneOfNone(seen); }
    assert results + [] == results;
    var all := Ranked(results, prefix);
    r := if |all| <= limit then all else all[..limit];
  }

  lemma NoneOfNone(seen: set<string>)
    ensures FirstOfEach([], seen) == []
  {
  }

  /** A provider's answer to a query. */
  method Offers(p: Provider, prefix: string, limit: nat) returns (r: seq<Suggestion>)
    ensures r == Offered(p, prefix, limit)
  {
    hide AllMatches, Take, Matches;
    var texts := MatchEntries(p.entries, prefix, limit);
    r := seq(|texts|, i requires 0 <= i < |texts| => Suggestion(texts[i], p.source));
  }

  // ---------------------------------------------------------------- accepting a suggestion

  function Erasures(n: nat): string { if n == 0 then "" else [BACKSPACE] + Erasures(n - 1) }

  /** The keystrokes that turn the typed prefix into the suggested text. */
  function Suffix(prefix: string, text: string): string {
    if prefix <= text then text[|prefix|..] else Erasures(|prefix|) + text
  }

  /** Printable characters are not the control keys. */
  predicate SoundPrintable(printable: char -> bool) {
    forall c :: printable(c) ==> KeyOf(printable, c) == Insert
  }

  lemma {:induction false} FeedPrintable(printable: char -> bool, line: string, text: string)
    requires forall i :: 0 <= i < |text| ==> KeyOf(printable, text[i]) == Insert
    ensures Feed(printable, Tracker(line, true), text) == (Tracker(line + text, true), None)
    decreases |text|
  {
    hide KeyOf;
    if text == "" {
      assert line + text == line;
    } else {
      FeedPrintable(printable, line + [text[0]], text[1..]);
      assert line + [text[0]] + text[1..] == line + text;
    }
  }

  lemma {:induction false} FeedErasures(printable: char -> bool, line: string)
    ensures Feed(printable, Tracker(line, true), Erasures(|line|)) == (Tracker("", true), None)
    decreases |line|
  {
    if line != "" {
      FeedErasures(printable, line[..|line| - 1]);
      var keys := Erasures(|line|);
      assert keys[0] == BACKSPACE && keys[1..] == Erasures(|line| - 1);
    }
  }

  /** Typing the suffix leaves a valid tracker whose line is exactly the suggested text. */
  lemma AcceptingTypesTheText(printable: char -> bool, prefix: string, text: string)
    requires SoundPrintable(printable) && forall i :: 0 <= i < |text| ==> printable(text[i])
    ensures Feed(printable, Tracker(prefix, true), Suffix(prefix, text)) == (Tracker(text, true), None)
  {
    hide Feed, KeyOf;
    if prefix <= text {
      var tail := text[|prefix|..];
      FeedPrintable(printable, prefix, tail);
      assert prefix + tail == text;
    } else {
      FeedErasures(printable, prefix);
      FeedPrintable(printable, "", text);
      FeedAppend(printable, Tracker(prefix, true), Erasures(|prefix|), text);
      assert "" + text == text;
    }
  }

  // ---------------------------------------------------------------- the popup

  datatype Item = Item(text: string, suffix: string, source: string)

  /** A payload: suggestions to show, or an order to hide. */
  datatype Payload = Show(prefix: string, items: seq<Item>) | Hide

  function ItemOf(prefix: string, s: Suggestion): Item { Item(s.text, Suffix(prefix, s.text), s.source) }

  /** What a chunk of input does: `offers` is what the providers suggest after it. */
  function Respond(t: Tracker, quiet: bool, offers: seq<Suggestion>, visible: bool): (bool, Option<Payload>) {
    if !t.valid || |t.line| < 2 || quiet || offers == [] then (false, if visible then Some(Hide) else None)
    else (true, Some(Show(t.line, seq(|offers|, i requires 0 <= i < |offers| => ItemOf(t.line, offers[i])))))
  }

  /** One call of the engine: the state of the line, a password prompt or not, the offers. */
  datatype Event = Event(t: Tracker, quiet: bool, offers: seq<Suggestion>)

  function Visible(events: seq<Event>): bool {
    if events == [] then false
    else
      var e := events[|events| - 1];
      Respond(e.t, e.quiet, e.offers, Visible(events[..|events| - 1])).0
  }

  function Sent(events: seq<Event>, i: nat): Option<Payload>
    requires i < |events|
  {
    Respond(events[i].t, events[i].quiet, events[i].offers, Visible(events[..i])).1
  }

  /**
   * Over any run, the popup is on screen exactly when the last call showed it, and a hide order is
   * sent only right after a call that showed something: never twice, never for nothing.
   */
  lemma {:induction false} HideOnlyWhenShown(events: seq<Event>, i: nat)
    requires i < |events|
    ensures Visible(events[..i + 1]) <==> Sent(events, i).Some? && Sent(events, i).value.Show?
    ensures Sent(events, i) == Some(Hide) ==> i > 0 && Sent(events, i - 1).Some? && Sent(events, i - 1).value.Show?
    ensures Sent(events, i).Some? && Sent(events, i).value.Show? ==> Sent(events, i).value.items != []
  {
    assert events[..i + 1][..i] == events[..i];
    if i > 0 {
      HideOnlyWhenShown(events, i - 1);
    }
  }

  /** The engine of one terminal tab. The session's own commands may be recorded, and may be offered. */
  class Autocompleter {
    const limit: nat
    const tracker: LineTracker
    const session: SessionProvider?
    const listed: bool
    var visible: bool

    constructor (t: LineTracker, s: SessionProvider?, offered: bool, bound: nat)
      requires offered ==> s != null
      ensures tracker == t && session == s && listed == offered && limit == bound && !visible
    {
      tracker, session, listed, limit, visible := t, s, offered, bound, false;
    }

    ghost predicate Valid()
      reads this, session
    {
      && (listed ==> session != null)
      && (session != null ==> Distinct(session.lines) && |session.lines| <= session.maxlen)
    }

    ghost function Recorded(): seq<string>
      reads this, session
    {
      if session == null then [] else session.lines
    }

    /** All providers in order: the session stands between `before` and `after`, if it is offered at all. */
    function Providers(before: seq<Provider>, after: seq<Provider>): seq<Provider>
      requires listed ==> session != null
      reads this, session
    {
      before + (if listed then [Provider(session.lines, "session")] else []) + after
    }

    method FeedInput(data: string, quiet: bool, before: seq<Provider>, after: seq<Provider>)
      returns (payload: Option<Payload>)
      requires Valid()
      modifies this`visible, tracker`line, tracker`valid, session
      ensures Valid()
      ensures var r := Feed(tracker.printable, old(tracker.Value()), data);
              && tracker.Value() == r.0
              && (session != null ==>
                    session.lines
                      == if r.1.Some? then Added(old(Recorded()), session.maxlen, r.1.value) else old(Recorded()))
      ensures (visible, payload)
        == Respond(tracker.Value(), quiet, Suggest(Providers(before, after), tracker.line, limit), old(visible))
    {
      hide Feed, Suggest, Added, Distinct;
      var committed := tracker.FeedInput(data);
      if committed.Some? && session != null {
        session.Add(committed.value);
      }
      var prefix := tracker.line;
      var items := [];
      if tracker.valid && |prefix| >= 2 && !quiet {
        items := SuggestFrom(Providers(before, after), prefix, limit);
      }
      if items == [] {
        payload := if visible then Some(Hide) else None;
        visible := false;
      } else {
        visible := true;
        payload := Some(Show(prefix, seq(|items|, i requires 0 <= i < |items| => ItemOf(prefix, items[i]))));
      }
    }
  }
}
