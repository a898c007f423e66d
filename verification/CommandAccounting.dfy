/** How the arguments of a command are read: each once, the host, what is left over, what is dropped. */
module CommandAccounting {
  import opened Text
  import opened ForwardSpec
  import opened CommandConverter

  // ---------------------------------------------------------------- every argument is read once

  function Tokens(ps: seq<Piece>): seq<string> {
    if ps == [] then [] else ps[0].tokens + Tokens(ps[1..])
  }

  /** The pieces, put end to end, are the arguments: none skipped, none read twice, none out of order. */
  lemma {:induction false} EveryArgumentIsReadOnce(args: seq<string>, toInt: IntReader)
    ensures Tokens(Pieces(args, toInt)) == args
  {
    hide Next;
    if args != [] {
      var p := Next(args, toInt);
      var ps := Pieces(args[|p.tokens|..], toInt);
      EveryArgumentIsReadOnce(args[|p.tokens|..], toInt);
      assert ([p] + ps)[1..] == ps;
      assert args == args[..|p.tokens|] + args[|p.tokens|..];
    }
  }

  // ---------------------------------------------------------------- the host

  /** The host part of the first destination that has one. */
  function FirstHost(ps: seq<Piece>): string {
    if ps == [] then ""
    else if ps[0].action.Destination? && HostPart(ps[0].action.token) != "" then HostPart(ps[0].action.token)
    else FirstHost(ps[1..])
  }

  lemma HostStep(d: Data, p: Piece)
    requires d.hostname == d.host && d.nickname == d.host
    ensures var e := Apply(d, p);
      && e.host == (if d.host == "" && p.action.Destination? then HostPart(p.action.token) else d.host)
      && e.hostname == e.host && e.nickname == e.host
  {
    hide StripNewlines, HostPart;
  }

  lemma {:induction false} HostFrom(d: Data, ps: seq<Piece>)
    requires d.hostname == d.host && d.nickname == d.host
    ensures var r := ApplyAll(d, ps);
      r.host == (if d.host != "" then d.host else FirstHost(ps)) && r.hostname == r.host && r.nickname == r.host
    decreases |ps|
  {
    hide Apply, HostPart;
    if ps != [] {
      HostStep(d, ps[0]);
      HostFrom(Apply(d, ps[0]), ps[1..]);
    }
  }

  // ---------------------------------------------------------------- what is left over

  /** The arguments kept aside: unrecognised options, and destinations after the host is known. */
  function LeftOver(ps: seq<Piece>, host: string): seq<string> {
    if ps == [] then []
    else
      var a := ps[0].action;
      if a.Unknown? then ps[0].tokens + LeftOver(ps[1..], host)
      else if a.Destination? && host != "" then [a.token] + LeftOver(ps[1..], host)
      else LeftOver(ps[1..], if a.Destination? then HostPart(a.token) else host)
  }

  lemma LeftOverStep(d: Data, p: Piece)
    ensures var e, a := Apply(d, p), p.action;
      && e.unparsed == d.unparsed + (
        if a.Unknown? then p.tokens else if a.Destination? && d.host != "" then [a.token] else [])
      && e.host == (if d.host == "" && a.Destination? then HostPart(a.token) else d.host)
  {
    hide StripNewlines, HostPart;
  }

  lemma {:induction false} LeftOverFrom(d: Data, ps: seq<Piece>)
    ensures ApplyAll(d, ps).unparsed == d.unparsed + LeftOver(ps, d.host)
    decreases |ps|
  {
    hide Apply, HostPart;
    if ps != [] {
      LeftOverStep(d, ps[0]);
      var e := Apply(d, ps[0]);
      LeftOverFrom(e, ps[1..]);
      var a := ps[0].action;
      if a.Unknown? {
        assert d.unparsed + (ps[0].tokens + LeftOver(ps[1..], d.host))
          == d.unparsed + ps[0].tokens + LeftOver(ps[1..], d.host);
      } else if a.Destination? && d.host != "" {
        assert d.unparsed + ([a.token] + LeftOver(ps[1..], d.host))
          == d.unparsed + [a.token] + LeftOver(ps[1..], d.host);
      }
    }
  }

  /** `xs` can be read off `ys` from left to right. */
  predicate Subsequence(xs: seq<string>, ys: seq<string>) {
    if xs == [] then true
    else if ys == [] then false
    else if xs[0] == ys[0] then Subsequence(xs[1..], ys[1..])
    else Subsequence(xs, ys[1..])
  }

  lemma {:induction false} SkipFront(xs: seq<string>, front: seq<string>, ys: seq<string>)
    requires Subsequence(xs, ys)
    ensures Subsequence(xs, front + ys)
    decreases |front|
  {
    if front != [] {
      SkipFront(xs, front[1..], ys);
      var all := front + ys;
      assert all[1..] == front[1..] + ys;
      if xs != [] && xs[0] == all[0] { DropFirst(xs, all[1..]); }
    } else {
      assert front + ys == ys;
    }
  }

  lemma {:induction false} DropFirst(xs: seq<string>, ys: seq<string>)
    requires xs != [] && Subsequence(xs, ys)
    ensures Subsequence(xs[1..], ys)
    decreases |ys|
  {
    if xs[0] == ys[0] {
      if |xs| > 1 && xs[1] == ys[0] { DropFirst(xs[1..], ys[1..]); }
    } else {
      DropFirst(xs, ys[1..]);
      if |xs| > 1 && xs[1] == ys[0] { DropFirst(xs[1..], ys[1..]); }
    }
  }

  lemma {:induction false} SameFront(front: seq<string>, xs: seq<string>, ys: seq<string>)
    requires Subsequence(xs, ys)
    ensures Subsequence(front + xs, front + ys)
    decreases |front|
  {
    if front == [] {
      assert front + xs == xs && front + ys == ys;
    } else {
      SameFront(front[1..], xs, ys);
      assert (front + xs)[1..] == front[1..] + xs && (front + ys)[1..] == front[1..] + ys;
    }
  }

  /** A destination is the argument it came from. */
  predicate Faithful(ps: seq<Piece>) {
    forall i :: 0 <= i < |ps| && ps[i].action.Destination? ==> ps[i].tokens == [ps[i].action.token]
  }

  lemma {:induction false} LeftOverInOrder(ps: seq<Piece>, host: string)
    requires Faithful(ps)
    ensures Subsequence(LeftOver(ps, host), Tokens(ps))
    decreases |ps|
  {
    hide HostPart, Subsequence;
    if ps != [] {
      var a := ps[0].action;
      assert Faithful(ps[1..]) by { assert forall i :: 0 <= i < |ps[1..]| ==> ps[1..][i] == ps[i + 1]; }
      var h := if a.Destination? && host == "" then HostPart(a.token) else host;
      LeftOverInOrder(ps[1..], h);
      var later := LeftOver(ps[1..], h);
      assert ps[0] in ps;
      if a.Unknown? || (a.Destination? && host != "") {
        SameFront(ps[0].tokens, later, Tokens(ps[1..]));
      } else {
        SkipFront(later, ps[0].tokens, Tokens(ps[1..]));
      }
    } else {
      EmptySubsequence(Tokens(ps));
    }
  }

  lemma EmptySubsequence(ys: seq<string>)
    ensures Subsequence([], ys)
  {
  }

  lemma OptionIsNoDestination(option: string, toInt: IntReader)
    requires HasEquals(option)
    ensures !OptionAction(option, toInt).Destination? && !OptionAction(option, toInt).Unknown?
  {
    hide NameOf, IsTrue, IsFalse, Strip;
  }

  lemma NextIsFaithful(rest: seq<string>, toInt: IntReader)
    requires rest != []
    ensures var p := Next(rest, toInt); p.action.Destination? ==> p.tokens == [p.action.token]
  {
    hide OptionAction, ParseForward, ParseDynamic, HasEquals, Hops, Next, UnknownLength;
    if HasValue(rest, toInt) {
      NextWithValue(rest, toInt);
      if HasEquals(rest[1]) { OptionIsNoDestination(rest[1], toInt); }
    } else if Alone(rest[0], toInt).Some? {
      NextAlone(rest, toInt);
      if Begins(rest[0], 'o') && HasEquals(rest[0][2..]) { OptionIsNoDestination(rest[0][2..], toInt); }
    } else {
      NextUnknown(rest, toInt);
    }
  }

  lemma {:induction false} PiecesAreFaithful(args: seq<string>, toInt: IntReader)
    ensures Faithful(Pieces(args, toInt))
  {
    hide Next;
    if args != [] {
      NextIsFaithful(args, toInt);
      PiecesAreFaithful(args[|Next(args, toInt).tokens|..], toInt);
    }
  }

  // ---------------------------------------------------------------- rules and keys

  function Rules(ps: seq<Piece>): seq<Rule> {
    if ps == [] then [] else (if ps[0].action.AddRule? then [ps[0].action.rule] else []) + Rules(ps[1..])
  }

  function LastPort(ps: seq<Piece>, port: int): int {
    if ps == [] then port else LastPort(ps[1..], if ps[0].action.SetPort? then ps[0].action.port else port)
  }

  lemma RulesStep(d: Data, p: Piece)
    ensures var e, a := Apply(d, p), p.action;
      e.rules == d.rules + (if a.AddRule? then [a.rule] else []) && e.port == if a.SetPort? then a.port else d.port
  {
    hide StripNewlines, HostPart;
  }

  lemma {:induction false} RulesFrom(d: Data, ps: seq<Piece>)
    ensures ApplyAll(d, ps).rules == d.rules + Rules(ps) && ApplyAll(d, ps).port == LastPort(ps, d.port)
    decreases |ps|
  {
    hide Apply;
    if ps != [] {
      RulesStep(d, ps[0]);
      RulesFrom(Apply(d, ps[0]), ps[1..]);
      if ps[0].action.AddRule? {
        assert d.rules + ([ps[0].action.rule] + Rules(ps[1..])) == d.rules + [ps[0].action.rule] + Rules(ps[1..]);
      }
    }
  }

  /** A key file always comes with its selection mode: the adjustment after the loop has nothing to do. */
  lemma {:induction false} KeyHasMode(d: Data, ps: seq<Piece>)
    requires d.keyfile != "" ==> d.keyMode != 0
    ensures ApplyAll(d, ps).keyfile != "" ==> ApplyAll(d, ps).keyMode != 0
    decreases |ps|
  {
    hide StripNewlines, HostPart;
    if ps != [] { KeyHasMode(Apply(d, ps[0]), ps[1..]); }
  }

  // ---------------------------------------------------------------- what is recorded nowhere

  /** The piece changes no connection whatever. */
  ghost predicate LeavesNoTrace(p: Piece) { forall d :: Apply(d, p) == d }

  lemma TraceOf(p: Piece)
    requires p.tokens != []
    ensures LeavesNoTrace(p) <==> p.action.Nothing?
  {
    hide StripNewlines;
    var a := p.action;
    var d := Empty();
    if a.SetPort? { assert Apply(d.(port := a.port + 1), p) != d.(port := a.port + 1); }
    else if a.SetUser? { assert Apply(d.(username := a.user + "x"), p) != d.(username := a.user + "x"); }
    else if a.SetKey? { assert Apply(d, p) != d; }
    else if a.Identities? { assert Apply(d.(keyfile := "x"), p) != d.(keyfile := "x"); }
    else if a.SetAgent? { assert Apply(d.(agent := !a.on), p) != d.(agent := !a.on); }
    else if a.SetX11? { assert Apply(d, p) != d; }
    else if a.AddLine? { LineLeavesTrace(p); }
    else if a.SetJumps? { assert Apply(d.(jumps := a.jumps + ["x"]), p) != d.(jumps := a.jumps + ["x"]); }
    else if a.AddRule? { assert |Apply(d, p).rules| == 1; }
    else if a.Destination? { assert |Apply(d.(host := "x"), p).unparsed| == 1; }
    else if a.Unknown? { assert |Apply(d, p).unparsed| > 0; }
  }

  lemma LineLeavesTrace(p: Piece)
    requires p.action.AddLine?
    ensures !LeavesNoTrace(p)
  {
    var d := Empty().(extra := "x");
    var text := d.extra + "\n" + p.action.line;
    assert text[0] == 'x' && StripNewlines(text) == text;
    assert |Apply(d, p).extra| > 1;
  }

  /** An option value without effect: a port that is no number, or an IdentitiesOnly that is neither yes nor no. */
  predicate IdleOption(option: string, toInt: IntReader)
    requires HasEquals(option)
  {
    var n := IndexOf(option, '=');
    var value := Strip(option[n + 1..]);
    || (NameOf(option[..n]) == Port && toInt(value).None?)
    || (NameOf(option[..n]) == IdentitiesOnly && !IsTrue(value) && !IsFalse(value))
  }

  /** The arguments that vanish. */
  predicate Dropped(rest: seq<string>, toInt: IntReader)
    requires rest != []
  {
    || (|rest| > 1 && Is(rest[0], 'L') && ParseForward(rest[1], Local).None?)
    || (|rest| > 1 && Is(rest[0], 'R') && ParseForward(rest[1], Remote).None?)
    || (|rest| > 1 && Is(rest[0], 'D') && ParseDynamic(rest[1]).None?)
    || (|rest| > 1 && Is(rest[0], 'o') && (HasEquals(rest[1]) ==> IdleOption(rest[1], toInt)))
    || (Begins(rest[0], 'o') && HasEquals(rest[0][2..]) && IdleOption(rest[0][2..], toInt))
  }

  lemma IdleOptionIs(option: string, toInt: IntReader)
    requires HasEquals(option)
    ensures OptionAction(option, toInt).Nothing? <==> IdleOption(option, toInt)
  {
    hide NameOf, IsTrue, IsFalse, Strip;
  }

  /**
   * Exactly these arguments do nothing whatever was read before them: a forwarding
   * specification that does not parse, a separate `-o` argument without `=`, and
   * the two idle options, in either spelling.
   */
  lemma DroppedExactly(rest: seq<string>, toInt: IntReader)
    requires rest != []
    ensures Next(rest, toInt).action.Nothing? <==> Dropped(rest, toInt)
    ensures LeavesNoTrace(Next(rest, toInt)) <==> Dropped(rest, toInt)
  {
    hide OptionAction, IdleOption, ParseForward, ParseDynamic, HasEquals, Hops, Next, UnknownLength, LeavesNoTrace;
    TraceOf(Next(rest, toInt));
    if |rest| > 1 && HasEquals(rest[1]) { IdleOptionIs(rest[1], toInt); }
    if Begins(rest[0], 'o') && HasEquals(rest[0][2..]) { IdleOptionIs(rest[0][2..], toInt); }
    if HasValue(rest, toInt) {
      NextWithValue(rest, toInt);
      NoAttachedEquals(rest[0]);
    } else if Alone(rest[0], toInt).Some? {
      NextAlone(rest, toInt);
    } else {
      NextUnknown(rest, toInt);
    }
  }

  lemma NoAttachedEquals(arg: string)
    requires |arg| == 2
    ensures !HasEquals(arg[2..])
  {
    assert arg[2..] == "";
  }
}
