/** Which arguments of a command make no difference to the connection that comes out. */
module CommandVanish {
  import opened Text
  import opened ForwardSpec
  import opened CommandConverter
  import opened CommandAccounting
  import opened CommandRecords
  import SshConfig

  /** The connection is the same without this piece. */
  predicate Vanishes(ps: seq<Piece>, i: nat)
    requires i < |ps|
  {
    ApplyAll(Empty(), ps[..i] + ps[i + 1..]) == ApplyAll(Empty(), ps)
  }

  // ---------------------------------------------------------------- what later pieces overrule

  /** Some piece names a user, where destinations count until one has a host. */
  predicate AsksUser(ps: seq<Piece>, host: string)
    decreases |ps|
  {
    ps != [] &&
    match ps[0].action
    case SetUser(_) => true
    case Destination(token) =>
      if host != "" then AsksUser(ps[1..], host) else UserPart(token).Some? || AsksUser(ps[1..], HostPart(token))
    case _ => AsksUser(ps[1..], host)
  }

  predicate AsksKey(ps: seq<Piece>) { ps != [] && (ps[0].action.SetKey? || AsksKey(ps[1..])) }

  predicate AsksAgent(ps: seq<Piece>) { ps != [] && (ps[0].action.SetAgent? || AsksAgent(ps[1..])) }

  predicate AsksJumps(ps: seq<Piece>) { ps != [] && (ps[0].action.SetJumps? || AsksJumps(ps[1..])) }

  /** Some piece decides the key selection mode, given the key file in force before it. */
  predicate AsksMode(ps: seq<Piece>, key: string)
    decreases |ps|
  {
    ps != [] &&
    match ps[0].action
    case SetKey(_) => true
    case Identities(only) => only || key != "" || AsksMode(ps[1..], key)
    case _ => AsksMode(ps[1..], key)
  }

  lemma {:induction false} UserMatters(ps: seq<Piece>, host: string, a: string, b: string)
    ensures LastUser(ps, host, a) == LastUser(ps, host, b) <==> a == b || AsksUser(ps, host)
    decreases |ps|
  {
    hide HostPart, UserPart;
    if ps != [] {
      var h := if ps[0].action.Destination? && host == "" then HostPart(ps[0].action.token) else host;
      UserMatters(ps[1..], h, a, b);
    }
  }

  lemma {:induction false} PortMatters(ps: seq<Piece>, a: int, b: int)
    ensures LastPort(ps, a) == LastPort(ps, b) <==> a == b || AsksPort(ps)
    decreases |ps|
  {
    if ps != [] { PortMatters(ps[1..], a, b); }
  }

  lemma {:induction false} KeyMatters(ps: seq<Piece>, a: string, b: string)
    ensures LastKey(ps, a) == LastKey(ps, b) <==> a == b || AsksKey(ps)
    decreases |ps|
  {
    if ps != [] { KeyMatters(ps[1..], a, b); }
  }

  lemma {:induction false} AgentMatters(ps: seq<Piece>, a: bool, b: bool)
    ensures LastAgent(ps, a) == LastAgent(ps, b) <==> a == b || AsksAgent(ps)
    decreases |ps|
  {
    if ps != [] { AgentMatters(ps[1..], a, b); }
  }

  lemma {:induction false} JumpsMatter(ps: seq<Piece>, a: seq<string>, b: seq<string>)
    ensures LastJumps(ps, a) == LastJumps(ps, b) <==> a == b || AsksJumps(ps)
    decreases |ps|
  {
    if ps != [] { JumpsMatter(ps[1..], a, b); }
  }

  lemma {:induction false} ModeMatters(ps: seq<Piece>, key: string, a: nat, b: nat)
    ensures LastMode(ps, key, a) == LastMode(ps, key, b) <==> a == b || AsksMode(ps, key)
    decreases |ps|
  {
    if ps != [] { ModeMatters(ps[1..], key, a, b); }
  }

  /** A later key file decides key and mode, whatever came before. */
  lemma {:induction false} LaterKeyDecides(ps: seq<Piece>, k: string, a: nat, l: string, b: nat)
    requires AsksKey(ps)
    ensures LastKey(ps, k) == LastKey(ps, l) && LastMode(ps, k, a) == LastMode(ps, l, b)
    decreases |ps|
  {
    if !ps[0].action.SetKey? {
      if ps[0].action.Identities? {
        var only := ps[0].action.only;
        LaterKeyDecides(ps[1..],
          k, if only then 1 else if k != "" then 2 else a,
          l, if only then 1 else if l != "" then 2 else b);
      } else {
        LaterKeyDecides(ps[1..], k, a, l, b);
      }
    }
  }

  // ---------------------------------------------------------------- the run from the middle

  /** The shape every state of a run has. */
  predicate Kept(d: Data) { d.hostname == d.host && d.nickname == d.host && d.extra == StripNewlines(d.extra) }

  /** The result of the remaining pieces, field by field. */
  function AccountFrom(d: Data, ps: seq<Piece>): Data {
    var host := if d.host != "" then d.host else FirstHost(ps);
    Data(
      LastUser(ps, d.host, d.username), host, host, host,
      LastPort(ps, d.port), d.portExplicit || AsksPort(ps),
      LastKey(ps, d.keyfile), LastMode(ps, d.keyfile, d.keyMode),
      d.x11 || AsksX11(ps), LastAgent(ps, d.agent), d.rules + Rules(ps), LastJumps(ps, d.jumps),
      StripNewlines(d.extra + Appended(Lines(ps))), d.unparsed + LeftOver(ps, d.host))
  }

  lemma FieldsFrom(d: Data, ps: seq<Piece>)
    requires Kept(d)
    ensures ApplyAll(d, ps) == AccountFrom(d, ps)
  {
    hide ApplyAll, LeftOver, FirstHost, Rules, LastPort, Lines, LastUser, LastKey, LastMode, LastAgent, LastJumps,
      AsksX11, AsksPort, Appended, StripNewlines;
    HostFrom(d, ps);
    LeftOverFrom(d, ps);
    RulesFrom(d, ps);
    UserFrom(d, ps);
    KeyFrom(d, ps);
    FlagsFrom(d, ps);
    ExtraFrom(d, ps);
  }

  lemma StrippedStays(s: string)
    ensures StripNewlines(StripNewlines(s)) == StripNewlines(s)
  {
    hide StripNewlines;
    StripTwice(s, "");
    assert StripNewlines(s) + "" == StripNewlines(s) && s + "" == s;
  }

  lemma ApplyKeeps(d: Data, p: Piece)
    requires Kept(d)
    ensures Kept(Apply(d, p))
  {
    hide StripNewlines, HostPart;
    if p.action.AddLine? { StrippedStays(d.extra + "\n" + p.action.line); }
  }

  lemma {:induction false} RunKeeps(d: Data, ps: seq<Piece>)
    requires Kept(d)
    ensures Kept(ApplyAll(d, ps))
    decreases |ps|
  {
    hide Apply, Kept;
    if ps != [] {
      ApplyKeeps(d, ps[0]);
      RunKeeps(Apply(d, ps[0]), ps[1..]);
    }
  }

  lemma {:induction false} ApplyAppend(d: Data, a: seq<Piece>, b: seq<Piece>)
    ensures ApplyAll(d, a + b) == ApplyAll(ApplyAll(d, a), b)
    decreases |a|
  {
    hide Apply;
    if a == [] {
      assert a + b == b;
    } else {
      assert (a + b)[1..] == a[1..] + b;
      ApplyAppend(Apply(d, a[0]), a[1..], b);
    }
  }

  lemma EmptyIsKept()
    ensures Kept(Empty())
  {
  }

  /** The run with and without piece `i`, from what stands before it. */
  lemma RunAround(ps: seq<Piece>, i: nat) returns (before: Data)
    requires i < |ps|
    ensures before == Account(ps[..i]) && Kept(before)
    ensures Vanishes(ps, i) <==> AccountFrom(Apply(before, ps[i]), ps[i + 1..]) == AccountFrom(before, ps[i + 1..])
  {
    hide Apply, Account, AccountFrom, Kept, Empty;
    before := ApplyAll(Empty(), ps[..i]);
    var rest := ps[i + 1..];
    EmptyIsKept();
    RunKeeps(Empty(), ps[..i]);
    ApplyKeeps(before, ps[i]);
    FieldsAreAccountedFor(ps[..i]);
    ApplyAppend(Empty(), ps[..i], rest);
    ApplyAppend(Empty(), ps[..i], ps[i..]);
    assert ps == ps[..i] + ps[i..] && ps[i..][1..] == rest && ps[i..][0] == ps[i];
    FieldsFrom(before, rest);
    FieldsFrom(Apply(before, ps[i]), rest);
  }

  // ---------------------------------------------------------------- exactly which

  /**
   * What makes a piece vanish, from the pieces before it and after it: it does nothing; a later
   * piece overrules it; or it sets what was already so.
   */
  predicate Forgotten(ps: seq<Piece>, i: nat)
    requires i < |ps|
  {
    var before, rest := ps[..i], ps[i + 1..];
    match ps[i].action
    case Nothing => true
    case SetPort(n) => AsksPort(rest) || (AsksPort(before) && LastPort(before, 22) == n)
    case SetUser(v) => AsksUser(rest, FirstHost(before)) || LastUser(before, "", "") == v
    case SetKey(path) =>
      AsksKey(rest) || (LastKey(before, "") == path && (LastMode(before, "", 0) == 2 || AsksMode(rest, path)))
    case Identities(only) =>
      var key, mode := LastKey(before, ""), LastMode(before, "", 0);
      AsksMode(rest, key) || (if only then mode == 1 else key == "" || mode == 2)
    case SetAgent(on) => AsksAgent(rest) || LastAgent(before, false) == on
    case SetX11 => AsksX11(rest) || AsksX11(before)
    case SetJumps(jumps) => AsksJumps(rest) || LastJumps(before, []) == jumps
    case AddLine(line) => StripNewlines(line) == "" && StripNewlines(Join("\n", Lines(before))) == ""
    case AddRule(_) => false
    case Destination(token) =>
      && FirstHost(before) == "" && HostPart(token) == ""
      && (AsksUser(rest, "") || UserPart(token) == None || UserPart(token).value == LastUser(before, "", ""))
    case Unknown => ps[i].tokens == []
  }

  lemma ChangesOneField(x: Data, p: Piece, rest: seq<Piece>)
    requires p.action.SetPort? || p.action.SetUser? || p.action.SetAgent? || p.action.SetX11? || p.action.SetJumps?
    ensures AccountFrom(Apply(x, p), rest) == AccountFrom(x, rest) <==>
      match p.action
      case SetPort(n) => AsksPort(rest) || (x.portExplicit && x.port == n)
      case SetUser(v) => AsksUser(rest, x.host) || x.username == v
      case SetAgent(on) => AsksAgent(rest) || x.agent == on
      case SetX11 => AsksX11(rest) || x.x11
      case SetJumps(jumps) => AsksJumps(rest) || x.jumps == jumps
      case _ => true
  {
    hide LeftOver, FirstHost, Rules, LastPort, Lines, LastUser, LastKey, LastMode, LastAgent, LastJumps, AsksX11,
      AsksPort, AsksUser, AsksAgent, AsksJumps, Appended, StripNewlines;
    match p.action
    case SetPort(n) => PortMatters(rest, x.port, n);
    case SetUser(v) => UserMatters(rest, x.host, x.username, v);
    case SetAgent(on) => AgentMatters(rest, x.agent, on);
    case SetJumps(jumps) => JumpsMatter(rest, x.jumps, jumps);
    case _ =>
  }

  lemma ChangesKey(x: Data, p: Piece, rest: seq<Piece>)
    requires p.action.SetKey? || p.action.Identities?
    ensures AccountFrom(Apply(x, p), rest) == AccountFrom(x, rest) <==>
      if p.action.SetKey? then
        AsksKey(rest) || (x.keyfile == p.action.path && (x.keyMode == 2 || AsksMode(rest, p.action.path)))
      else
        AsksMode(rest, x.keyfile) || (if p.action.only then x.keyMode == 1 else x.keyfile == "" || x.keyMode == 2)
  {
    hide LeftOver, FirstHost, Rules, LastPort, Lines, LastUser, LastKey, LastMode, LastAgent, LastJumps, AsksX11,
      AsksPort, AsksMode, AsksKey, Appended, StripNewlines;
    if p.action.SetKey? {
      var path := p.action.path;
      KeyMatters(rest, x.keyfile, path);
      ModeMatters(rest, path, x.keyMode, 2);
      if AsksKey(rest) { LaterKeyDecides(rest, x.keyfile, x.keyMode, path, 2); }
    } else {
      ModeMatters(rest, x.keyfile, x.keyMode, if p.action.only then 1 else if x.keyfile != "" then 2 else x.keyMode);
    }
  }

  lemma {:induction false} StrippedIsShorter(s: string)
    ensures |StripNewlines(s)| <= |s|
  {
    if s != "" && s[0] == '\n' { StrippedIsShorter(s[1..]); }
  }

  /** A line is lost only when it is empty and nothing stands before it. */
  lemma LineMatters(extra: string, line: string, more: string)
    requires extra == StripNewlines(extra)
    ensures StripNewlines(StripNewlines(extra + "\n" + line) + more) == StripNewlines(extra + more)
      <==> StripNewlines(line) == "" && extra == ""
  {
    StripTwice(extra + "\n" + line, more);
    if extra != "" {
      LongerExtra(extra, line, more);
    } else {
      var all := "\n" + line + more;
      assert extra + "\n" + line + more == all && all[1..] == line + more && extra + more == more;
      assert StripNewlines(all) == StripNewlines(line + more);
      StripTwice(line, more);
      if StripNewlines(line) == "" {
        assert "" + more == more;
      } else {
        FirstStays(line, more);
        StrippedIsShorter(more);
      }
    }
  }

  lemma LongerExtra(extra: string, line: string, more: string)
    requires extra != "" && extra == StripNewlines(extra)
    ensures StripNewlines(extra + "\n" + line + more) != StripNewlines(extra + more)
  {
    StrippedStart(extra);
    var a, b := extra + "\n" + line + more, extra + more;
    assert a[0] == extra[0] && b[0] == extra[0];
    assert |a| > |b|;
  }

  lemma {:induction false} StrippedStart(s: string)
    requires StripNewlines(s) != ""
    ensures StripNewlines(s)[0] != '\n'
  {
    if s[0] == '\n' { StrippedStart(s[1..]); }
  }

  lemma FirstStays(line: string, more: string)
    requires StripNewlines(line) != ""
    ensures StripNewlines(StripNewlines(line) + more) == StripNewlines(line) + more
  {
    StrippedStart(line);
    var s := StripNewlines(line) + more;
    assert s[0] == StripNewlines(line)[0];
  }

  lemma ChangesText(x: Data, p: Piece, rest: seq<Piece>)
    requires Kept(x) && (p.action.AddLine? || p.action.AddRule? || p.action.Unknown? || p.action.Nothing?)
    ensures AccountFrom(Apply(x, p), rest) == AccountFrom(x, rest) <==>
      match p.action
      case AddLine(line) => StripNewlines(line) == "" && x.extra == ""
      case AddRule(_) => false
      case Unknown => p.tokens == []
      case _ => true
  {
    hide LeftOver, FirstHost, Rules, LastPort, Lines, LastUser, LastKey, LastMode, LastAgent, LastJumps, AsksX11,
      AsksPort, Appended, StripNewlines;
    match p.action
    case AddLine(line) => LineMatters(x.extra, line, Appended(Lines(rest)));
    case AddRule(rule) => assert |x.rules + [rule] + Rules(rest)| > |x.rules + Rules(rest)|;
    case Unknown =>
      assert |x.unparsed + p.tokens + LeftOver(rest, x.host)| == |x.unparsed + LeftOver(rest, x.host)| + |p.tokens|;
      if p.tokens == [] { assert x.unparsed + [] == x.unparsed; }
    case _ =>
  }

  /** With the host known, more is left over. */
  lemma {:induction false} KnownHostLeavesMore(ps: seq<Piece>, host: string)
    requires host != ""
    ensures |LeftOver(ps, host)| >= |LeftOver(ps, "")|
    ensures FirstHost(ps) != "" ==> |LeftOver(ps, host)| > |LeftOver(ps, "")|
    decreases |ps|
  {
    hide HostPart;
    if ps != [] {
      var a := ps[0].action;
      KnownHostLeavesMore(ps[1..], host);
      if a.Destination? && HostPart(a.token) != "" { SameLeftOver(ps[1..], host, HostPart(a.token)); }
    }
  }

  lemma {:induction false} SameLeftOver(ps: seq<Piece>, a: string, b: string)
    requires a != "" && b != ""
    ensures LeftOver(ps, a) == LeftOver(ps, b)
    decreases |ps|
  {
    if ps != [] { SameLeftOver(ps[1..], a, b); }
  }

  lemma ChangesDestination(x: Data, p: Piece, rest: seq<Piece>)
    requires p.action.Destination? && Kept(x)
    ensures AccountFrom(Apply(x, p), rest) == AccountFrom(x, rest) <==>
      var token := p.action.token;
      && x.host == "" && HostPart(token) == ""
      && (AsksUser(rest, "") || UserPart(token) == None || UserPart(token).value == x.username)
  {
    hide LeftOver, FirstHost, Rules, LastPort, Lines, LastUser, LastKey, LastMode, LastAgent, LastJumps, AsksX11,
      AsksPort, Appended, StripNewlines, AsksUser, HostPart;
    var token := p.action.token;
    if x.host != "" {
      assert |x.unparsed + [token] + LeftOver(rest, x.host)| > |x.unparsed + LeftOver(rest, x.host)|;
    } else if HostPart(token) != "" {
      KnownHostLeavesMore(rest, HostPart(token));
    } else {
      UserMatters(rest, "", x.username, if UserPart(token).Some? then UserPart(token).value else x.username);
    }
  }

  /**
   * For every list of pieces, and so for every argument list: the connection is the same without a
   * piece if and only if the piece is one of the forgotten.
   */
  lemma ForgottenExactly(ps: seq<Piece>, i: nat)
    requires i < |ps|
    ensures Vanishes(ps, i) <==> Forgotten(ps, i)
  {
    hide Vanishes, AccountFrom, Apply, LastPort, LastUser, LastKey, LastMode, LastAgent, LastJumps, AsksUser, AsksKey,
      AsksMode, AsksAgent, AsksJumps, AsksX11, AsksPort, FirstHost, LeftOver, Rules, Lines, Join, StripNewlines,
      HostPart, UserPart, Kept;
    var x := RunAround(ps, i);
    var p, rest := ps[i], ps[i + 1..];
    var a := p.action;
    if a.SetKey? || a.Identities? { ChangesKey(x, p, rest); }
    else if a.Destination? { ChangesDestination(x, p, rest); }
    else if a.AddLine? || a.AddRule? || a.Unknown? || a.Nothing? { ChangesText(x, p, rest); }
    else { ChangesOneField(x, p, rest); }
  }

  // ---------------------------------------------------------------- arguments that vanish

  lemma FirstPiece(args: seq<string>, toInt: IntReader)
    requires args != []
    ensures var p, ps := Next(args, toInt), Pieces(args, toInt);
      |ps| > 0 && ps[0] == p && ps[1..] == Pieces(args[|p.tokens|..], toInt)
  {
    hide Next;
  }

  /** At the start: no hops, no agent, or a destination that says nothing. */
  predicate SaysNothing(a: Action) {
    || a == SetJumps([])
    || a == SetAgent(false)
    || (a.Destination? && HostPart(a.token) == "" && (UserPart(a.token) == None || UserPart(a.token) == Some("")))
  }

  lemma SilentStart(ps: seq<Piece>)
    requires ps != [] && SaysNothing(ps[0].action)
    ensures Vanishes(ps, 0)
  {
    assert ps[..0] == [];
    hide Vanishes, HostPart, UserPart;
    ForgottenExactly(ps, 0);
  }

  lemma SilentArgument(args: seq<string>, toInt: IntReader)
    requires args != [] && SaysNothing(Next(args, toInt).action)
    ensures var ps := Pieces(args, toInt); |ps| > 0 && Vanishes(ps, 0)
  {
    hide Next, Vanishes, SaysNothing;
    FirstPiece(args, toInt);
    SilentStart(Pieces(args, toInt));
  }

  lemma JumpAction(args: seq<string>, toInt: IntReader)
    requires |args| > 1 && Is(args[0], 'J') && args[1] == ","
    ensures Next(args, toInt).action == SetJumps([])
  {
    hide Next, OptionAction, ParseForward, ParseDynamic, HasEquals, Hops;
    NextWithValue(args, toInt);
    NoHops();
  }

  lemma NoHops()
    ensures Hops(",") == []
  {
    assert Strip("") == "";
    assert Hops("") == [];
    assert IndexOf(",", ',') == 0 && ","[1..] == "" && ","[..0] == "";
  }

  /** `-J ,` and whatever follows: a list of no hops is what there was. */
  lemma EmptyJumpVanishes(rest: seq<string>, toInt: IntReader)
    ensures var ps := Pieces(["-J", ","] + rest, toInt); |ps| > 0 && Vanishes(ps, 0)
  {
    var args := ["-J", ","] + rest;
    assert Is(args[0], 'J') && args[1] == ",";
    hide Vanishes, Next, Is;
    JumpAction(args, toInt);
    SilentArgument(args, toInt);
  }

  function AgentKey(): string { "ForwardAgent" }

  lemma AgentLower()
    ensures SshConfig.Lower(AgentKey()) == "forwardagent" && '=' !in AgentKey()
  {
    hide SshConfig.Lower;
    var key := AgentKey();
    LowerAppend(key[..7], key[7..]);
    assert key == key[..7] + key[7..] && key[..7] == "Forward" && key[7..] == "Agent";
    LowerWords();
    assert "forward" + "agent" == "forwardagent";
  }

  lemma LowerWords()
    ensures SshConfig.Lower("Forward") == "forward" && SshConfig.Lower("Agent") == "agent"
  {
    assert SshConfig.Lower("Forward") == ['f', 'o', 'r', 'w', 'a', 'r', 'd'];
    assert SshConfig.Lower("Agent") == ['a', 'g', 'e', 'n', 't'];
  }

  lemma LowerAppend(a: string, b: string)
    ensures SshConfig.Lower(a + b) == SshConfig.Lower(a) + SshConfig.Lower(b)
  {
    hide SshConfig.Lower;
    var l, r := SshConfig.Lower(a + b), SshConfig.Lower(a) + SshConfig.Lower(b);
    assert |l| == |r| && forall i :: 0 <= i < |l| ==> l[i] == r[i];
  }

  lemma AgentName()
    ensures NameOf(AgentKey()) == ForwardAgent && '=' !in AgentKey()
  {
    AgentLower();
    hide SshConfig.Lower, AgentKey;
    assert "forwardagent"[0] == 'f' && "identityfile"[0] == 'i';
    assert |"forwardagent"| == 12 && |"identitiesonly"| == 14 && |"user"| == 4 && |"port"| == 4;
  }

  lemma AgentOption(value: string, toInt: IntReader)
    requires !IsTrue(Strip(value))
    ensures var option := AgentKey() + "=" + value; HasEquals(option) && OptionAction(option, toInt) == SetAgent(false)
  {
    AgentName();
    hide AgentKey, NameOf, IsTrue, Strip, IndexOf;
    var key := AgentKey();
    var option := key + "=" + value;
    assert forall i :: 0 <= i < |key| ==> option[i] == key[i];
    IndexOfIs(option, '=', |key|);
    assert option[..|key|] == key && option[|key| + 1..] == value;
  }

  lemma AttachedOption(args: seq<string>, option: string, toInt: IntReader)
    requires args != [] && args[0] == "-o" + option && HasEquals(option)
    ensures Next(args, toInt).action == OptionAction(option, toInt)
  {
    var arg := args[0];
    assert option != "";
    assert arg[0] == '-' && arg[1] == 'o' && arg[2..] == option && |arg| > 2;
    hide Next, OptionAction, HasEquals;
    NextAlone(args, toInt);
  }

  /** `-oForwardAgent=` with a socket or anything else that is not yes, and whatever follows. */
  lemma AgentSocketVanishes(value: string, rest: seq<string>, toInt: IntReader)
    requires !IsTrue(Strip(value))
    ensures var ps := Pieces(["-o" + (AgentKey() + "=" + value)] + rest, toInt); |ps| > 0 && Vanishes(ps, 0)
  {
    hide Vanishes, Next, OptionAction, HasEquals, IsTrue, Strip, AgentKey;
    var args := ["-o" + (AgentKey() + "=" + value)] + rest;
    AgentOption(value, toInt);
    AttachedOption(args, AgentKey() + "=" + value, toInt);
    SilentArgument(args, toInt);
  }

  lemma LongIsNotTrue(v: string)
    requires |v| > 4
    ensures !IsTrue(v)
  {
    var k := SshConfig.Lower(v);
    assert |k| > 4;
    hide SshConfig.Lower;
    assert |"yes"| == 3 && |"true"| == 4 && |"1"| == 1 && |"on"| == 2;
  }

  lemma StripPlain(v: string)
    requires v != "" && !IsSpace(v[0]) && !IsSpace(v[|v| - 1])
    ensures Strip(v) == v
  {
    hide IsSpace, Strip;
    StripIndented("", v);
    assert "" + v == v;
  }

  /** The value `/tmp/s` is not yes. */
  lemma SocketIsNotYes()
    ensures !IsTrue(Strip("/tmp/s"))
  {
    var v := "/tmp/s";
    assert v[0] == '/' && v[5] == 's' && |v| == 6;
    assert !IsSpace('/') && !IsSpace('s');
    hide IsSpace, Strip, IsTrue;
    StripPlain(v);
    LongIsNotTrue(v);
  }

  /** At `-oForwardAgent=/tmp/s h`. */
  lemma AgentSocketForInstance(toInt: IntReader)
    ensures var ps := Pieces(["-o" + (AgentKey() + "=" + "/tmp/s")] + ["h"], toInt); |ps| > 0 && Vanishes(ps, 0)
  {
    hide *;
    SocketIsNotYes();
    AgentSocketVanishes("/tmp/s", ["h"], toInt);
  }

  lemma AtAction(args: seq<string>, toInt: IntReader)
    requires args != [] && args[0] == "@"
    ensures Next(args, toInt).action == Destination("@")
  {
    assert args[0][0] == '@';
    hide Next, OptionAction, HasEquals;
    NextAlone(args, toInt);
  }

  /** A bare `@` before the host, and whatever follows. */
  lemma BareAtVanishes(rest: seq<string>, toInt: IntReader)
    ensures var ps := Pieces(["@"] + rest, toInt); |ps| > 0 && Vanishes(ps, 0)
  {
    assert IndexOf("@", '@') == 0;
    assert HostPart("@") == "" && UserPart("@") == Some("");
    hide Next, Vanishes, HostPart, UserPart;
    AtAction(["@"] + rest, toInt);
    SilentArgument(["@"] + rest, toInt);
  }

  lemma KeyAction(args: seq<string>, toInt: IntReader)
    requires |args| > 1 && Is(args[0], 'i')
    ensures Next(args, toInt) == Piece(args[..2], SetKey(args[1]))
  {
    hide Next, OptionAction, ParseForward, ParseDynamic, HasEquals, Hops;
    NextWithValue(args, toInt);
  }

  /** The first of two key files, and whatever follows. */
  lemma OverruledKeyVanishes(a: string, b: string, rest: seq<string>, toInt: IntReader)
    ensures var ps := Pieces(["-i", a, "-i", b] + rest, toInt); |ps| > 0 && Vanishes(ps, 0)
  {
    var args := ["-i", a, "-i", b] + rest;
    var later := ["-i", b] + rest;
    assert Is(args[0], 'i') && Is(later[0], 'i') && args[2..] == later;
    hide Next, Vanishes, LastMode, AsksMode, LastKey, Is;
    KeyAction(args, toInt);
    KeyAction(later, toInt);
    FirstPiece(args, toInt);
    FirstPiece(later, toInt);
    ForgottenExactly(Pieces(args, toInt), 0);
  }
}
