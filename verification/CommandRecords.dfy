/** What the connection says about each argument, and which arguments it says nothing about. */
module CommandRecords {
  import opened Text
  import opened ForwardSpec
  import opened CommandConverter
  import opened CommandAccounting

  // ---------------------------------------------------------------- each field by itself

  function UserPart(token: string): Option<string> {
    var n := IndexOf(token, '@');
    if n < |token| then Some(token[..n]) else None
  }

  /** The user name: the last one asked for, where destinations count until one has a host. */
  function LastUser(ps: seq<Piece>, host: string, user: string): string
    decreases |ps|
  {
    if ps == [] then user
    else
      match ps[0].action
      case SetUser(v) => LastUser(ps[1..], host, v)
      case Destination(token) =>
        if host != "" then LastUser(ps[1..], host, user)
        else LastUser(ps[1..], HostPart(token), if UserPart(token).Some? then UserPart(token).value else user)
      case _ => LastUser(ps[1..], host, user)
  }

  function LastKey(ps: seq<Piece>, key: string): string {
    if ps == [] then key else LastKey(ps[1..], if ps[0].action.SetKey? then ps[0].action.path else key)
  }

  /** The key selection mode, which `IdentitiesOnly=no` only touches when there is a key file. */
  function LastMode(ps: seq<Piece>, key: string, mode: nat): nat
    decreases |ps|
  {
    if ps == [] then mode
    else
      match ps[0].action
      case SetKey(path) => LastMode(ps[1..], path, 2)
      case Identities(only) => LastMode(ps[1..], key, if only then 1 else if key != "" then 2 else mode)
      case _ => LastMode(ps[1..], key, mode)
  }

  function LastAgent(ps: seq<Piece>, on: bool): bool {
    if ps == [] then on else LastAgent(ps[1..], if ps[0].action.SetAgent? then ps[0].action.on else on)
  }

  function LastJumps(ps: seq<Piece>, jumps: seq<string>): seq<string> {
    if ps == [] then jumps else LastJumps(ps[1..], if ps[0].action.SetJumps? then ps[0].action.jumps else jumps)
  }

  function Lines(ps: seq<Piece>): seq<string> {
    if ps == [] then [] else (if ps[0].action.AddLine? then [ps[0].action.line] else []) + Lines(ps[1..])
  }

  predicate AsksX11(ps: seq<Piece>) { ps != [] && (ps[0].action.SetX11? || AsksX11(ps[1..])) }

  predicate AsksPort(ps: seq<Piece>) { ps != [] && (ps[0].action.SetPort? || AsksPort(ps[1..])) }

  /** The connection, field by field. */
  function Account(ps: seq<Piece>): Data {
    var host := FirstHost(ps);
    Data(LastUser(ps, "", ""), host, host, host, LastPort(ps, 22), AsksPort(ps), LastKey(ps, ""), LastMode(ps, "", 0),
         AsksX11(ps), LastAgent(ps, false), Rules(ps), LastJumps(ps, []), 
         StripNewlines(Join("\n", Lines(ps))), LeftOver(ps, ""))
  }

  lemma NameStep(d: Data, p: Piece)
    ensures var e, a := Apply(d, p), p.action;
      e.username == if a.SetUser? then a.user
                    else if a.Destination? && d.host == "" && UserPart(a.token).Some? then UserPart(a.token).value
                    else d.username
  {
    hide StripNewlines, HostPart;
  }

  lemma {:induction false} UserFrom(d: Data, ps: seq<Piece>)
    ensures ApplyAll(d, ps).username == LastUser(ps, d.host, d.username)
    decreases |ps|
  {
    hide Apply, HostPart, UserPart;
    if ps != [] {
      NameStep(d, ps[0]);
      LeftOverStep(d, ps[0]);
      UserFrom(Apply(d, ps[0]), ps[1..]);
    }
  }

  lemma KeyStep(d: Data, p: Piece)
    ensures var e, a := Apply(d, p), p.action;
      && e.keyfile == (if a.SetKey? then a.path else d.keyfile)
      && e.keyMode == if a.SetKey? then 2
                      else if a.Identities? then (if a.only then 1 else if d.keyfile != "" then 2 else d.keyMode)
                      else d.keyMode
  {
    hide StripNewlines, HostPart;
  }

  lemma {:induction false} KeyFrom(d: Data, ps: seq<Piece>)
    ensures ApplyAll(d, ps).keyfile == LastKey(ps, d.keyfile)
    ensures ApplyAll(d, ps).keyMode == LastMode(ps, d.keyfile, d.keyMode)
    decreases |ps|
  {
    hide Apply;
    if ps != [] {
      KeyStep(d, ps[0]);
      KeyFrom(Apply(d, ps[0]), ps[1..]);
    }
  }

  lemma FlagStep(d: Data, p: Piece)
    ensures var e, a := Apply(d, p), p.action;
      && e.agent == (if a.SetAgent? then a.on else d.agent)
      && e.jumps == (if a.SetJumps? then a.jumps else d.jumps)
      && e.x11 == (d.x11 || a.SetX11?)
      && e.portExplicit == (d.portExplicit || a.SetPort?)
  {
    hide StripNewlines, HostPart;
  }

  lemma {:induction false} FlagsFrom(d: Data, ps: seq<Piece>)
    ensures var e := ApplyAll(d, ps);
      && e.agent == LastAgent(ps, d.agent) && e.jumps == LastJumps(ps, d.jumps)
      && e.x11 == (d.x11 || AsksX11(ps)) && e.portExplicit == (d.portExplicit || AsksPort(ps))
    decreases |ps|
  {
    hide Apply;
    if ps != [] {
      FlagStep(d, ps[0]);
      FlagsFrom(Apply(d, ps[0]), ps[1..]);
    }
  }

  // ---------------------------------------------------------------- the extra lines

  lemma {:induction false} StripTwice(a: string, b: string)
    ensures StripNewlines(StripNewlines(a) + b) == StripNewlines(a + b)
    decreases |a|
  {
    if a != "" && a[0] == '\n' {
      StripTwice(a[1..], b);
      assert (a + b)[1..] == a[1..] + b;
    }
  }

  /** What the lines add to a text that is already there. */
  function Appended(ls: seq<string>): string {
    if ls == [] then "" else "\n" + ls[0] + Appended(ls[1..])
  }

  lemma {:induction false} AppendedJoin(ls: seq<string>)
    ensures StripNewlines(Appended(ls)) == StripNewlines(Join("\n", ls))
    decreases |ls|
  {
    if ls != [] {
      JoinAppended(ls);
      assert Appended(ls) == "\n" + Join("\n", ls);
      assert Appended(ls)[1..] == Join("\n", ls);
    }
  }

  lemma {:induction false} JoinAppended(ls: seq<string>)
    requires ls != []
    ensures Appended(ls) == "\n" + Join("\n", ls)
    decreases |ls|
  {
    if |ls| > 1 {
      JoinAppended(ls[1..]);
      assert ls == [ls[0]] + ls[1..];
      JoinCons("\n", ls[0], ls[1..]);
      assert "\n" + ls[0] + ("\n" + Join("\n", ls[1..])) == "\n" + (ls[0] + "\n" + Join("\n", ls[1..]));
    } else {
      assert ls[1..] == [];
      assert "\n" + ls[0] + "" == "\n" + ls[0];
    }
  }

  lemma {:induction false} ExtraFrom(d: Data, ps: seq<Piece>)
    requires d.extra == StripNewlines(d.extra)
    ensures ApplyAll(d, ps).extra == StripNewlines(d.extra + Appended(Lines(ps)))
    decreases |ps|
  {
    hide StripNewlines, SetDestination;
    if ps == [] {
      assert d.extra + "" == d.extra;
    } else {
      var e := Apply(d, ps[0]);
      if ps[0].action.AddLine? {
        var line, rest := ps[0].action.line, Lines(ps[1..]);
        StripTwice(d.extra + "\n" + line, "");
        assert StripNewlines(d.extra + "\n" + line) + "" == StripNewlines(d.extra + "\n" + line);
        assert d.extra + "\n" + line + "" == d.extra + "\n" + line;
        ExtraFrom(e, ps[1..]);
        StripTwice(d.extra + "\n" + line, Appended(rest));
        assert ([line] + rest)[1..] == rest;
        assert d.extra + "\n" + line + Appended(rest) == d.extra + ("\n" + line + Appended(rest));
      } else {
        assert e.extra == d.extra by { LinesOnly(d, ps[0]); }
        assert [] + Lines(ps[1..]) == Lines(ps[1..]);
        ExtraFrom(e, ps[1..]);
      }
    }
  }

  lemma LinesOnly(d: Data, p: Piece)
    requires !p.action.AddLine?
    ensures Apply(d, p).extra == d.extra
  {
  }

  // ---------------------------------------------------------------- the whole argument list

  /**
   * For every argument list: each argument is read once, what is set aside is an ordered
   * subsequence, and every field of the connection is what its own account says.
   */
  lemma ArgumentsAreAccountedFor(args: seq<string>, toInt: IntReader)
    ensures var ps := Pieces(args, toInt);
      && Tokens(ps) == args
      && ApplyAll(Empty(), ps) == Account(ps)
      && Subsequence(Account(ps).unparsed, args)
      && (Account(ps).keyfile != "" ==> Account(ps).keyMode != 0)
  {
    hide Pieces, ApplyAll, Tokens, LeftOver, FirstHost, Rules, LastPort, Subsequence, Lines, LastUser, LastKey,
      LastMode, LastAgent, LastJumps, AsksX11, AsksPort, Join, Appended;
    var ps := Pieces(args, toInt);
    EveryArgumentIsReadOnce(args, toInt);
    PiecesAreFaithful(args, toInt);
    LeftOverInOrder(ps, "");
    FieldsAreAccountedFor(ps);
    KeyHasMode(Empty(), ps);
  }

  lemma FieldsAreAccountedFor(ps: seq<Piece>)
    ensures ApplyAll(Empty(), ps) == Account(ps)
  {
    hide ApplyAll, LeftOver, FirstHost, Rules, LastPort, Lines, LastUser, LastKey, LastMode, LastAgent, LastJumps,
      AsksX11, AsksPort, Join, Appended;
    HostFrom(Empty(), ps);
    LeftOverFrom(Empty(), ps);
    RulesFrom(Empty(), ps);
    UserFrom(Empty(), ps);
    KeyFrom(Empty(), ps);
    FlagsFrom(Empty(), ps);
    ExtraFrom(Empty(), ps);
    AppendedJoin(Lines(ps));
    assert "" + Appended(Lines(ps)) == Appended(Lines(ps));
    assert [] + LeftOver(ps, "") == LeftOver(ps, "") && [] + Rules(ps) == Rules(ps);
  }

  // ---------------------------------------------------------------- every line stands in the result

  /** `line` stands in `text` as lines of its own. */
  ghost predicate HasLine(text: string, line: string) {
    exists a, b :: Around(text, a, line, b)
  }

  predicate Around(text: string, a: string, line: string, b: string) {
    text == a + line + b && (a == "" || a[|a| - 1] == '\n') && (b == "" || b[0] == '\n')
  }

  lemma {:induction false} LineIsPlaced(ls: seq<string>, i: nat, text: string) returns (a: string, b: string)
    requires i < |ls|
    ensures a != "" && Around(text + Appended(ls), a, ls[i], b)
    decreases |ls|
  {
    if i == 0 {
      a, b := text + "\n", Appended(ls[1..]);
      assert text + Appended(ls) == a + ls[0] + b;
    } else {
      a, b := LineIsPlaced(ls[1..], i - 1, text + "\n" + ls[0]);
      assert text + Appended(ls) == text + "\n" + ls[0] + Appended(ls[1..]);
    }
  }

  lemma {:induction false} StripSplit(line: string) returns (k: nat)
    ensures k <= |line| && StripNewlines(line) == line[k..] && forall i :: 0 <= i < k ==> line[i] == '\n'
    ensures k < |line| ==> line[k] != '\n'
  {
    if line != "" && line[0] == '\n' {
      k := StripSplit(line[1..]);
      k := k + 1;
    } else {
      k := 0;
    }
  }

  /** Stripping the text's leading newlines costs a line at most its own leading newlines. */
  lemma {:induction false} StrippedLineStays(a: string, line: string, b: string)
    requires a != "" && a[|a| - 1] == '\n' && (b == "" || b[0] == '\n') && StripNewlines(line) != ""
    ensures HasLine(StripNewlines(a + line + b), StripNewlines(line))
    decreases |a|
  {
    var text := a + line + b;
    if a[0] != '\n' {
      LateLine(a, line, b);
    } else if |a| > 1 {
      hide HasLine;
      StrippedLineStays(a[1..], line, b);
      assert text[1..] == a[1..] + line + b;
    } else {
      hide HasLine;
      assert text[1..] == line + b;
      FirstLineStays(line, b);
    }
  }

  lemma LateLine(a: string, line: string, b: string)
    requires a != "" && a[0] != '\n' && a[|a| - 1] == '\n' && (b == "" || b[0] == '\n')
    ensures HasLine(StripNewlines(a + line + b), StripNewlines(line))
  {
    var text := a + line + b;
    assert StripNewlines(text) == text;
    hide StripNewlines;
    var k := StripSplit(line);
    var front := a + line[..k];
    assert text == front + line[k..] + b;
    assert Around(text, front, line[k..], b);
  }

  lemma FirstLineStays(line: string, b: string)
    requires (b == "" || b[0] == '\n') && StripNewlines(line) != ""
    ensures HasLine(StripNewlines(line + b), StripNewlines(line))
  {
    hide HasLine;
    var rest := StripNewlines(line);
    var k := StripSplit(line);
    StripTwice(line, b);
    assert (rest + b)[0] == rest[0] == line[k];
    assert StripNewlines(rest + b) == rest + b;
    FirstIsLine(rest, b);
  }

  lemma FirstIsLine(line: string, b: string)
    requires b == "" || b[0] == '\n'
    ensures HasLine(line + b, line)
  {
    assert "" + line + b == line + b;
    assert Around(line + b, "", line, b);
  }

  lemma {:induction false} LineIsListed(ps: seq<Piece>, i: nat) returns (k: nat)
    requires i < |ps| && ps[i].action.AddLine?
    ensures k < |Lines(ps)| && Lines(ps)[k] == ps[i].action.line
    decreases |ps|
  {
    if i == 0 {
      k := 0;
    } else {
      k := LineIsListed(ps[1..], i - 1);
      if ps[0].action.AddLine? { k := k + 1; }
    }
  }

  /** The line an argument adds stands in the extra configuration as lines of its own. */
  lemma LineIsKept(ps: seq<Piece>, i: nat)
    requires i < |ps| && ps[i].action.AddLine? && StripNewlines(ps[i].action.line) != ""
    ensures HasLine(ApplyAll(Empty(), ps).extra, StripNewlines(ps[i].action.line))
  {
    hide Lines, Appended, Join, StripNewlines, HasLine, ApplyAll;
    var line := ps[i].action.line;
    var k := LineIsListed(ps, i);
    var a, b := LineIsPlaced(Lines(ps), k, "");
    assert "" + Appended(Lines(ps)) == Appended(Lines(ps));
    StrippedLineStays(a, line, b);
    EmptyIsStripped();
    ExtraFrom(Empty(), ps);
  }

  lemma EmptyIsStripped()
    ensures StripNewlines("") == ""
  {
  }

  // ---------------------------------------------------------------- the command

  datatype Parsed = Unreadable | Rejected | Bare(username: string, host: string) | Connection(data: Data)

  /** The adjustment after the loop. */
  function WithKeyMode(d: Data): Data { if d.keyfile != "" && d.keyMode == 0 then d.(keyMode := 2) else d }

  /** A bare `user@host`, or a command whose first word is `ssh` and that names a host. */
  method ParseSshCommand(text: string, tokenize: string -> seq<string>, toInt: IntReader) returns (r: Parsed)
    ensures var raw := Strip(text);
      var at, tokens := IndexOf(raw, '@'), tokenize(raw);
      if at < |raw| && ' ' !in raw && !("ssh" <= raw) then
        r == if HostPart(raw) != "" then Bare(raw[..at], HostPart(raw)) else Unreadable
      else if tokens == [] then r == Unreadable
      else if tokens[0] != "ssh" then r == Rejected
      else
        var ps := Pieces(tokens[1..], toInt);
        r == if FirstHost(ps) == "" then Unreadable else Connection(ApplyAll(Empty(), ps))
  {
    hide Strip, Pieces, ApplyAll, Subsequence, FirstHost, LeftOver, Rules, LastPort, LastUser, LastKey, LastMode,
      LastAgent, LastJumps, Lines, AsksX11, AsksPort, Join;
    var raw := Strip(text);
    var at := IndexOf(raw, '@');
    if at < |raw| && ' ' !in raw && !("ssh" <= raw) {
      return if HostPart(raw) != "" then Bare(raw[..at], raw[at + 1..]) else Unreadable;
    }
    var tokens := tokenize(raw);
    if tokens == [] { return Unreadable; }
    if tokens[0] != "ssh" { return Rejected; }
    var data := ParseArguments(tokens[1..], toInt);
    ArgumentsAreAccountedFor(tokens[1..], toInt);
    if data.host == "" { return Unreadable; }
    r := Connection(WithKeyMode(data));
  }
}
