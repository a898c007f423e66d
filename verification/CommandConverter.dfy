/** Turning the arguments of an `ssh` command into connection data. */
module CommandConverter {
  import opened Text
  import opened ForwardSpec
  import SshConfig

  /** Reading an integer as the host language does. */
  type IntReader = string -> Option<int>

  datatype Data = Data(
    username: string, host: string, hostname: string, nickname: string,
    port: int, portExplicit: bool, keyfile: string, keyMode: nat,
    x11: bool, agent: bool, rules: seq<Rule>, jumps: seq<string>, extra: string, unparsed: seq<string>)

  function Empty(): Data { Data("", "", "", "", 22, false, "", 0, false, false, [], [], "", []) }

  // ---------------------------------------------------------------- what an argument asks for

  /** What a piece of the command line does to the data. */
  datatype Action =
    | SetPort(port: int) | SetUser(user: string) | SetKey(path: string) | Identities(only: bool)
    | SetAgent(on: bool) | SetX11 | AddLine(line: string) | SetJumps(jumps: seq<string>)
    | AddRule(rule: Rule) | Destination(token: string) | Unknown | Nothing

  /** One or two consecutive arguments, taken together. */
  datatype Piece = Piece(tokens: seq<string>, action: Action)

  predicate Is(arg: string, c: char) { |arg| == 2 && arg[0] == '-' && arg[1] == c }

  predicate Begins(arg: string, c: char) { |arg| >= 2 && arg[0] == '-' && arg[1] == c }

  predicate IsFlag(arg: string) { arg != "" && arg[0] == '-' }

  /** The options that take the next argument as their value. */
  predicate TakesValue(key: string) {
    |key| == 2 && key[0] == '-' && key[1] in {
      'b', 'B', 'c', 'D', 'E', 'e', 'F', 'I', 'J', 'L', 'l', 'm', 'O', 'o', 'p', 'Q', 'R', 'S', 'W', 'w'}
  }

  predicate HasEquals(s: string) { IndexOf(s, '=') < |s| }

  /** The key and the attached value of an option nothing else recognises. */
  function SplitUnknown(arg: string): (string, string) {
    if Begins(arg, '-') then
      var n := IndexOf(arg, '=');
      (arg[..n], if n < |arg| then arg[n + 1..] else "")
    else if |arg| > 2 then (arg[..2], arg[2..])
    else (arg, "")
  }

  function UnknownLength(rest: seq<string>): (n: nat)
    requires rest != []
    ensures 1 <= n <= 2 && n <= |rest|
  {
    var (key, attached) := SplitUnknown(rest[0]);
    if attached == "" && TakesValue(key) && |rest| > 1 && !IsFlag(rest[1]) then 2 else 1
  }

  datatype Name = User | Port | IdentityFile | IdentitiesOnly | ForwardAgent | Other

  function NameOf(key: string): Name {
    var k := SshConfig.Lower(key);
    if k == "user" then User
    else if k == "port" then Port
    else if k == "identityfile" then IdentityFile
    else if k == "identitiesonly" then IdentitiesOnly
    else if k == "forwardagent" then ForwardAgent
    else Other
  }

  predicate IsTrue(v: string) { SshConfig.Lower(v) in ["yes", "true", "1", "on"] }

  predicate IsFalse(v: string) { SshConfig.Lower(v) in ["no", "false", "0", "off"] }

  /** What `-o key=value` asks for. */
  function NamedAction(key: string, value: string, toInt: IntReader): Action {
    match NameOf(key)
    case User => SetUser(value)
    case Port => if toInt(value).Some? then SetPort(toInt(value).value) else Nothing
    case IdentityFile => SetKey(value)
    case IdentitiesOnly =>
      if IsTrue(value) then Identities(true) else if IsFalse(value) then Identities(false) else Nothing
    case ForwardAgent => SetAgent(IsTrue(value))
    case Other => AddLine(key + " " + value)
  }

  function OptionAction(option: string, toInt: IntReader): Action
    requires HasEquals(option)
  {
    var n := IndexOf(option, '=');
    NamedAction(option[..n], Strip(option[n + 1..]), toInt)
  }

  function RuleAction(rule: Option<Rule>): Action { if rule.Some? then AddRule(rule.value) else Nothing }

  /** `[h.strip() for h in s.split(',') if h.strip()]` */
  function Hops(s: string): seq<string>
    decreases |s|
  {
    var n := IndexOf(s, ',');
    var hop := Strip(s[..n]);
    (if hop != "" then [hop] else []) + (if n < |s| then Hops(s[n + 1..]) else [])
  }

  /** The options that are told apart by their letter alone and take the next argument. */
  function WithValue(c: char, value: string, toInt: IntReader): Option<Action> {
    if c == 'p' then (if toInt(value).Some? then Some(SetPort(toInt(value).value)) else None)
    else if c == 'i' then Some(SetKey(value))
    else if c == 'o' then Some(if HasEquals(value) then OptionAction(value, toInt) else Nothing)
    else if c == 'J' then Some(SetJumps(Hops(value)))
    else if c == 'L' then Some(RuleAction(ParseForward(value, Local)))
    else if c == 'R' then Some(RuleAction(ParseForward(value, Remote)))
    else if c == 'D' then Some(RuleAction(ParseDynamic(value)))
    else None
  }

  /** What one argument means on its own. */
  function Alone(arg: string, toInt: IntReader): Option<Action> {
    if Begins(arg, 'o') && HasEquals(arg[2..]) then Some(OptionAction(arg[2..], toInt))
    else if Is(arg, 'X') then Some(SetX11)
    else if Is(arg, 'A') then Some(SetAgent(true))
    else if Is(arg, 'C') then Some(AddLine("Compression yes"))
    else if Is(arg, '4') then Some(AddLine("AddressFamily inet"))
    else if Is(arg, '6') then Some(AddLine("AddressFamily inet6"))
    else if Begins(arg, 'p') && toInt(arg[2..]).Some? then Some(SetPort(toInt(arg[2..]).value))
    else if Begins(arg, 'i') && |arg| > 2 then Some(SetKey(arg[2..]))
    else if !IsFlag(arg) then Some(Destination(arg))
    else None
  }

  /** The first piece of the remaining arguments. */
  function Next(rest: seq<string>, toInt: IntReader): (p: Piece)
    requires rest != []
    ensures 1 <= |p.tokens| <= |rest| && p.tokens == rest[..|p.tokens|]
  {
    var valued :=
      if |rest| > 1 && |rest[0]| == 2 && IsFlag(rest[0]) then WithValue(rest[0][1], rest[1], toInt) else None;
    if valued.Some? then Piece(rest[..2], valued.value)
    else
      match Alone(rest[0], toInt)
      case Some(action) => Piece(rest[..1], action)
      case None => Piece(rest[..UnknownLength(rest)], Unknown)
  }

  predicate HasValue(rest: seq<string>, toInt: IntReader)
    requires rest != []
  {
    |rest| > 1 && |rest[0]| == 2 && IsFlag(rest[0]) && WithValue(rest[0][1], rest[1], toInt).Some?
  }

  lemma NextWithValue(rest: seq<string>, toInt: IntReader)
    requires rest != [] && HasValue(rest, toInt)
    ensures Next(rest, toInt) == Piece(rest[..2], WithValue(rest[0][1], rest[1], toInt).value)
  {
  }

  lemma NextAlone(rest: seq<string>, toInt: IntReader)
    requires rest != [] && !HasValue(rest, toInt) && Alone(rest[0], toInt).Some?
    ensures Next(rest, toInt) == Piece(rest[..1], Alone(rest[0], toInt).value)
  {
  }

  lemma NextUnknown(rest: seq<string>, toInt: IntReader)
    requires rest != [] && !HasValue(rest, toInt) && Alone(rest[0], toInt).None?
    ensures Next(rest, toInt) == Piece(rest[..UnknownLength(rest)], Unknown)
  {
  }

  function Pieces(args: seq<string>, toInt: IntReader): seq<Piece> {
    if args == [] then []
    else var p := Next(args, toInt); [p] + Pieces(args[|p.tokens|..], toInt)
  }

  // ---------------------------------------------------------------- what it does to the data

  function StripNewlines(s: string): string { if s != "" && s[0] == '\n' then StripNewlines(s[1..]) else s }

  function HostPart(token: string): string {
    var n := IndexOf(token, '@');
    if n < |token| then token[n + 1..] else token
  }

  function SetDestination(d: Data, token: string): Data {
    var n := IndexOf(token, '@');
    var host := HostPart(token);
    d.(username := if n < |token| then token[..n] else d.username, host := host, hostname := host, nickname := host)
  }

  function Apply(d: Data, p: Piece): Data {
    match p.action
    case SetPort(n) => d.(port := n, portExplicit := true)
    case SetUser(v) => d.(username := v)
    case SetKey(v) => d.(keyfile := v, keyMode := 2)
    case Identities(only) =>
      if only then d.(keyMode := 1) else if d.keyfile != "" then d.(keyMode := 2) else d
    case SetAgent(on) => d.(agent := on)
    case SetX11 => d.(x11 := true)
    case AddLine(line) => d.(extra := StripNewlines(d.extra + "\n" + line))
    case SetJumps(hops) => d.(jumps := hops)
    case AddRule(rule) => d.(rules := d.rules + [rule])
    case Destination(token) =>
      if d.host == "" then SetDestination(d, token) else d.(unparsed := d.unparsed + [token])
    case Unknown => d.(unparsed := d.unparsed + p.tokens)
    case Nothing => d
  }

  function ApplyAll(d: Data, ps: seq<Piece>): Data
    decreases |ps|
  {
    if ps == [] then d else ApplyAll(Apply(d, ps[0]), ps[1..])
  }

  // ---------------------------------------------------------------- the loop

  method ParseArguments(args: seq<string>, toInt: IntReader) returns (data: Data)
    ensures data == ApplyAll(Empty(), Pieces(args, toInt))
  {
    hide Next, Apply;
    data := Empty();
    var i := 0;
    assert args[0..] == args;
    while i < |args|
      invariant 0 <= i <= |args|
      invariant ApplyAll(data, Pieces(args[i..], toInt)) == ApplyAll(Empty(), Pieces(args, toInt))
    {
      ghost var p := Next(args[i..], toInt);
      ghost var tail := Pieces(args[i..][|p.tokens|..], toInt);
      assert Pieces(args[i..], toInt) == [p] + tail;
      assert ([p] + tail)[1..] == tail;
      assert args[i..][|p.tokens|..] == args[i + |p.tokens|..];
      i, data := Consume(args, i, data, toInt);
    }
  }

  /** One turn of the loop: the index moves past exactly the arguments that were read. */
  method Consume(args: seq<string>, i: nat, d: Data, toInt: IntReader) returns (next: nat, data: Data)
    requires i < |args|
    ensures var p := Next(args[i..], toInt); next == i + |p.tokens| && data == Apply(d, p)
  {
    hide Next, WithValue, Alone, Apply;
    var taken := false;
    if i + 1 < |args| && |args[i]| == 2 && IsFlag(args[i]) {
      assert args[i..][0] == args[i] && args[i..][1] == args[i + 1];
      taken, data := ConsumeWithValue(args[i..], d, toInt);
    }
    if taken {
      NextWithValue(args[i..], toInt);
      next := i + 2;
    } else {
      var n;
      n, data := ConsumeAlone(args[i..], d, toInt);
      next := i + n;
    }
  }

  /** The options whose value is the next argument. */
  method ConsumeWithValue(rest: seq<string>, d: Data, toInt: IntReader) returns (taken: bool, data: Data)
    requires |rest| > 1 && |rest[0]| == 2 && IsFlag(rest[0])
    ensures taken == HasValue(rest, toInt) && (taken ==> data == Apply(d, Next(rest, toInt)))
  {
    hide OptionAction, ParseForward, ParseDynamic, HasEquals, Hops, Next;
    var c, value := rest[0][1], rest[1];
    data, taken := d, true;
    if HasValue(rest, toInt) { NextWithValue(rest, toInt); }
    if c == 'p' && toInt(value).Some? {
      data := data.(port := toInt(value).value, portExplicit := true);
    } else if c == 'i' {
      data := data.(keyfile := value, keyMode := 2);
    } else if c == 'o' {
      if HasEquals(value) { data := ApplyOption(data, value, toInt, rest[..2]); }
    } else if c == 'J' {
      data := data.(jumps := Hops(value));
    } else if c == 'L' || c == 'R' || c == 'D' {
      var rule := if c == 'D' then ParseDynamic(value) else ParseForward(value, if c == 'L' then Local else Remote);
      if rule.Some? { data := data.(rules := data.rules + [rule.value]); }
    } else {
      taken := false;
    }
  }

  /** Everything else: one argument, or an unrecognised option with its value. */
  method ConsumeAlone(rest: seq<string>, d: Data, toInt: IntReader) returns (n: nat, data: Data)
    requires rest != [] && !HasValue(rest, toInt)
    ensures var p := Next(rest, toInt); n == |p.tokens| && data == Apply(d, p)
  {
    hide OptionAction, HasEquals, StripNewlines, SetDestination, UnknownLength, Next, HasValue;
    var arg := rest[0];
    data, n := d, 1;
    if Alone(arg, toInt).Some? { NextAlone(rest, toInt); } else { NextUnknown(rest, toInt); }
    if Begins(arg, 'o') && HasEquals(arg[2..]) {
      data := ApplyOption(data, arg[2..], toInt, rest[..1]);
    } else if Is(arg, 'X') {
      data := data.(x11 := true);
    } else if Is(arg, 'A') {
      data := data.(agent := true);
    } else if Is(arg, 'C') {
      data := data.(extra := StripNewlines(data.extra + "\n" + "Compression yes"));
    } else if Is(arg, '4') {
      data := data.(extra := StripNewlines(data.extra + "\n" + "AddressFamily inet"));
    } else if Is(arg, '6') {
      data := data.(extra := StripNewlines(data.extra + "\n" + "AddressFamily inet6"));
    } else if Begins(arg, 'p') && toInt(arg[2..]).Some? {
      data := data.(port := toInt(arg[2..]).value, portExplicit := true);
    } else if Begins(arg, 'i') && |arg| > 2 {
      data := data.(keyfile := arg[2..], keyMode := 2);
    } else if !IsFlag(arg) {
      if data.host == "" {
        data := SetDestination(data, arg);
      } else {
        data := data.(unparsed := data.unparsed + [arg]);
      }
    } else {
      n := UnknownLength(rest);
      data := data.(unparsed := data.unparsed + rest[..n]);
    }
  }

  method ApplyOption(d: Data, option: string, toInt: IntReader, ghost tokens: seq<string>) returns (data: Data)
    requires HasEquals(option)
    ensures data == Apply(d, Piece(tokens, OptionAction(option, toInt)))
  {
    hide NameOf, IsTrue, IsFalse, Strip, StripNewlines;
    var n := IndexOf(option, '=');
    var key, value := option[..n], Strip(option[n + 1..]);
    data := d;
    match NameOf(key) {
      case User => data := data.(username := value);
      case Port => if toInt(value).Some? { data := data.(port := toInt(value).value, portExplicit := true); }
      case IdentityFile => data := data.(keyfile := value, keyMode := 2);
      case IdentitiesOnly =>
        if IsTrue(value) { data := data.(keyMode := 1); }
        else if IsFalse(value) && data.keyfile != "" { data := data.(keyMode := 2); }
      case ForwardAgent => data := data.(agent := IsTrue(value));
      case Other => data := data.(extra := StripNewlines(data.extra + "\n" + (key + " " + value)));
    }
  }
}
