/** A connection written out as arguments and read back, and every connection that was read written out again. */
module CommandRoundTrip {
  import opened Text
  import opened ForwardSpec
  import opened CommandConverter
  import opened CommandAccounting
  import opened CommandRecords
  import opened CommandVanish
  import opened CommandMeanings
  import SshConfig

  // ---------------------------------------------------------------- writing a connection out

  /** A connection to write out; `settings` are the options without a field of their own. */
  datatype Wish = Wish(
    user: string, host: string, port: Option<int>, keyfile: string, keyMode: nat, x11: bool, agent: bool,
    rules: seq<Rule>, jumps: seq<string>, settings: seq<(string, string)>)

  /** Writing an integer so that the reader reads it back. */
  type IntWriter = int -> string

  ghost predicate Inverse(show: IntWriter, toInt: IntReader) { forall n :: toInt(show(n)) == Some(n) }

  function SettingLine(s: (string, string)): string { s.0 + " " + s.1 }

  function SettingLines(ss: seq<(string, string)>): seq<string> {
    if ss == [] then [] else [SettingLine(ss[0])] + SettingLines(ss[1..])
  }

  /** The connection data the wish stands for. */
  function DataOf(w: Wish): Data {
    Data(w.user, w.host, w.host, w.host, if w.port.Some? then w.port.value else 22, w.port.Some?, w.keyfile, w.keyMode,
         w.x11, w.agent, w.rules, w.jumps, StripNewlines(Join("\n", SettingLines(w.settings))), [])
  }

  /** A user name that can stand in front of the host. */
  predicate InFront(user: string) { '@' !in user && !("-" <= user) }

  function DestinationArgs(w: Wish): seq<string> {
    if InFront(w.user) then [w.user + "@" + w.host] else ["@" + w.host, "-o", "User=" + w.user]
  }

  function KeyArgs(w: Wish): seq<string> {
    (if w.keyfile != "" || w.keyMode == 2 then ["-i", w.keyfile] else [])
    + if w.keyMode == 1 then ["-o", ModeKey() + "=" + "yes"] else []
  }

  function RuleArgs(r: Rule): seq<string> {
    [if r.Dynamic? then "-D" else if r.direction == Local then "-L" else "-R", Printed(r)]
  }

  function RulesArgs(rs: seq<Rule>): seq<string> {
    if rs == [] then [] else RuleArgs(rs[0]) + RulesArgs(rs[1..])
  }

  function SettingsArgs(ss: seq<(string, string)>): seq<string> {
    if ss == [] then [] else ["-o", ss[0].0 + "=" + ss[0].1] + SettingsArgs(ss[1..])
  }

  function Written(w: Wish, show: IntWriter): seq<string> {
    DestinationArgs(w)
    + (if w.port.Some? then ["-p", show(w.port.value)] else [])
    + KeyArgs(w)
    + (if w.x11 then ["-X"] else []) + (if w.agent then ["-A"] else [])
    + RulesArgs(w.rules)
    + (if w.jumps != [] then ["-J", Join(",", w.jumps)] else [])
    + SettingsArgs(w.settings)
  }

  /** A hop the reader keeps as it is. */
  predicate ProperHop(h: string) { h != "" && ',' !in h && Strip(h) == h }

  predicate ProperSetting(s: (string, string)) { '=' !in s.0 && NameOf(s.0) == Other && Strip(s.1) == s.1 }

  /** What arguments can say. */
  ghost predicate Writable(w: Wish) {
    && w.host != "" && (InFront(w.user) || Strip(w.user) == w.user)
    && w.keyMode <= 2 && (w.keyMode == 0 ==> w.keyfile == "")
    && (forall i :: 0 <= i < |w.rules| ==> Addressed(w.rules[i]))
    && (forall i :: 0 <= i < |w.jumps| ==> ProperHop(w.jumps[i]))
    && (forall i :: 0 <= i < |w.settings| ==> ProperSetting(w.settings[i]))
  }

  // ---------------------------------------------------------------- reading it back, group by group

  /** Arguments that are read as these pieces, whatever follows. */
  ghost predicate ReadAs(args: seq<string>, ps: seq<Piece>, toInt: IntReader) {
    forall rest :: Pieces(args + rest, toInt) == ps + Pieces(rest, toInt)
  }

  lemma ReadNothing(toInt: IntReader)
    ensures ReadAs([], [], toInt)
  {
    hide Pieces;
    forall rest ensures Pieces([] + rest, toInt) == [] + Pieces(rest, toInt) { assert [] + rest == rest; }
  }

  lemma ReadBoth(a: seq<string>, ps: seq<Piece>, b: seq<string>, qs: seq<Piece>, toInt: IntReader)
    requires ReadAs(a, ps, toInt) && ReadAs(b, qs, toInt)
    ensures ReadAs(a + b, ps + qs, toInt)
  {
    hide Pieces;
    forall rest ensures Pieces(a + b + rest, toInt) == ps + qs + Pieces(rest, toInt) {
      assert a + b + rest == a + (b + rest);
      Regroup(ps, qs, Pieces(rest, toInt));
    }
  }

  /** One piece whose length does not depend on what follows. */
  lemma ReadOne(args: seq<string>, p: Piece, toInt: IntReader)
    requires args != [] && p.tokens == args && forall rest :: Next(args + rest, toInt) == p
    ensures ReadAs(args, [p], toInt)
  {
    hide Next;
    forall rest ensures Pieces(args + rest, toInt) == [p] + Pieces(rest, toInt) {
      assert Next(args + rest, toInt) == p;
      assert (args + rest)[|args|..] == rest;
    }
  }

  /** Two arguments: an option and its value. */
  lemma ReadValued(name: string, c: char, value: string, a: Action, toInt: IntReader)
    requires name == ['-', c] && WithValue(c, value, toInt) == Some(a)
    ensures ReadAs([name, value], [Piece([name, value], a)], toInt)
  {
    var args := [name, value];
    forall rest ensures Next(args + rest, toInt) == Piece(args, a) {
      var all := args + rest;
      assert all[0] == name && all[1] == value && all[..2] == args;
      hide Next, WithValue;
      NextWithValue(all, toInt);
    }
    ReadOne(args, Piece(args, a), toInt);
  }

  /** One argument that is none of the options with a value. */
  lemma ReadAlone(arg: string, a: Action, toInt: IntReader)
    requires Alone(arg, toInt) == Some(a)
    requires |arg| == 2 && IsFlag(arg) ==> arg[1] !in {'p', 'i', 'o', 'J', 'L', 'R', 'D'}
    ensures ReadAs([arg], [Piece([arg], a)], toInt)
  {
    forall rest ensures Next([arg] + rest, toInt) == Piece([arg], a) {
      var all := [arg] + rest;
      assert all[0] == arg && all[..1] == [arg];
      hide Next, Alone, OptionAction, ParseForward, ParseDynamic, Hops;
      NextAlone(all, toInt);
    }
    ReadOne([arg], Piece([arg], a), toInt);
  }

  lemma ReadOption(key: string, value: string, toInt: IntReader)
    requires '=' !in key
    ensures var args := ["-o", key + "=" + value];
      ReadAs(args, [Piece(args, NamedAction(key, Strip(value), toInt))], toInt)
  {
    EqualsAt(key + "=" + value, key, value);
    hide NamedAction, Strip, HasEquals, ReadAs, IndexOf;
    ReadValued("-o", 'o', key + "=" + value, NamedAction(key, Strip(value), toInt), toInt);
  }

  lemma ApplyOne(d: Data, p: Piece)
    ensures ApplyAll(d, [p]) == Apply(d, p) && ApplyAll(d, []) == d
  {
    hide Apply;
    assert [p][1..] == [];
  }

  lemma UserOption()
    ensures NameOf("User") == User && '=' !in "User"
  {
    assert SshConfig.Lower("User") == ['u', 's', 'e', 'r'];
    hide SshConfig.Lower;
    NameIs("User");
  }

  function ModeKey(): string { "IdentitiesOnly" }

  lemma ModeStart()
    ensures SshConfig.Lower("Identi") == "identi"
  {
    assert SshConfig.Lower("Identi") == ['i', 'd', 'e', 'n', 't', 'i'];
  }

  lemma ModeMiddle()
    ensures SshConfig.Lower("ties") == "ties"
  {
    assert SshConfig.Lower("ties") == ['t', 'i', 'e', 's'];
  }

  lemma ModeEnd()
    ensures SshConfig.Lower("Only") == "only"
  {
    assert SshConfig.Lower("Only") == ['o', 'n', 'l', 'y'];
  }

  lemma ModeWords()
    ensures SshConfig.Lower("Identi") == "identi" && SshConfig.Lower("tiesOnly") == "tiesonly"
  {
    hide SshConfig.Lower;
    ModeStart();
    ModeMiddle();
    ModeEnd();
    LowerAppend("ties", "Only");
    assert "ties" + "Only" == "tiesOnly" && "ties" + "only" == "tiesonly";
  }

  lemma ModeOption()
    ensures NameOf(ModeKey()) == IdentitiesOnly && '=' !in ModeKey()
  {
    hide SshConfig.Lower, NameOf;
    var key := ModeKey();
    ModeWords();
    assert key == key[..6] + key[6..] && key[..6] == "Identi" && key[6..] == "tiesOnly";
    LowerAppend(key[..6], key[6..]);
    assert "identi" + "tiesonly" == "identitiesonly";
    NameIs(key);
  }

  lemma YesIsTrue()
    ensures Strip("yes") == "yes" && IsTrue("yes")
  {
    var v := "yes";
    assert !IsSpace('y') && !IsSpace('s');
    assert SshConfig.Lower(v) == ['y', 'e', 's'];
    hide IsSpace, Strip, SshConfig.Lower;
    StripPlain(v);
  }

  lemma AloneDestination(token: string, toInt: IntReader)
    requires token != "" && token[0] != '-'
    ensures Alone(token, toInt) == Some(Destination(token))
  {
    hide OptionAction;
  }

  /** A destination: a user name that can stand in front, and the host. */
  lemma ReadToken(front: string, host: string, toInt: IntReader) returns (p: Piece)
    requires InFront(front)
    ensures p.tokens == [front + "@" + host] && ReadAs(p.tokens, [p], toInt)
    ensures ApplyAll(Empty(), [p]) == Empty().(username := front, host := host, hostname := host, nickname := host)
  {
    var token := front + "@" + host;
    TokenParts(front, host);
    AloneDestination(token, toInt);
    hide Alone, ReadAs, InFront, SetDestination;
    ReadAlone(token, Destination(token), toInt);
    p := Piece([token], Destination(token));
    ApplyOne(Empty(), p);
  }

  /** The destination, and the user name if it cannot stand in front of the host. */
  lemma ReadDestination(w: Wish, toInt: IntReader) returns (ps: seq<Piece>)
    requires InFront(w.user) || Strip(w.user) == w.user
    ensures ReadAs(DestinationArgs(w), ps, toInt)
    ensures ApplyAll(Empty(), ps)
      == Empty().(username := w.user, host := w.host, hostname := w.host, nickname := w.host)
  {
    hide ReadAs, Apply, ApplyAll, Strip, NameOf;
    if InFront(w.user) {
      var p := ReadToken(w.user, w.host, toInt);
      ps := [p];
    } else {
      var p := ReadToken("", w.host, toInt);
      UserOption();
      ReadOption("User", w.user, toInt);
      var user := Piece(["-o", "User=" + w.user], SetUser(w.user));
      assert "User" + "=" + w.user == "User=" + w.user && "" + "@" + w.host == "@" + w.host;
      ReadBoth(p.tokens, [p], user.tokens, [user], toInt);
      assert p.tokens + user.tokens == DestinationArgs(w);
      ps := [p] + [user];
      ApplyAppend(Empty(), [p], [user]);
      ApplyOne(ApplyAll(Empty(), [p]), user);
      UserApplied(ApplyAll(Empty(), [p]), user, w.user);
    }
  }

  lemma UserApplied(d: Data, p: Piece, user: string)
    requires p.action == SetUser(user)
    ensures Apply(d, p) == d.(username := user)
  {
  }

  lemma TokenParts(front: string, host: string)
    requires InFront(front)
    ensures var token := front + "@" + host;
      && IndexOf(token, '@') == |front| && token[..|front|] == front && token[|front| + 1..] == host
      && token[0] != '-' && HostPart(token) == host
      && SetDestination(Empty(), token)
        == Empty().(username := front, host := host, hostname := host, nickname := host)
  {
    var token := front + "@" + host;
    assert front != "" ==> "-" <= front || front[0] != '-';
    IndexOfIs(token, '@', |front|);
  }

  lemma ReadPort(w: Wish, d: Data, show: IntWriter, toInt: IntReader) returns (ps: seq<Piece>)
    requires Inverse(show, toInt)
    ensures ReadAs(if w.port.Some? then ["-p", show(w.port.value)] else [], ps, toInt)
    ensures ApplyAll(d, ps) == if w.port.Some? then d.(port := w.port.value, portExplicit := true) else d
  {
    if w.port.Some? {
      var n := w.port.value;
      ReadValued("-p", 'p', show(n), SetPort(n), toInt);
      ps := [Piece(["-p", show(n)], SetPort(n))];
      ApplyOne(d, ps[0]);
    } else {
      ReadNothing(toInt);
      ps := [];
    }
  }

  lemma KeyApplied(d: Data, p: Piece)
    ensures p.action.SetKey? ==> Apply(d, p) == d.(keyfile := p.action.path, keyMode := 2)
    ensures p.action == Identities(true) ==> Apply(d, p) == d.(keyMode := 1)
  {
  }

  lemma ReadKeyfile(w: Wish, d: Data, toInt: IntReader) returns (ps: seq<Piece>)
    requires d.keyfile == "" && d.keyMode == 0
    ensures ReadAs(if w.keyfile != "" || w.keyMode == 2 then ["-i", w.keyfile] else [], ps, toInt)
    ensures ApplyAll(d, ps)
      == if w.keyfile != "" || w.keyMode == 2 then d.(keyfile := w.keyfile, keyMode := 2) else d
  {
    ReadNothing(toInt);
    ReadValued("-i", 'i', w.keyfile, SetKey(w.keyfile), toInt);
    hide ReadAs, Apply;
    var p := Piece(["-i", w.keyfile], SetKey(w.keyfile));
    ApplyOne(d, p);
    KeyApplied(d, p);
    ps := if w.keyfile != "" || w.keyMode == 2 then [p] else [];
  }

  lemma ReadMode(w: Wish, d: Data, toInt: IntReader) returns (ps: seq<Piece>)
    ensures ReadAs(if w.keyMode == 1 then ["-o", ModeKey() + "=" + "yes"] else [], ps, toInt)
    ensures ApplyAll(d, ps) == if w.keyMode == 1 then d.(keyMode := 1) else d
  {
    ModeOption();
    YesIsTrue();
    ReadNothing(toInt);
    hide ReadAs, Apply, ModeKey, NameOf, IsTrue, IsFalse, Strip;
    ReadOption(ModeKey(), "yes", toInt);
    var p := Piece(["-o", ModeKey() + "=" + "yes"], Identities(true));
    ApplyOne(d, p);
    KeyApplied(d, p);
    ps := if w.keyMode == 1 then [p] else [];
  }

  lemma ReadKey(w: Wish, d: Data, toInt: IntReader) returns (ps: seq<Piece>)
    requires w.keyMode <= 2 && (w.keyMode == 0 ==> w.keyfile == "") && d.keyfile == "" && d.keyMode == 0
    ensures ReadAs(KeyArgs(w), ps, toInt)
    ensures ApplyAll(d, ps) == d.(keyfile := w.keyfile, keyMode := w.keyMode)
  {
    hide ReadAs, ApplyAll, ModeKey;
    var first := ReadKeyfile(w, d, toInt);
    var second := ReadMode(w, ApplyAll(d, first), toInt);
    ReadBoth(
      if w.keyfile != "" || w.keyMode == 2 then ["-i", w.keyfile] else [], first,
      if w.keyMode == 1 then ["-o", ModeKey() + "=" + "yes"] else [], second, toInt);
    ApplyAppend(d, first, second);
    ps := first + second;
  }

  lemma FlagLetters(toInt: IntReader)
    ensures |"-X"| == |"-A"| == 2 && "-X"[1] == 'X' && "-A"[1] == 'A'
    ensures Alone("-X", toInt) == Some(SetX11) && Alone("-A", toInt) == Some(SetAgent(true))
  {
    assert "-X"[1] == 'X' && "-A"[1] == 'A';
  }

  lemma ReadFlags(w: Wish, d: Data, toInt: IntReader) returns (ps: seq<Piece>)
    requires !d.x11 && !d.agent
    ensures ReadAs((if w.x11 then ["-X"] else []) + (if w.agent then ["-A"] else []), ps, toInt)
    ensures ApplyAll(d, ps) == d.(x11 := w.x11, agent := w.agent)
  {
    hide ReadAs, ApplyAll;
    ReadNothing(toInt);
    FlagLetters(toInt);
    ReadAlone("-X", SetX11, toInt);
    ReadAlone("-A", SetAgent(true), toInt);
    var first := if w.x11 then [Piece(["-X"], SetX11)] else [];
    var second := if w.agent then [Piece(["-A"], SetAgent(true))] else [];
    ReadBoth(if w.x11 then ["-X"] else [], first, if w.agent then ["-A"] else [], second, toInt);
    ps := first + second;
    ApplyAppend(d, first, second);
    ApplyOne(d, Piece(["-X"], SetX11));
    ApplyOne(ApplyAll(d, first), Piece(["-A"], SetAgent(true)));
  }

  lemma ReadRule(r: Rule, toInt: IntReader)
    requires Addressed(r)
    ensures ReadAs(RuleArgs(r), [Piece(RuleArgs(r), AddRule(r))], toInt)
  {
    RuleRoundTrip(r);
    hide Printed, ParseForward, ParseDynamic, Addressed, ReadAs;
    if r.Dynamic? {
      ReadValued("-D", 'D', Printed(r), AddRule(r), toInt);
    } else if r.direction == Local {
      ReadValued("-L", 'L', Printed(r), AddRule(r), toInt);
    } else {
      ReadValued("-R", 'R', Printed(r), AddRule(r), toInt);
    }
  }

  lemma {:induction false} ReadRules(rs: seq<Rule>, d: Data, toInt: IntReader) returns (ps: seq<Piece>)
    requires forall i :: 0 <= i < |rs| ==> Addressed(rs[i])
    ensures ReadAs(RulesArgs(rs), ps, toInt)
    ensures ApplyAll(d, ps) == d.(rules := d.rules + rs)
    decreases |rs|
  {
    hide ReadAs, RuleArgs, Apply, ApplyAll, Addressed;
    if rs == [] {
      ReadNothing(toInt);
      ps := [];
      ApplyOne(d, Piece([], Nothing));
      assert d.rules + rs == d.rules;
    } else {
      var first := Piece(RuleArgs(rs[0]), AddRule(rs[0]));
      ReadRule(rs[0], toInt);
      ApplyOne(d, first);
      RuleApplied(d, first);
      var more := ReadRules(rs[1..], Apply(d, first), toInt);
      ReadBoth(RuleArgs(rs[0]), [first], RulesArgs(rs[1..]), more, toInt);
      ps := [first] + more;
      ApplyAppend(d, [first], more);
      assert d.rules + [rs[0]] + rs[1..] == d.rules + rs;
    }
  }

  lemma RuleApplied(d: Data, p: Piece)
    requires p.action.AddRule?
    ensures Apply(d, p) == d.(rules := d.rules + [p.action.rule])
  {
  }

  lemma {:induction false} HopsJoin(hs: seq<string>)
    requires hs != [] && forall i :: 0 <= i < |hs| ==> ProperHop(hs[i])
    ensures Hops(Join(",", hs)) == hs
    decreases |hs|
  {
    hide Hops, ProperHop;
    if |hs| == 1 {
      HopAlone(hs[0]);
      assert hs == [hs[0]];
    } else {
      HopsJoin(hs[1..]);
      HopBefore(hs[0], Join(",", hs[1..]));
      assert hs == [hs[0]] + hs[1..];
    }
  }

  lemma HopAlone(h: string)
    requires ProperHop(h)
    ensures Hops(h) == [h]
  {
    hide Strip, IndexOf;
    IndexOfIs(h, ',', |h|);
    assert h[..|h|] == h;
  }

  lemma HopBefore(h: string, rest: string)
    requires ProperHop(h)
    ensures Hops(h + "," + rest) == [h] + Hops(rest)
  {
    hide Strip, IndexOf;
    var s := h + "," + rest;
    assert forall j :: 0 <= j < |h| ==> s[j] == h[j];
    IndexOfIs(s, ',', |h|);
    assert s[..|h|] == h && s[|h| + 1..] == rest;
  }

  lemma ReadJumps(w: Wish, d: Data, toInt: IntReader) returns (ps: seq<Piece>)
    requires d.jumps == [] && forall i :: 0 <= i < |w.jumps| ==> ProperHop(w.jumps[i])
    ensures ReadAs(if w.jumps != [] then ["-J", Join(",", w.jumps)] else [], ps, toInt)
    ensures ApplyAll(d, ps) == d.(jumps := w.jumps)
  {
    hide Hops, Join, ProperHop, ReadAs, Apply;
    if w.jumps == [] {
      ReadNothing(toInt);
      ps := [];
    } else {
      HopsJoin(w.jumps);
      var text := Join(",", w.jumps);
      ReadValued("-J", 'J', text, SetJumps(w.jumps), toInt);
      ps := [Piece(["-J", text], SetJumps(w.jumps))];
      ApplyOne(d, ps[0]);
      JumpsApplied(d, ps[0]);
    }
  }

  lemma JumpsApplied(d: Data, p: Piece)
    requires p.action.SetJumps?
    ensures Apply(d, p) == d.(jumps := p.action.jumps)
  {
  }

  lemma {:induction false} ReadSettings(ss: seq<(string, string)>, toInt: IntReader) returns (ps: seq<Piece>)
    requires forall i :: 0 <= i < |ss| ==> ProperSetting(ss[i])
    ensures ReadAs(SettingsArgs(ss), ps, toInt)
    ensures |ps| == |ss| && forall i :: 0 <= i < |ps| ==> ps[i].action == AddLine(SettingLine(ss[i]))
    decreases |ss|
  {
    hide ReadAs, ProperSetting, SettingLine;
    if ss == [] {
      ReadNothing(toInt);
      ps := [];
    } else {
      var first := Piece(["-o", ss[0].0 + "=" + ss[0].1], AddLine(SettingLine(ss[0])));
      ReadSetting(ss[0], toInt);
      var more := ReadSettings(ss[1..], toInt);
      ReadBoth(first.tokens, [first], SettingsArgs(ss[1..]), more, toInt);
      ps := [first] + more;
      assert first.tokens + SettingsArgs(ss[1..]) == SettingsArgs(ss);
    }
  }

  lemma ReadSetting(s: (string, string), toInt: IntReader)
    requires ProperSetting(s)
    ensures var args := ["-o", s.0 + "=" + s.1]; ReadAs(args, [Piece(args, AddLine(SettingLine(s)))], toInt)
  {
    hide ReadAs, Strip, NameOf, IsTrue, IsFalse;
    ReadOption(s.0, s.1, toInt);
  }

  lemma {:induction false} LinesOfSettings(ps: seq<Piece>, ss: seq<(string, string)>)
    requires |ps| == |ss| && forall i :: 0 <= i < |ps| ==> ps[i].action == AddLine(SettingLine(ss[i]))
    ensures Lines(ps) == SettingLines(ss)
    decreases |ps|
  {
    if ps != [] { LinesOfSettings(ps[1..], ss[1..]); }
  }

  lemma {:induction false} LinesChangeExtra(d: Data, ps: seq<Piece>)
    requires forall i :: 0 <= i < |ps| ==> ps[i].action.AddLine?
    ensures ApplyAll(d, ps) == d.(extra := ApplyAll(d, ps).extra)
    decreases |ps|
  {
    hide StripNewlines;
    if ps != [] { LinesChangeExtra(Apply(d, ps[0]), ps[1..]); }
  }

  lemma ApplySettings(d: Data, ps: seq<Piece>, ss: seq<(string, string)>)
    requires |ps| == |ss| && forall i :: 0 <= i < |ps| ==> ps[i].action == AddLine(SettingLine(ss[i]))
    requires d.extra == ""
    ensures ApplyAll(d, ps) == d.(extra := StripNewlines(Join("\n", SettingLines(ss))))
  {
    EmptyIsStripped();
    hide StripNewlines, Join, Appended, ApplyAll, Lines, SettingLines, SettingLine;
    LinesChangeExtra(d, ps);
    LinesOfSettings(ps, ss);
    ExtraFrom(d, ps);
    AppendedJoin(Lines(ps));
    assert "" + Appended(Lines(ps)) == Appended(Lines(ps));
  }

  /** Four groups of arguments, one after the other. */
  lemma Chain(
    a1: seq<string>, p1: seq<Piece>, a2: seq<string>, p2: seq<Piece>, a3: seq<string>, p3: seq<Piece>,
    a4: seq<string>, p4: seq<Piece>, toInt: IntReader, d: Data) returns (ps: seq<Piece>)
    requires ReadAs(a1, p1, toInt) && ReadAs(a2, p2, toInt) && ReadAs(a3, p3, toInt) && ReadAs(a4, p4, toInt)
    ensures ReadAs(a1 + a2 + a3 + a4, ps, toInt)
    ensures ApplyAll(d, ps) == ApplyAll(ApplyAll(ApplyAll(ApplyAll(d, p1), p2), p3), p4)
  {
    hide ReadAs, ApplyAll;
    ReadBoth(a1, p1, a2, p2, toInt);
    ReadBoth(a1 + a2, p1 + p2, a3, p3, toInt);
    ReadBoth(a1 + a2 + a3, p1 + p2 + p3, a4, p4, toInt);
    ps := p1 + p2 + p3 + p4;
    ApplyAppend(d, p1, p2);
    ApplyAppend(d, p1 + p2, p3);
    ApplyAppend(d, p1 + p2 + p3, p4);
  }

  /** The arguments up to the flags. */
  function FirstArgs(w: Wish, show: IntWriter): seq<string> {
    DestinationArgs(w) + (if w.port.Some? then ["-p", show(w.port.value)] else []) + KeyArgs(w)
    + ((if w.x11 then ["-X"] else []) + (if w.agent then ["-A"] else []))
  }

  function LaterArgs(w: Wish): seq<string> {
    RulesArgs(w.rules) + (if w.jumps != [] then ["-J", Join(",", w.jumps)] else []) + SettingsArgs(w.settings) + []
  }

  lemma ReadFirst(w: Wish, show: IntWriter, toInt: IntReader) returns (ps: seq<Piece>)
    requires Writable(w) && Inverse(show, toInt)
    ensures ReadAs(FirstArgs(w, show), ps, toInt)
    ensures ApplyAll(Empty(), ps) == DataOf(w).(rules := [], jumps := [], extra := "")
  {
    hide ReadAs, ApplyAll, DestinationArgs, KeyArgs, Inverse, InFront, Strip, Addressed, ProperHop, ProperSetting,
      SettingLines, StripNewlines, Join;
    var p1 := ReadDestination(w, toInt);
    var d1 := ApplyAll(Empty(), p1);
    var p2 := ReadPort(w, d1, show, toInt);
    var d2 := ApplyAll(d1, p2);
    var p3 := ReadKey(w, d2, toInt);
    var p4 := ReadFlags(w, ApplyAll(d2, p3), toInt);
    ps := Chain(
      DestinationArgs(w), p1, if w.port.Some? then ["-p", show(w.port.value)] else [], p2, KeyArgs(w), p3,
      (if w.x11 then ["-X"] else []) + (if w.agent then ["-A"] else []), p4, toInt, Empty());
  }

  lemma ReadLater(w: Wish, d: Data, toInt: IntReader) returns (ps: seq<Piece>)
    requires Writable(w) && d == DataOf(w).(rules := [], jumps := [], extra := "")
    ensures ReadAs(LaterArgs(w), ps, toInt) && ApplyAll(d, ps) == DataOf(w)
  {
    hide ReadAs, ApplyAll, RulesArgs, SettingsArgs, InFront, Strip, Addressed, ProperHop, ProperSetting, SettingLines,
      StripNewlines, Join;
    var p5 := ReadRules(w.rules, d, toInt);
    var d5 := ApplyAll(d, p5);
    var p6 := ReadJumps(w, d5, toInt);
    var d6 := ApplyAll(d5, p6);
    var p7 := ReadSettings(w.settings, toInt);
    ApplySettings(d6, p7, w.settings);
    assert [] + w.rules == w.rules;
    ReadNothing(toInt);
    ApplyOne(DataOf(w), Piece([], Nothing));
    ps := Chain(
      RulesArgs(w.rules), p5, if w.jumps != [] then ["-J", Join(",", w.jumps)] else [], p6, SettingsArgs(w.settings),
      p7, [], [], toInt, d);
  }

  lemma WrittenParts(w: Wish, show: IntWriter)
    ensures Written(w, show) == FirstArgs(w, show) + LaterArgs(w)
  {
    hide DestinationArgs, KeyArgs, RulesArgs, SettingsArgs, Join;
  }

  /** What the written arguments are read as. */
  lemma ReadWritten(w: Wish, show: IntWriter, toInt: IntReader) returns (ps: seq<Piece>)
    requires Writable(w) && Inverse(show, toInt)
    ensures ReadAs(Written(w, show), ps, toInt) && ApplyAll(Empty(), ps) == DataOf(w)
  {
    hide ReadAs, ApplyAll, Writable, Inverse, FirstArgs, LaterArgs, DataOf, Written;
    var first := ReadFirst(w, show, toInt);
    var later := ReadLater(w, ApplyAll(Empty(), first), toInt);
    ReadBoth(FirstArgs(w, show), first, LaterArgs(w), later, toInt);
    ApplyAppend(Empty(), first, later);
    WrittenParts(w, show);
    ps := first + later;
  }

  /** Arguments that are all set aside once the host is known. */
  predicate SetAside(ps: seq<Piece>) {
    forall i :: 0 <= i < |ps| ==> ps[i].action.Unknown? || ps[i].action.Destination?
  }

  lemma {:induction false} AsideIsKept(d: Data, ps: seq<Piece>)
    requires d.host != "" && SetAside(ps) && Faithful(ps)
    ensures ApplyAll(d, ps) == d.(unparsed := d.unparsed + Tokens(ps))
    decreases |ps|
  {
    if ps == [] {
      assert d.unparsed + [] == d.unparsed;
    } else {
      assert ps[0].action.Unknown? || ps[0].action.Destination?;
      var e := Apply(d, ps[0]);
      assert e == d.(unparsed := d.unparsed + ps[0].tokens);
      assert forall i :: 0 <= i < |ps[1..]| ==> ps[1..][i] == ps[i + 1];
      hide Apply;
      AsideIsKept(e, ps[1..]);
      Regroup(d.unparsed, ps[0].tokens, Tokens(ps[1..]));
    }
  }

  /**
   * Every connection that arguments can say is read back from the arguments it is written as, field by
   * field; what follows them and is set aside comes back as it stands.
   */
  lemma WrittenReadsBack(w: Wish, show: IntWriter, toInt: IntReader, rest: seq<string>)
    requires Writable(w) && Inverse(show, toInt) && SetAside(Pieces(rest, toInt))
    ensures ApplyAll(Empty(), Pieces(Written(w, show) + rest, toInt)) == DataOf(w).(unparsed := rest)
  {
    hide ApplyAll, Inverse, Written, Pieces, Tokens, SetAside, Faithful, InFront, Strip, Addressed, ProperHop,
      ProperSetting, SettingLines, StripNewlines, Join;
    var ps := ReadWritten(w, show, toInt);
    ApplyAppend(Empty(), ps, Pieces(rest, toInt));
    PiecesAreFaithful(rest, toInt);
    EveryArgumentIsReadOnce(rest, toInt);
    AsideIsKept(DataOf(w), Pieces(rest, toInt));
    assert [] + rest == rest;
  }

  // ---------------------------------------------------------------- what was read can be written

  lemma StripTwice(s: string)
    ensures Strip(Strip(s)) == Strip(s)
  {
    if Strip(s) == "" {
      assert Strip("") == "";
    } else {
      hide Strip, IsSpace;
      var a, b := StripBounds(s);
      assert Strip(s)[0] == s[a] && Strip(s)[|Strip(s)| - 1] == s[b - 1];
      StripPlain(Strip(s));
    }
  }

  lemma {:induction false} HopsAreProper(s: string)
    ensures forall i :: 0 <= i < |Hops(s)| ==> ProperHop(Hops(s)[i])
    decreases |s|
  {
    hide ProperHop, Strip, IndexOf;
    var n := IndexOf(s, ',');
    var hop := Strip(s[..n]);
    if hop != "" {
      assert forall i :: 0 <= i < n ==> s[..n][i] == s[i];
      HopIsProper(s[..n]);
    }
    if n < |s| { HopsAreProper(s[n + 1..]); }
  }

  lemma HopIsProper(t: string)
    requires ',' !in t && Strip(t) != ""
    ensures ProperHop(Strip(t))
  {
    hide Strip, IsSpace;
    StripTwice(t);
    var a, b := StripBounds(t);
    assert forall c :: c in t[a..b] ==> c in t;
  }

  /** No field has an option name of this length. */
  lemma OtherName(key: string)
    requires |key| != 4 && |key| != 12 && |key| != 14
    ensures NameOf(key) == Other
  {
    hide NameOf, SshConfig.Lower;
    NameIs(key);
    assert |"user"| == 4 && |"port"| == 4 && |"identityfile"| == 12 && |"identitiesonly"| == 14
      && |"forwardagent"| == 12;
  }

  predicate PlainEnd(c: char) { 'a' <= c <= 'z' || '0' <= c <= '9' }

  lemma PlainIsNoSpace(c: char)
    requires PlainEnd(c)
    ensures !IsSpace(c)
  {
  }

  lemma PlainValue(v: string)
    requires v != "" && PlainEnd(v[0]) && PlainEnd(v[|v| - 1])
    ensures Strip(v) == v
  {
    PlainIsNoSpace(v[0]);
    PlainIsNoSpace(v[|v| - 1]);
    hide IsSpace, Strip;
    StripPlain(v);
  }

  lemma PlainValues()
    ensures Strip("yes") == "yes" && Strip("inet") == "inet" && Strip("inet6") == "inet6"
  {
    hide Strip;
    PlainValue("yes");
    PlainValue("inet");
    PlainValue("inet6");
  }

  lemma PlainSettings()
    ensures ProperSetting(("Compression", "yes")) && SettingLine(("Compression", "yes")) == "Compression yes"
    ensures ProperSetting(("AddressFamily", "inet")) && SettingLine(("AddressFamily", "inet")) == "AddressFamily inet"
    ensures ProperSetting(("AddressFamily", "inet6"))
    ensures SettingLine(("AddressFamily", "inet6")) == "AddressFamily inet6"
  {
    hide Strip, NameOf;
    PlainValues();
    OtherName("Compression");
    OtherName("AddressFamily");
  }

  /** What an argument can ask for, as it is stored. */
  ghost predicate Stored(a: Action) {
    match a
    case SetUser(user) => Strip(user) == user
    case Destination(token) => !("-" <= token)
    case AddRule(rule) => Addressed(rule)
    case SetJumps(jumps) => forall i :: 0 <= i < |jumps| ==> ProperHop(jumps[i])
    case AddLine(line) => exists s :: ProperSetting(s) && line == SettingLine(s)
    case _ => true
  }

  lemma OptionIsStored(key: string, raw: string, toInt: IntReader, a: Action)
    requires '=' !in key && OptionAsks(key, Strip(raw), toInt, a)
    ensures Stored(a)
  {
    StripTwice(raw);
    hide Strip, NameOf, IsTrue, IsFalse, Addressed, ProperHop;
    if a.AddLine? { assert ProperSetting((key, Strip(raw))) && a.line == SettingLine((key, Strip(raw))); }
  }

  lemma WordIsStored(rest: seq<string>, toInt: IntReader, a: Action)
    requires rest != [] && WordAsks(rest, toInt, a)
    ensures Stored(a)
  {
    match a
    case SetJumps(_) => JumpsAreStored(rest, toInt, a);
    case AddRule(_) => RuleIsStored(rest, toInt, a);
    case AddLine(_) => LineIsStored(rest, toInt, a);
    case Destination(_) =>
    case _ =>
  }

  lemma JumpsAreStored(rest: seq<string>, toInt: IntReader, a: Action)
    requires rest != [] && WordAsks(rest, toInt, a) && a.SetJumps?
    ensures Stored(a)
  {
    HopsAreProper(rest[1]);
    hide ProperHop, Hops;
  }

  lemma RuleIsStored(rest: seq<string>, toInt: IntReader, a: Action)
    requires rest != [] && WordAsks(rest, toInt, a) && a.AddRule?
    ensures Stored(a)
  {
    hide Addressed, ParseForward, ParseDynamic;
    var spec := rest[1];
    if ParseForward(spec, Local).Some? { ParsedRuleRoundTrip(spec, Forward(Local, "", 0, "", 0)); }
    if ParseForward(spec, Remote).Some? { ParsedRuleRoundTrip(spec, Forward(Remote, "", 0, "", 0)); }
    if ParseDynamic(spec).Some? { ParsedRuleRoundTrip(spec, Dynamic("", 0)); }
  }

  lemma LineIsStored(rest: seq<string>, toInt: IntReader, a: Action)
    requires rest != [] && WordAsks(rest, toInt, a) && a.AddLine?
    ensures Stored(a)
  {
    PlainSettings();
    hide ProperSetting, SettingLine;
  }

  lemma NextIsStored(rest: seq<string>, toInt: IntReader)
    requires rest != []
    ensures Stored(Next(rest, toInt).action)
  {
    hide Next, WordAsks, OptionAsks, Stored;
    var a := Next(rest, toInt).action;
    if a == Unknown {
      UnknownIsStored();
    } else {
      ArgumentMeans(rest, toInt, a);
      if exists key, raw :: GivesOption(rest, key, raw) {
        var key, raw :| GivesOption(rest, key, raw) && OptionAsks(key, Strip(raw), toInt, a);
        OptionIsStored(key, raw, toInt, a);
      } else {
        WordIsStored(rest, toInt, a);
      }
    }
  }

  lemma UnknownIsStored()
    ensures Stored(Unknown)
  {
  }

  ghost predicate AllStored(ps: seq<Piece>) { forall i :: 0 <= i < |ps| ==> Stored(ps[i].action) }

  lemma {:induction false} PiecesAreStored(args: seq<string>, toInt: IntReader)
    ensures AllStored(Pieces(args, toInt))
  {
    hide Next, Stored;
    if args != [] {
      NextIsStored(args, toInt);
      PiecesAreStored(args[|Next(args, toInt).tokens|..], toInt);
    }
  }

  /** What holds of every connection that is read. */
  ghost predicate Sound(d: Data) {
    && (InFront(d.username) || Strip(d.username) == d.username)
    && d.keyMode <= 2 && (d.keyMode == 0 ==> d.keyfile == "") && (!d.portExplicit ==> d.port == 22)
    && (forall i :: 0 <= i < |d.rules| ==> Addressed(d.rules[i]))
    && (forall i :: 0 <= i < |d.jumps| ==> ProperHop(d.jumps[i]))
  }

  lemma FrontOfToken(token: string)
    requires !("-" <= token)
    ensures InFront(token[..IndexOf(token, '@')])
  {
    var n := IndexOf(token, '@');
    assert n > 0 ==> token[..n][0] == token[0];
  }

  lemma UserIsSound(d: Data, p: Piece)
    requires (InFront(d.username) || Strip(d.username) == d.username) && Stored(p.action)
    ensures var user := Apply(d, p).username; InFront(user) || Strip(user) == user
  {
    hide InFront, Strip, Apply, Addressed, ProperHop, ProperSetting, IndexOf, SettingLine;
    NameStep(d, p);
    if p.action.Destination? { FrontOfToken(p.action.token); }
  }

  lemma KeyIsSound(d: Data, p: Piece)
    requires Sound(d)
    ensures var e := Apply(d, p);
      e.keyMode <= 2 && (e.keyMode == 0 ==> e.keyfile == "") && (!e.portExplicit ==> e.port == 22)
  {
    hide InFront, Strip, Apply, Addressed, ProperHop;
    KeyStep(d, p);
    FlagStep(d, p);
    RulesStep(d, p);
  }

  lemma ListsAreSound(d: Data, p: Piece)
    requires Sound(d) && Stored(p.action)
    ensures var e := Apply(d, p);
      && (forall i :: 0 <= i < |e.rules| ==> Addressed(e.rules[i]))
      && (forall i :: 0 <= i < |e.jumps| ==> ProperHop(e.jumps[i]))
  {
    hide InFront, Strip, Apply, Addressed, ProperHop, ProperSetting, SettingLine;
    FlagStep(d, p);
    RulesStep(d, p);
  }

  lemma StepIsSound(d: Data, p: Piece)
    requires Sound(d) && Stored(p.action)
    ensures Sound(Apply(d, p))
  {
    hide InFront, Strip, Addressed, ProperHop, Stored, Apply;
    UserIsSound(d, p);
    KeyIsSound(d, p);
    ListsAreSound(d, p);
  }

  lemma {:induction false} RunIsSound(d: Data, ps: seq<Piece>)
    requires Sound(d) && AllStored(ps)
    ensures Sound(ApplyAll(d, ps))
    decreases |ps|
  {
    hide Sound, Stored, Apply;
    if ps != [] {
      StepIsSound(d, ps[0]);
      assert forall i :: 0 <= i < |ps[1..]| ==> ps[1..][i] == ps[i + 1];
      RunIsSound(Apply(d, ps[0]), ps[1..]);
    }
  }

  lemma EmptyIsSound()
    ensures Sound(Empty())
  {
  }

  /** The settings behind the extra lines. */
  lemma {:induction false} SettingsBehind(ps: seq<Piece>) returns (ss: seq<(string, string)>)
    requires AllStored(ps)
    ensures SettingLines(ss) == Lines(ps) && forall i :: 0 <= i < |ss| ==> ProperSetting(ss[i])
    decreases |ps|
  {
    hide ProperSetting, SettingLine;
    ss := [];
    if ps != [] {
      assert Stored(ps[0].action);
      assert forall i :: 0 <= i < |ps[1..]| ==> ps[1..][i] == ps[i + 1];
      var more := SettingsBehind(ps[1..]);
      if ps[0].action.AddLine? {
        var s :| ProperSetting(s) && ps[0].action.line == SettingLine(s);
        ss := [s] + more;
        assert ss[1..] == more;
      } else {
        ss := more;
        assert [] + Lines(ps[1..]) == Lines(ps[1..]);
      }
    }
  }

  /** Every connection that is read is one that arguments can say. */
  lemma ReadIsWritable(args: seq<string>, toInt: IntReader) returns (w: Wish)
    requires ApplyAll(Empty(), Pieces(args, toInt)).host != ""
    ensures Writable(w) && DataOf(w) == ApplyAll(Empty(), Pieces(args, toInt)).(unparsed := [])
  {
    EmptyIsSound();
    hide Pieces, ApplyAll, Tokens, LeftOver, FirstHost, Rules, LastPort, Subsequence, Lines, LastUser, LastKey,
      LastMode, LastAgent, LastJumps, AsksX11, AsksPort, Join, InFront, Strip, Addressed, ProperHop, ProperSetting,
      SettingLines, StripNewlines, AllStored;
    var ps := Pieces(args, toInt);
    var d := ApplyAll(Empty(), ps);
    ArgumentsAreAccountedFor(args, toInt);
    PiecesAreStored(args, toInt);
    RunIsSound(Empty(), ps);
    var ss := SettingsBehind(ps);
    w := Wish(d.username, d.host, if d.portExplicit then Some(d.port) else None, d.keyfile, d.keyMode, d.x11, d.agent,
              d.rules, d.jumps, ss);
  }

  /**
   * Reading any arguments that name a host, writing the connection out and reading that gives the same
   * connection, apart from the arguments that were set aside.
   */
  lemma ReadWriteRead(args: seq<string>, show: IntWriter, toInt: IntReader)
    requires Inverse(show, toInt)
    ensures var d := ApplyAll(Empty(), Pieces(args, toInt));
      d.host != "" ==> exists w ::
        Writable(w) && DataOf(w) == d.(unparsed := [])
        && ApplyAll(Empty(), Pieces(Written(w, show), toInt)) == d.(unparsed := [])
  {
    hide ApplyAll, Inverse, Written, Writable, DataOf, ReadAs;
    if ApplyAll(Empty(), Pieces(args, toInt)).host != "" {
      var w := ReadIsWritable(args, toInt);
      var ps := ReadWritten(w, show, toInt);
      ReadWhole(Written(w, show), ps, toInt);
    }
  }

  lemma ReadWhole(args: seq<string>, ps: seq<Piece>, toInt: IntReader)
    requires ReadAs(args, ps, toInt)
    ensures Pieces(args, toInt) == ps
  {
    assert args + [] == args && ps + Pieces([], toInt) == ps;
    hide Pieces;
  }
}
