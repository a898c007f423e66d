/** The `-L`, `-R` and `-D` specifications: `[bind:]port:host:port`, with bracketed addresses. */
module ForwardSpec {
  import opened Text

  // ---------------------------------------------------------------- numerals

  predicate IsPort(s: string) { s != "" && forall i :: 0 <= i < |s| ==> IsDigit(s[i]) }

  function Value(s: string): nat
    requires forall i :: 0 <= i < |s| ==> IsDigit(s[i])
  {
    if s == "" then 0
    else
      assert IsDigit(s[|s| - 1]);
      10 * Value(s[..|s| - 1]) + (s[|s| - 1] as int - '0' as int)
  }

  function Decimal(n: nat): (r: string)
    ensures IsPort(r)
  {
    var digit := [('0' as int + n % 10) as char];
    if n < 10 then digit else Decimal(n / 10) + digit
  }

  lemma {:induction false} DecimalValue(n: nat)
    ensures Value(Decimal(n)) == n
  {
    var digit := [('0' as int + n % 10) as char];
    assert digit[..0] == "" && Value(digit) == n % 10;
    if n >= 10 {
      DecimalValue(n / 10);
      assert Decimal(n)[..|Decimal(n)| - 1] == Decimal(n / 10);
    }
  }

  // ---------------------------------------------------------------- the grammar

  predicate IsPlain(c: char) { c != '[' && c != ']' && c != ':' }

  /** A bracketed literal, or a non-empty run without brackets and colons. */
  predicate IsAddr(a: string) {
    || (|a| >= 2 && a[0] == '[' && a[|a| - 1] == ']' && forall i :: 0 <= i < |a| - 1 ==> a[i] != ']')
    || (a != "" && forall i :: 0 <= i < |a| ==> IsPlain(a[i]))
  }

  datatype Groups = Groups(bind: Option<string>, listen: string, host: string, port: string)

  /** The text a group assignment spells. */
  function Spelled(g: Groups): string {
    (if g.bind.Some? then g.bind.value + ":" else "") + (g.listen + ":" + (g.host + ":" + g.port))
  }

  predicate WellFormed(g: Groups) {
    (g.bind.Some? ==> IsAddr(g.bind.value)) && IsPort(g.listen) && IsAddr(g.host) && IsPort(g.port)
  }

  // ---------------------------------------------------------------- the scanner

  function Run(s: string, p: char -> bool): (n: nat)
    ensures n <= |s| && (forall i :: 0 <= i < n ==> p(s[i])) && (n < |s| ==> !p(s[n]))
  {
    if s != "" && p(s[0]) then 1 + Run(s[1..], p) else 0
  }

  /** How much of `s` an address can take: up to the bracket, or up to the next special character. */
  function AddrLength(s: string): (n: nat)
    ensures n <= |s|
  {
    if s != "" && s[0] == '[' then
      var n := IndexOf(s, ']');
      if n < |s| then n + 1 else 0
    else Run(s, IsPlain)
  }

  function ScanAddr(s: string): Option<(string, string)> {
    var n := AddrLength(s);
    if 0 < n < |s| && s[n] == ':' then Some((s[..n], s[n + 1..])) else None
  }

  function ScanPort(s: string): Option<(string, string)> {
    var n := Run(s, IsDigit);
    if 0 < n < |s| && s[n] == ':' then Some((s[..n], s[n + 1..])) else None
  }

  function ScanTarget(s: string): Option<Groups> {
    match ScanPort(s)
    case None => None
    case Some((listen, rest)) =>
      match ScanAddr(rest)
      case None => None
      case Some((host, port)) => if IsPort(port) then Some(Groups(None, listen, host, port)) else None
  }

  /** The bind address is tried first, then left out. */
  function ScanForward(s: string): Option<Groups> {
    match ScanAddr(s)
    case Some((bind, rest)) =>
      var target := ScanTarget(rest);
      if target.Some? then Some(target.value.(bind := Some(bind))) else ScanTarget(s)
    case None => ScanTarget(s)
  }

  lemma {:induction false} RunIs(s: string, p: char -> bool, n: nat)
    requires n < |s| && !p(s[n]) && forall i :: 0 <= i < n ==> p(s[i])
    ensures Run(s, p) == n
    decreases n
  {
    if n > 0 { RunIs(s[1..], p, n - 1); }
  }

  lemma AddrLengthIs(a: string, rest: string)
    requires IsAddr(a)
    ensures AddrLength(a + ":" + rest) == |a|
  {
    var s := a + ":" + rest;
    if a[0] == '[' {
      assert s[|a| - 1] == ']';
      IndexOfIs(s, ']', |a| - 1);
    } else {
      assert s[0] == a[0];
      assert s[|a|] == ':';
      RunIs(s, IsPlain, |a|);
    }
  }

  /** The scanner finds an address exactly when the text splits that way, and then in one way only. */
  lemma ScanAddrIs(s: string, a: string, rest: string)
    ensures ScanAddr(s) == Some((a, rest)) <==> IsAddr(a) && s == a + ":" + rest
  {
    if IsAddr(a) && s == a + ":" + rest {
      AddrLengthIs(a, rest);
      assert s[..|a|] == a && s[|a| + 1..] == rest;
    }
    if ScanAddr(s) == Some((a, rest)) {
      assert s == a + ":" + rest;
    }
  }

  lemma ScanPortIs(s: string, p: string, rest: string)
    ensures ScanPort(s) == Some((p, rest)) <==> IsPort(p) && s == p + ":" + rest
  {
    if IsPort(p) && s == p + ":" + rest {
      assert s[|p|] == ':';
      RunIs(s, IsDigit, |p|);
      assert s[..|p|] == p && s[|p| + 1..] == rest;
    }
    if ScanPort(s) == Some((p, rest)) {
      assert s == p + ":" + rest;
    }
  }

  lemma ScanTargetIs(s: string, g: Groups)
    requires g.bind.None?
    ensures ScanTarget(s) == Some(g) <==> WellFormed(g) && s == Spelled(g)
  {
    hide ScanPort, ScanAddr, IsAddr, IsPort;
    var tail := g.host + ":" + g.port;
    ScanPortIs(s, g.listen, tail);
    ScanAddrIs(tail, g.host, g.port);
    assert Spelled(g) == g.listen + ":" + tail;
    if ScanTarget(s) == Some(g) {
      var (listen, rest) := ScanPort(s).value;
      ScanPortIs(s, listen, rest);
      ScanAddrIs(rest, g.host, g.port);
    }
  }

  lemma PortHasNoAddr(p: string)
    requires IsPort(p)
    ensures ScanAddr(p) == None
  {
    assert forall i :: 0 <= i < |p| ==> IsDigit(p[i]) ==> p[i] != ':';
  }

  /** A target does not begin with a bind address. */
  lemma TargetHasNoBind(s: string, bind: string, rest: string)
    requires ScanTarget(s).Some? && ScanAddr(s) == Some((bind, rest))
    ensures ScanTarget(rest) == None
  {
    hide ScanPort, ScanAddr, IsAddr;
    var (listen, tail) := ScanPort(s).value;
    var (host, port) := ScanAddr(tail).value;
    ScanPortIs(s, listen, tail);
    PortIsAddr(listen);
    ScanAddrIs(s, listen, tail);
    assert rest == tail;
    PortHasNoAddr(port);
    if ScanTarget(rest).Some? {
      var (second, after) := ScanPort(rest).value;
      ScanPortIs(rest, second, after);
      PortIsAddr(second);
      ScanAddrIs(rest, second, after);
    }
  }

  lemma PortIsAddr(p: string)
    requires IsPort(p)
    ensures IsAddr(p)
  {
    forall i | 0 <= i < |p| ensures IsPlain(p[i]) { assert IsDigit(p[i]); }
  }

  /** The scanner and the grammar agree on every text, and no text has two readings. */
  lemma ScanForwardIs(s: string, g: Groups)
    ensures ScanForward(s) == Some(g) <==> WellFormed(g) && s == Spelled(g)
  {
    hide ScanTarget, ScanAddr, IsAddr, IsPort;
    var bare := g.(bind := None);
    if g.bind.Some? {
      var rest := Spelled(bare);
      assert Spelled(g) == g.bind.value + ":" + rest;
      ScanAddrIs(s, g.bind.value, rest);
      ScanTargetIs(rest, bare);
      if ScanForward(s) == Some(g) {
        TargetIsBare(s);
        var (bind, after) := ScanAddr(s).value;
        ScanTargetIs(after, bare);
        TargetIsBare(after);
      }
    } else {
      assert bare == g;
      ScanTargetIs(s, g);
      if ScanAddr(s).Some? && ScanTarget(s).Some? {
        var (bind, after) := ScanAddr(s).value;
        TargetHasNoBind(s, bind, after);
      }
    }
  }

  lemma TargetIsBare(s: string)
    ensures ScanTarget(s).Some? ==> ScanTarget(s).value.bind == None
  {
  }

  // ---------------------------------------------------------------- rules

  datatype Direction = Local | Remote

  datatype Rule =
    | Forward(direction: Direction, listenAddr: string, listenPort: nat, host: string, port: nat)
    | Dynamic(listenAddr: string, listenPort: nat)

  /** The pattern's end also matches just before one closing newline. */
  function WithoutNewline(s: string): string {
    if s != "" && s[|s| - 1] == '\n' then s[..|s| - 1] else s
  }

  function RuleOf(g: Groups, direction: Direction): Rule
    requires WellFormed(g)
  {
    Forward(direction, if g.bind.Some? then g.bind.value else "localhost", Value(g.listen), g.host, Value(g.port))
  }

  function ParseForward(spec: string, direction: Direction): Option<Rule> {
    match ScanForward(WithoutNewline(spec))
    case None => None
    case Some(g) => ScanForwardIs(WithoutNewline(spec), g); Some(RuleOf(g, direction))
  }

  function ParseDynamic(spec: string): Option<Rule> {
    var s := WithoutNewline(spec);
    match ScanAddr(s)
    case Some((bind, port)) => if IsPort(port) then Some(Dynamic(bind, Value(port))) else None
    case None => if IsPort(s) then Some(Dynamic("localhost", Value(s))) else None
  }

  /** A rule written as the specification that asks for it. */
  function Printed(r: Rule): string {
    match r
    case Forward(_, addr, listen, host, port) => addr + ":" + (Decimal(listen) + ":" + (host + ":" + Decimal(port)))
    case Dynamic(addr, port) => addr + ":" + Decimal(port)
  }

  function Parse(spec: string, like: Rule): Option<Rule> {
    if like.Dynamic? then ParseDynamic(spec) else ParseForward(spec, like.direction)
  }

  predicate Addressed(r: Rule) { IsAddr(r.listenAddr) && (r.Forward? ==> IsAddr(r.host)) }

  lemma LocalhostIsAddr()
    ensures IsAddr("localhost")
  {
    var a := "localhost";
    assert forall i :: 0 <= i < |a| ==> IsPlain(a[i]);
  }

  lemma EndsInPort(a: string, p: string)
    requires IsPort(p)
    ensures WithoutNewline(a + p) == a + p
  {
    assert (a + p)[|a + p| - 1] == p[|p| - 1] && IsDigit(p[|p| - 1]);
  }

  lemma PrintedForward(r: Rule)
    requires r.Forward?
    ensures ParseForward(Printed(r), r.direction) == Some(r) <==> Addressed(r)
  {
    hide ScanForward, IsAddr, IsPort, Decimal, Value;
    var g := Groups(Some(r.listenAddr), Decimal(r.listenPort), r.host, Decimal(r.port));
    DecimalValue(r.listenPort);
    DecimalValue(r.port);
    var front := r.listenAddr + ":" + (g.listen + ":" + (r.host + ":"));
    EndsInPort(front, g.port);
    assert Printed(r) == Spelled(g) == front + g.port;
    ScanForwardIs(Printed(r), g);
    if ParseForward(Printed(r), r.direction) == Some(r) {
      var h := ScanForward(Printed(r)).value;
      ScanForwardIs(Printed(r), h);
      LocalhostIsAddr();
    }
  }

  lemma PrintedDynamic(r: Rule)
    requires r.Dynamic?
    ensures ParseDynamic(Printed(r)) == Some(r) <==> Addressed(r)
  {
    hide ScanAddr, IsAddr, IsPort, Decimal, Value;
    DecimalValue(r.listenPort);
    EndsInPort(r.listenAddr + ":", Decimal(r.listenPort));
    ScanAddrIs(Printed(r), r.listenAddr, Decimal(r.listenPort));
    if ParseDynamic(Printed(r)) == Some(r) {
      LocalhostIsAddr();
      if ScanAddr(Printed(r)).Some? {
        var (bind, port) := ScanAddr(Printed(r)).value;
        ScanAddrIs(Printed(r), bind, port);
      }
    }
  }

  /** Printing a rule and reading it back gives the rule exactly when its addresses can be written down. */
  lemma RuleRoundTrip(r: Rule)
    ensures Parse(Printed(r), r) == Some(r) <==> Addressed(r)
  {
    if r.Forward? { PrintedForward(r); } else { PrintedDynamic(r); }
  }

  /** Every rule the parser returns survives printing: bracketed addresses, defaults and leading zeros included. */
  lemma ParsedRuleRoundTrip(spec: string, like: Rule)
    requires Parse(spec, like).Some?
    ensures var r := Parse(spec, like).value; Addressed(r) && Parse(Printed(r), r) == Some(r)
  {
    hide ScanForward, ScanAddr, IsAddr, IsPort, Value, Printed;
    var r := Parse(spec, like).value;
    LocalhostIsAddr();
    if like.Forward? {
      var g := ScanForward(WithoutNewline(spec)).value;
      ScanForwardIs(WithoutNewline(spec), g);
    } else if ScanAddr(WithoutNewline(spec)).Some? {
      var (bind, port) := ScanAddr(WithoutNewline(spec)).value;
      ScanAddrIs(WithoutNewline(spec), bind, port);
    }
    RuleRoundTrip(r);
  }

  // ---------------------------------------------------------------- what a specification says

  /** The text assigns these groups, and the rule is what they say; without a bind address it listens locally. */
  predicate SaysForward(text: string, g: Groups, direction: Direction, r: Rule) {
    && WellFormed(g) && text == Spelled(g)
    && r == Forward(direction, match g.bind case Some(a) => a case None => "localhost", Value(g.listen), g.host,
                    Value(g.port))
  }

  predicate SaysDynamic(text: string, addr: string, port: string, r: Rule) {
    IsAddr(addr) && IsPort(port) && text == addr + ":" + port && r == Dynamic(addr, Value(port))
  }

  predicate SaysPort(port: string, r: Rule) { IsPort(port) && r == Dynamic("localhost", Value(port)) }

  /** A text, or the text with one newline after it. */
  predicate Ended(spec: string, text: string) { spec == text || spec == text + "\n" }

  lemma EndedIs(spec: string, front: string, port: string)
    requires IsPort(port)
    ensures Ended(spec, front + port) <==> WithoutNewline(spec) == front + port
  {
    hide IsPort;
    EndsInPort(front, port);
    assert (front + port)[|front + port| - 1] != '\n' by { LastIsDigit(front, port); }
    if WithoutNewline(spec) == front + port && spec != front + port {
      assert spec == spec[..|spec| - 1] + [spec[|spec| - 1]];
    }
  }

  lemma LastIsDigit(front: string, port: string)
    requires IsPort(port)
    ensures front + port != "" && IsDigit((front + port)[|front + port| - 1])
  {
    assert (front + port)[|front + port| - 1] == port[|port| - 1];
  }

  /** A rule is read exactly from the texts that say it. */
  lemma ParseForwardIs(spec: string, direction: Direction, r: Rule)
    ensures ParseForward(spec, direction) == Some(r)
      <==> exists text, g :: Ended(spec, text) && SaysForward(text, g, direction, r)
  {
    hide ScanForward, IsAddr, IsPort, Value, WithoutNewline, Ended;
    if ParseForward(spec, direction) == Some(r) {
      var s := WithoutNewline(spec);
      var g := ScanForward(s).value;
      ScanForwardIs(s, g);
      SpelledEnds(g);
      EndedIs(spec, s[..|s| - |g.port|], g.port);
      assert s == s[..|s| - |g.port|] + g.port;
      assert SaysForward(s, g, direction, r);
    }
    if exists text, g :: Ended(spec, text) && SaysForward(text, g, direction, r) {
      var text, g :| Ended(spec, text) && SaysForward(text, g, direction, r);
      SpelledEnds(g);
      EndedIs(spec, text[..|text| - |g.port|], g.port);
      assert text == text[..|text| - |g.port|] + g.port;
      ScanForwardIs(text, g);
    }
  }

  lemma SpelledEnds(g: Groups)
    ensures |g.port| <= |Spelled(g)| && Spelled(g)[|Spelled(g)| - |g.port|..] == g.port
  {
    var front := (if g.bind.Some? then g.bind.value + ":" else "") + (g.listen + ":" + (g.host + ":"));
    assert Spelled(g) == front + g.port;
  }

  lemma ParseDynamicIs(spec: string, r: Rule)
    ensures ParseDynamic(spec) == Some(r) <==>
      || (exists addr, port :: Ended(spec, addr + ":" + port) && SaysDynamic(addr + ":" + port, addr, port, r))
      || (exists port :: Ended(spec, port) && SaysPort(port, r))
  {
    hide ScanAddr, IsAddr, IsPort, Value, WithoutNewline, Ended;
    var s := WithoutNewline(spec);
    if ParseDynamic(spec) == Some(r) {
      match ScanAddr(s)
      case Some((addr, port)) =>
        ScanAddrIs(s, addr, port);
        EndedIs(spec, addr + ":", port);
        assert SaysDynamic(addr + ":" + port, addr, port, r);
      case None =>
        EndedIs(spec, "", s);
        assert "" + s == s;
        assert SaysPort(s, r);
    }
    if exists addr, port :: Ended(spec, addr + ":" + port) && SaysDynamic(addr + ":" + port, addr, port, r) {
      var addr, port :| Ended(spec, addr + ":" + port) && SaysDynamic(addr + ":" + port, addr, port, r);
      EndedIs(spec, addr + ":", port);
      ScanAddrIs(s, addr, port);
    }
    if exists port :: Ended(spec, port) && SaysPort(port, r) {
      var port :| Ended(spec, port) && SaysPort(port, r);
      EndedIs(spec, "", port);
      assert "" + port == port;
      PortHasNoAddr(port);
    }
  }
}
