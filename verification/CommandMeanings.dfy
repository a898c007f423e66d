/** What each argument asks for, told by the arguments as they are typed. */
module CommandMeanings {
  import opened Text
  import opened ForwardSpec
  import opened CommandConverter
  import opened CommandAccounting
  import SshConfig

  /** The argument is `-o` and an option `key=raw`, in one word or in two. */
  ghost predicate GivesOption(rest: seq<string>, key: string, raw: string)
    requires rest != []
  {
    && '=' !in key
    && (rest[0] == "-o" + (key + "=" + raw) || (Takes(rest, "-o") && rest[1] == key + "=" + raw))
  }

  /** The argument is `name`, and there is a next one to be its value. */
  predicate Takes(rest: seq<string>, name: string)
    requires rest != []
  {
    |rest| > 1 && rest[0] == name
  }

  /** The option names that have a field of their own. */
  const FIELD_OPTIONS := ["user", "port", "identityfile", "identitiesonly", "forwardagent"]

  /** What the option with this key and value asks for. */
  ghost predicate OptionAsks(key: string, value: string, toInt: IntReader, a: Action) {
    var name := NameOf(key);
    match a
    case SetUser(user) => name == User && user == value
    case SetPort(port) => name == Port && toInt(value) == Some(port)
    case SetKey(path) => name == IdentityFile && path == value
    case Identities(only) => name == IdentitiesOnly && (if only then IsTrue(value) else IsFalse(value))
    case SetAgent(on) => name == ForwardAgent && on == IsTrue(value)
    case AddLine(line) => name == Other && line == key + " " + value
    case Nothing =>
      || (name == Port && toInt(value).None?)
      || (name == IdentitiesOnly && !IsTrue(value) && !IsFalse(value))
    case _ => false
  }

  /** What a word asks for without the next one. */
  predicate AloneAsks(arg: string, toInt: IntReader, a: Action) {
    match a
    case SetPort(port) => "-p" <= arg && toInt(arg[2..]) == Some(port)
    case SetKey(path) => path != "" && arg == "-i" + path
    case SetX11 => arg == "-X"
    case SetAgent(on) => arg == "-A" && on
    case AddLine(line) =>
      || (arg == "-C" && line == "Compression yes")
      || (arg == "-4" && line == "AddressFamily inet")
      || (arg == "-6" && line == "AddressFamily inet6")
    case Destination(token) => token == arg && !("-" <= arg)
    case _ => false
  }

  /** What an argument that gives no option asks for, with the next one if it is its value. */
  ghost predicate WordAsks(rest: seq<string>, toInt: IntReader, a: Action)
    requires rest != []
  {
    match a
    case SetPort(port) =>
      if Takes(rest, "-p") && toInt(rest[1]).Some? then toInt(rest[1]) == Some(port) else AloneAsks(rest[0], toInt, a)
    case SetKey(path) => if Takes(rest, "-i") then path == rest[1] else AloneAsks(rest[0], toInt, a)
    case SetJumps(jumps) => Takes(rest, "-J") && jumps == Hops(rest[1])
    case AddRule(rule) =>
      || (Takes(rest, "-L") && ParseForward(rest[1], Local) == Some(rule))
      || (Takes(rest, "-R") && ParseForward(rest[1], Remote) == Some(rule))
      || (Takes(rest, "-D") && ParseDynamic(rest[1]) == Some(rule))
    case Nothing =>
      || Takes(rest, "-o")
      || (Takes(rest, "-L") && ParseForward(rest[1], Local).None?)
      || (Takes(rest, "-R") && ParseForward(rest[1], Remote).None?)
      || (Takes(rest, "-D") && ParseDynamic(rest[1]).None?)
    case _ => AloneAsks(rest[0], toInt, a)
  }

  /** The argument asks for the action. */
  ghost predicate Asks(rest: seq<string>, toInt: IntReader, a: Action)
    requires rest != []
  {
    if exists key, raw :: GivesOption(rest, key, raw)
      then exists key, raw :: GivesOption(rest, key, raw) && OptionAsks(key, Strip(raw), toInt, a)
      else WordAsks(rest, toInt, a)
  }

  // ---------------------------------------------------------------- options

  lemma EqualsAt(option: string, key: string, raw: string)
    requires '=' !in key && option == key + "=" + raw
    ensures HasEquals(option) && IndexOf(option, '=') == |key| && option[..|key|] == key && option[|key| + 1..] == raw
  {
    assert forall i :: 0 <= i < |key| ==> option[i] == key[i] && key[i] in key;
    IndexOfIs(option, '=', |key|);
  }

  lemma EqualsSplit(option: string) returns (key: string, raw: string)
    requires HasEquals(option)
    ensures '=' !in key && option == key + "=" + raw
  {
    var n := IndexOf(option, '=');
    key, raw := option[..n], option[n + 1..];
    assert forall i :: 0 <= i < n ==> key[i] == option[i];
  }

  /** The names are told in lower case. */
  lemma NameIs(key: string)
    ensures var k, n := SshConfig.Lower(key), NameOf(key);
      && (n == User <==> k == "user") && (n == Port <==> k == "port") && (n == IdentityFile <==> k == "identityfile")
      && (n == IdentitiesOnly <==> k == "identitiesonly") && (n == ForwardAgent <==> k == "forwardagent")
      && (n == Other <==> k !in FIELD_OPTIONS)
  {
    hide SshConfig.Lower;
    assert "user" != "port" && |"user"| == 4 && |"port"| == 4 && |"identityfile"| == 12 && |"identitiesonly"| == 14
      && |"forwardagent"| == 12 && "forwardagent"[0] == 'f' && "identityfile"[0] == 'i' by {
      assert "user"[0] == 'u' && "port"[0] == 'p';
    }
  }

  lemma OptionIs(key: string, raw: string, toInt: IntReader, a: Action)
    requires '=' !in key
    ensures var option := key + "=" + raw;
      HasEquals(option) && (OptionAction(option, toInt) == a <==> OptionAsks(key, Strip(raw), toInt, a))
  {
    EqualsAt(key + "=" + raw, key, raw);
    hide NamedAction, OptionAsks, Strip, IndexOf, HasEquals;
    NamedIs(key, Strip(raw), toInt, a);
  }

  lemma NamedIs(key: string, value: string, toInt: IntReader, a: Action)
    ensures NamedAction(key, value, toInt) == a <==> OptionAsks(key, value, toInt, a)
  {
    TrueIsNotFalse(value);
    hide NameOf, IsTrue, IsFalse;
  }

  lemma TrueIsNotFalse(v: string)
    ensures !(IsTrue(v) && IsFalse(v))
  {
    hide SshConfig.Lower;
    assert |"yes"| == 3 && |"true"| == 4 && |"no"| == 2 && |"false"| == 5 && |"off"| == 3 && |"on"| == 2;
    assert "yes"[0] == 'y' && "off"[0] == 'o' && "no"[0] == 'n' && "on"[0] == 'o' && "1"[0] == '1' && "0"[0] == '0';
  }

  lemma OneOption(rest: seq<string>, k: string, r: string, l: string, s: string)
    requires rest != [] && GivesOption(rest, k, r) && GivesOption(rest, l, s)
    ensures k == l && r == s
  {
    var a, b := k + "=" + r, l + "=" + s;
    EqualsAt(a, k, r);
    EqualsAt(b, l, s);
    if rest[0] == "-o" + a { assert rest[0][2..] == a; }
    if rest[0] == "-o" + b { assert rest[0][2..] == b; }
    assert "-o"[2..] == "";
  }

  lemma NextOption(rest: seq<string>, key: string, raw: string, toInt: IntReader)
    requires rest != [] && GivesOption(rest, key, raw)
    ensures var option := key + "=" + raw;
      '=' !in key && HasEquals(option) && Next(rest, toInt).action == OptionAction(option, toInt)
  {
    var option, arg := key + "=" + raw, rest[0];
    EqualsAt(option, key, raw);
    hide OptionAction, HasEquals, Next;
    if arg == "-o" + option {
      assert arg[0] == '-' && arg[1] == 'o' && arg[2..] == option && |arg| > 2;
      NextAlone(rest, toInt);
    } else {
      NextWithValue(rest, toInt);
    }
  }

  // ---------------------------------------------------------------- other words

  lemma LetterIs(arg: string, c: char)
    ensures Is(arg, c) <==> arg == ['-', c]
    ensures Begins(arg, c) ==> arg == ['-', c] + arg[2..]
    ensures forall v :: arg == ['-', c] + v ==> Begins(arg, c) && arg[2..] == v
    ensures IsFlag(arg) <==> "-" <= arg
  {
  }

  lemma NoOption(rest: seq<string>)
    requires rest != [] && !exists key, raw :: GivesOption(rest, key, raw)
    ensures Begins(rest[0], 'o') ==> !HasEquals(rest[0][2..])
    ensures |rest| > 1 && Is(rest[0], 'o') ==> !HasEquals(rest[1])
  {
    var arg := rest[0];
    if Begins(arg, 'o') && HasEquals(arg[2..]) {
      var key, raw := EqualsSplit(arg[2..]);
      assert arg == "-o" + (key + "=" + raw);
      assert GivesOption(rest, key, raw);
    }
    if |rest| > 1 && Is(arg, 'o') && HasEquals(rest[1]) {
      var key, raw := EqualsSplit(rest[1]);
      assert arg == "-o";
      assert GivesOption(rest, key, raw);
    }
  }

  /** The letter of an option with a value asks for nothing else, but for a port. */
  lemma LetterAsksNothing(arg: string, v: string, toInt: IntReader, a: Action)
    requires |arg| == 2 && WithValue(arg[1], v, toInt).Some? && IsFlag(arg)
    ensures AloneAsks(arg, toInt, a) ==> a.SetPort? && arg[1] == 'p'
  {
    hide HasEquals, OptionAction, ParseForward, ParseDynamic, Hops;
    assert |"-i"| == 2 && "-i"[1] == 'i';
  }

  /** The options that take the next argument. */
  lemma ValuedWord(rest: seq<string>, toInt: IntReader, a: Action)
    requires rest != [] && HasValue(rest, toInt)
    requires rest[0][1] == 'o' ==> !HasEquals(rest[1])
    ensures Next(rest, toInt).action == a <==> WordAsks(rest, toInt, a)
  {
    hide Next, HasEquals, OptionAction, ParseForward, ParseDynamic, Hops, AloneAsks, Takes;
    NextWithValue(rest, toInt);
    TakesLetter(rest);
    LetterAsksNothing(rest[0], rest[1], toInt, a);
  }

  lemma TakesLetter(rest: seq<string>)
    requires |rest| > 1 && |rest[0]| == 2 && rest[0][0] == '-'
    ensures var c := rest[0][1];
      && (Takes(rest, "-p") <==> c == 'p') && (Takes(rest, "-i") <==> c == 'i') && (Takes(rest, "-o") <==> c == 'o')
      && (Takes(rest, "-J") <==> c == 'J') && (Takes(rest, "-L") <==> c == 'L') && (Takes(rest, "-R") <==> c == 'R')
      && (Takes(rest, "-D") <==> c == 'D')
  {
    assert rest[0] == ['-', rest[0][1]];
  }

  lemma NoValue(rest: seq<string>, toInt: IntReader)
    requires rest != [] && !HasValue(rest, toInt)
    ensures !Takes(rest, "-i") && !Takes(rest, "-o") && !Takes(rest, "-J") && !Takes(rest, "-L") && !Takes(rest, "-R")
      && !Takes(rest, "-D") && (Takes(rest, "-p") ==> toInt(rest[1]).None?)
  {
    hide OptionAction, HasEquals, ParseForward, ParseDynamic, Hops;
  }

  lemma AloneIs(arg: string, toInt: IntReader, a: Action)
    requires Begins(arg, 'o') ==> !HasEquals(arg[2..])
    ensures Alone(arg, toInt) == Some(a) <==> AloneAsks(arg, toInt, a)
  {
    hide HasEquals, OptionAction;
    if IsFlag(arg) && |arg| > 1 {
      assert arg == ['-', arg[1]] + arg[2..];
      LetterIs(arg, arg[1]);
    } else {
      assert |"-"| == 1 && |"-p"| == 2 && |"-i"| == 2;
    }
  }

  /** The words that stand alone. */
  lemma SingleWord(rest: seq<string>, toInt: IntReader, a: Action)
    requires rest != [] && !HasValue(rest, toInt)
    requires Begins(rest[0], 'o') ==> !HasEquals(rest[0][2..])
    ensures Next(rest, toInt).action == a && a != Unknown ==> WordAsks(rest, toInt, a)
    ensures WordAsks(rest, toInt, a) ==> Next(rest, toInt).action == a
  {
    var arg := rest[0];
    NoValue(rest, toInt);
    AloneIs(arg, toInt, a);
    if Alone(arg, toInt).Some? { NextAlone(rest, toInt); } else { NextUnknown(rest, toInt); }
    hide Next, Alone, Hops, ParseForward, ParseDynamic, HasValue, Takes, UnknownLength, HasEquals, Begins;
  }

  /** Every argument asks for exactly what the command line reads it as. */
  lemma ArgumentMeans(rest: seq<string>, toInt: IntReader, a: Action)
    requires rest != [] && a != Unknown
    ensures Next(rest, toInt).action == a <==> Asks(rest, toInt, a)
  {
    hide Next, OptionAction, OptionAsks, WordAsks, HasEquals, WithValue, GivesOption, Strip;
    if exists key, raw :: GivesOption(rest, key, raw) {
      var key, raw :| GivesOption(rest, key, raw);
      NextOption(rest, key, raw, toInt);
      OptionIs(key, raw, toInt, a);
      forall k, r | GivesOption(rest, k, r) ensures k == key && r == raw { OneOption(rest, k, r, key, raw); }
    } else {
      NoOption(rest);
      if HasValue(rest, toInt) {
        assert rest[0][1] == 'o' ==> Is(rest[0], 'o');
        ValuedWord(rest, toInt, a);
      } else {
        SingleWord(rest, toInt, a);
      }
    }
  }

  // ---------------------------------------------------------------- how many arguments are read

  /** The options whose value is the next argument unless that looks like an option itself. */
  const SET_ASIDE_WITH_VALUE := [
    "-b", "-B", "-c", "-D", "-E", "-e", "-F", "-I", "-J", "-L", "-l", "-m", "-O", "-o", "-p", "-Q", "-R", "-S", "-W",
    "-w"]

  lemma LettersAre(arg: string)
    ensures TakesValue(arg) <==> arg in SET_ASIDE_WITH_VALUE
  {
    if TakesValue(arg) { assert arg == ['-', arg[1]]; }
  }

  lemma UnknownTakes(rest: seq<string>)
    requires rest != [] && IsFlag(rest[0])
    ensures UnknownLength(rest) == 2 <==>
      |rest| > 1 && rest[0] in SET_ASIDE_WITH_VALUE && !("-" <= rest[1])
  {
    LettersAre(rest[0]);
    LettersAre(SplitUnknown(rest[0]).0);
    if |rest| > 1 { LetterIs(rest[1], 'p'); }
    hide TakesValue;
    var arg := rest[0];
    if rest[0] in SET_ASIDE_WITH_VALUE { assert |arg| == 2 && arg[1] != '-'; }
  }

  /** Two arguments are read together exactly when the first is an option that the second is the value of. */
  lemma LengthIs(rest: seq<string>, toInt: IntReader)
    requires rest != [] && toInt("").None?
    ensures |Next(rest, toInt).tokens| == 1 || |Next(rest, toInt).tokens| == 2
    ensures |Next(rest, toInt).tokens| == 2 <==>
      || Takes(rest, "-i") || Takes(rest, "-o") || Takes(rest, "-J")
      || Takes(rest, "-L") || Takes(rest, "-R") || Takes(rest, "-D")
      || (Takes(rest, "-p") && toInt(rest[1]).Some?)
      || (|rest| > 1 && rest[0] in SET_ASIDE_WITH_VALUE && !("-" <= rest[1]))
  {
    var arg := rest[0];
    if HasValue(rest, toInt) {
      NextWithValue(rest, toInt);
      assert arg == ['-', arg[1]];
      hide Next, OptionAction, HasEquals, ParseForward, ParseDynamic, Hops;
    } else if Alone(arg, toInt).Some? {
      NextAlone(rest, toInt);
      NoValue(rest, toInt);
      LettersAre(arg);
      if TakesValue(arg) { AloneIsNotAside(arg, toInt); }
    } else {
      NextUnknown(rest, toInt);
      NoValue(rest, toInt);
      UnknownTakes(rest);
    }
  }

  lemma AloneIsNotAside(arg: string, toInt: IntReader)
    requires TakesValue(arg) && toInt("").None?
    ensures Alone(arg, toInt).None?
  {
    hide OptionAction;
    assert arg[2..] == "";
  }
}
