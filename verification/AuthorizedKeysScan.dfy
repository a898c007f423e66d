/** Option text with any names: when the line scanner stops at its end, and what trimming it costs. */
module AuthorizedKeysScan {
  import opened Text
  import opened AuthorizedKeys
  import opened AuthorizedKeysTokens

  // ---------------------------------------------------------------- where the scanner stops

  /** The scanner goes on from `j` to the end of the option text, outside quotes there, and meets no key type. */
  predicate Crosses(o: string, j: nat, inQuote: bool)
    requires j <= |o|
    decreases |o| - j
  {
    if j == |o| then !inQuote
    else if o[j] == '\\' && inQuote && j + 1 < |o| then Crosses(o, j + 2, inQuote)
    else if o[j] == '"' then Crosses(o, j + 1, !inQuote)
    else if o[j] == ' ' && !inQuote then
      var k := SkipSpaces(o, j);
      var m := k + IndexOf(o[k..], ' ');
      k < |o| && !IsKeytype(o[k..m]) && Crosses(o, m, inQuote)
    else Crosses(o, j + 1, inQuote)
  }

  lemma {:induction false} CrossesPlain(o: string, j: nat, k: nat)
    requires j <= k <= |o| && forall i :: j <= i < k ==> o[i] != '"' && o[i] != ' '
    ensures Crosses(o, j, false) == Crosses(o, k, false)
    decreases k - j
  {
    hide IsKeytype, SkipSpaces, IndexOf;
    if j < k { CrossesPlain(o, j + 1, k); }
  }

  predicate Unmarked(s: string) {
    forall i :: 0 <= i < |s| ==> s[i] != '"' && s[i] != ' '
  }

  /** Two words without quotes: the second decides. */
  lemma CrossesTwoWords(a: string, b: string)
    requires Unmarked(a) && Unmarked(b) && b != ""
    ensures Crosses(a + " " + b, 0, false) <==> !IsKeytype(b)
  {
    hide IsKeytype, SkipSpaces, IndexOf;
    var o, k := a + " " + b, |a| + 1;
    assert forall i :: 0 <= i < |a| ==> o[i] == a[i];
    assert forall i :: k <= i < |o| ==> o[i] == b[i - k];
    CrossesPlain(o, 0, |a|);
    CrossesPlain(o, |o|, |o|);
    SkipSpacesIs(o, |a|, k);
    assert o[k..] == b && o[k..|o|] == b;
    IndexOfIs(b, ' ', |b|);
  }

  /** The fields were cut out of `s` at a run of spaces that ends at `k`, and at the next two spaces. */
  ghost predicate ScanEnd(s: string, f: Fields, k: nat) {
    && |f.options| < k <= |s| && f.options == s[..|f.options|]
    && (forall i :: |f.options| <= i < k ==> s[i] == ' ')
    && IndexOf(s[k..], ' ') < |s[k..]| && IsKeytype(f.keytype) && f.keytype == Head(s[k..])
    && f.key == Head(Tail(s[k..])) && f.comment == Tail(Tail(s[k..]))
  }

  lemma FieldsAtFacts(s: string, j: nat, k: nat)
    requires j < k <= |s| && (forall i :: j <= i < k ==> s[i] == ' ') && IsKeytype(s[k..k + IndexOf(s[k..], ' ')])
    ensures var r := FieldsAt(s, j, k); r.Some? ==> |r.value.options| == j && ScanEnd(s, r.value, k)
  {
    hide IsKeytype, Tail;
    assert s[k..k + IndexOf(s[k..], ' ')] == Head(s[k..]);
  }

  lemma {:induction false} ScanFacts(s: string, j: nat, inQuote: bool) returns (k: nat)
    requires j <= |s|
    ensures var r := ScanForKeytype(s, j, inQuote);
            r.Some? ==> j <= |r.value.options| && ScanEnd(s, r.value, k)
    decreases |s| - j
  {
    hide IsKeytype, FieldsAt, ScanEnd, ScanForKeytype;
    k := 0;
    if j == |s| {
      ScanEnds(s, inQuote);
    } else {
      ScanUnfold(s, j, inQuote);
      if s[j] == '\\' && inQuote && j + 1 < |s| {
        k := ScanFacts(s, j + 2, inQuote);
      } else if s[j] == '"' {
        k := ScanFacts(s, j + 1, !inQuote);
      } else if s[j] == ' ' && !inQuote {
        k := SkipSpaces(s, j);
        var m := k + IndexOf(s[k..], ' ');
        if IsKeytype(s[k..m]) {
          FieldsAtFacts(s, j, k);
        } else {
          k := ScanFacts(s, m, inQuote);
        }
      } else {
        k := ScanFacts(s, j + 1, inQuote);
      }
    }
  }

  lemma {:induction false} SkipSpacesIs(s: string, j: nat, k: nat)
    requires j <= k <= |s| && (forall i :: j <= i < k ==> s[i] == ' ') && (k < |s| ==> s[k] != ' ')
    ensures SkipSpaces(s, j) == k
    decreases k - j
  {
    if j < k { SkipSpacesIs(s, j + 1, k); }
  }

  lemma {:induction false} SkipSpacesStops(s: string, j: nat)
    requires j <= |s|
    ensures var k := SkipSpaces(s, j); k < |s| ==> s[k] != ' '
    decreases |s| - j
  {
    if j < |s| && s[j] == ' ' { SkipSpacesStops(s, j + 1); }
  }

  /** A word of the option text ends where it did, whatever follows after a space. */
  lemma SameWord(o: string, p: string, j: nat, k: nat)
    requires j < |o| && o[j] == ' ' && SkipSpaces(o, j) == k < |o|
    ensures var s, m := o + " " + p, k + IndexOf(o[k..], ' ');
            SkipSpaces(s, j) == k && m == k + IndexOf(s[k..], ' ') && m <= |o| && s[k..m] == o[k..m]
  {
    hide SkipSpaces, IndexOf;
    var s, n := o + " " + p, IndexOf(o[k..], ' ');
    SkipSpacesStops(o, j);
    assert forall i :: j <= i < k ==> s[i] == o[i];
    assert s[k] == o[k];
    SkipSpacesIs(s, j, k);
    assert forall i :: 0 <= i < n ==> s[k..][i] == o[k..][i];
    assert s[k..][n] == ' ';
    IndexOfIs(s[k..], ' ', n);
    assert s[k..k + n] == o[k..k + n];
  }

  /**
   * In a line that goes on with a space and a word, the scanner stands at the end of the option text,
   * outside quotes, if it crosses it, and otherwise does not take it for the option text.
   */
  lemma {:induction false} ScanOptions(o: string, p: string, j: nat, inQuote: bool)
    requires j <= |o| && p != "" && p[0] != ' '
    ensures var r := ScanForKeytype(o + " " + p, j, inQuote);
            if Crosses(o, j, inQuote) then r == ScanForKeytype(o + " " + p, |o|, false)
            else r.Some? ==> |r.value.options| != |o|
    decreases |o| - j
  {
    hide IsKeytype, FieldsAt, SkipSpaces, IndexOf, ScanForKeytype, ScanEnd;
    var s := o + " " + p;
    ScanUnfold(s, j, inQuote);
    if j == |o| {
      if inQuote { var k := ScanFacts(s, j + 1, true); }
    } else {
      assert s[j] == o[j];
      if o[j] == '\\' && inQuote {
        if j + 1 < |o| {
          ScanOptions(o, p, j + 2, inQuote);
        } else {
          var k := ScanFacts(s, j + 2, true);
          assert !Crosses(o, |o|, true);
        }
      } else if o[j] == '"' {
        ScanOptions(o, p, j + 1, !inQuote);
      } else if o[j] == ' ' && !inQuote {
        var k := SkipSpaces(o, j);
        if k < |o| {
          SameWord(o, p, j, k);
          var m := k + IndexOf(o[k..], ' ');
          if IsKeytype(o[k..m]) { FieldsAtFacts(s, j, k); } else { ScanOptions(o, p, m, inQuote); }
        } else {
          SpacesAtEnd(o, p, j);
        }
      } else {
        ScanOptions(o, p, j + 1, inQuote);
      }
    }
  }

  lemma SpacesAtEnd(o: string, p: string, j: nat)
    requires j < |o| && o[j] == ' ' && SkipSpaces(o, j) == |o| && p != "" && p[0] != ' '
    ensures var r := ScanForKeytype(o + " " + p, j, false); r.Some? ==> |r.value.options| != |o|
  {
    hide IsKeytype, FieldsAt, SkipSpaces, IndexOf, ScanForKeytype, ScanEnd;
    var s, k := o + " " + p, |o| + 1;
    assert forall i :: j <= i < |o| ==> s[i] == o[i];
    assert s[k] == p[0];
    SkipSpacesIs(s, j, k);
    ScanUnfold(s, j, false);
    var m := k + IndexOf(s[k..], ' ');
    if IsKeytype(s[k..m]) { FieldsAtFacts(s, j, k); } else { var e := ScanFacts(s, m, false); }
  }

  // ---------------------------------------------------------------- trimmed option text

  /** The length of all stored unknown options together. */
  function Weight(us: seq<string>): nat {
    if us == [] then 0 else |us[0]| + Weight(us[1..])
  }

  lemma UnknownCons(t: KeyOption, ts: seq<KeyOption>)
    ensures Weight(UnknownOptions([t] + ts))
      == (if IsKnown(t.name) then 0 else |SerializeOption(t)|) + Weight(UnknownOptions(ts))
  {
    hide SerializeOption, IsKnown;
    assert ([t] + ts)[1..] == ts;
    var piece := SerializeOption(t);
    var first := if !IsKnown(t.name) && piece != "" then [piece] else [];
    assert UnknownOptions([t] + ts) == first + UnknownOptions(ts);
    if first == [] {
      assert first + UnknownOptions(ts) == UnknownOptions(ts);
    } else {
      assert (first + UnknownOptions(ts))[1..] == UnknownOptions(ts);
    }
  }

  lemma SpacedIsUnknown(n: string, i: nat)
    requires i < |n|
    ensures IsSpace(n[i]) ==> !IsKnown(n)
  {
    hide IsKnown, IsSpace;
    if IsKnown(n) {
      KnownNamesPlain(n);
      assert PlainChar(n[i]);
    }
  }

  /** Without the blanks at its end, an option list is still one, with less unknown text. */
  lemma {:induction false} TrimLast(ts: seq<KeyOption>, b: nat) returns (r: seq<KeyOption>)
    requires LiveTokens(ts) && ts != [] && b <= |Join(",", Pieces(ts))|
    requires var o := Join(",", Pieces(ts)); forall i :: |o| - b <= i < |o| ==> o[i] == ' '
    ensures LiveTokens(r) && r != []
    ensures var o := Join(",", Pieces(ts)); Join(",", Pieces(r)) == o[..|o| - b]
    ensures b + Weight(UnknownOptions(r)) <= Weight(UnknownOptions(ts))
    decreases |ts|
  {
    hide LiveToken, SerializeOption, Join, IsKnown, UnknownOptions;
    var o := Join(",", Pieces(ts));
    var more := FirstPiece(ts);
    assert [ts[0]] + ts[1..] == ts;
    if |ts| == 1 {
      assert o == SerializeOption(ts[0]);
      var t := TrimFlag(ts[0], b);
      r := [t];
      var none := FirstPiece(r);
      assert [t] + [] == [t];
      UnknownCons(ts[0], []);
      UnknownCons(t, []);
    } else {
      var p, rest := SerializeOption(ts[0]), Join(",", Pieces(ts[1..]));
      BlanksAtEnd(p, rest, b);
      var tail := TrimLast(ts[1..], b);
      r := [ts[0]] + tail;
      assert r[1..] == tail;
      JoinPiecesStep(r);
      UnknownCons(ts[0], ts[1..]);
      UnknownCons(ts[0], tail);
    }
  }

  lemma BlanksAtEnd(p: string, rest: string, b: nat)
    requires b <= |p + ("," + rest)|
    requires var o := p + ("," + rest); forall i :: |o| - b <= i < |o| ==> o[i] == ' '
    ensures b <= |rest| && forall i :: |rest| - b <= i < |rest| ==> rest[i] == ' '
    ensures var o := p + ("," + rest); o[..|o| - b] == p + ("," + rest[..|rest| - b])
  {
    var o := p + ("," + rest);
    assert o[|p|] == ',';
    assert b <= |rest|;
    forall i | |rest| - b <= i < |rest| ensures rest[i] == ' ' { assert rest[i] == o[|p| + 1 + i]; }
  }

  /** A printed option that ends in blanks is a flag, and what is left of it is one too. */
  lemma TrimFlag(t: KeyOption, b: nat) returns (r: KeyOption)
    requires LiveToken(t) && b <= |SerializeOption(t)|
    requires var p := SerializeOption(t); forall i :: |p| - b <= i < |p| ==> p[i] == ' '
    ensures LiveToken(r) && SerializeOption(r) == SerializeOption(t)[..|SerializeOption(t)| - b]
    ensures b > 0 ==> !IsKnown(t.name)
    ensures b == 0 ==> r == t
  {
    hide IsKnown, Escape;
    r := t;
    var p := SerializeOption(t);
    PieceShape(t);
    if b > 0 {
      assert p[|p| - 1] == ' ';
      assert t.value.Flag? && p == t.name;
      SpaceIsSpace();
      SpacedIsUnknown(t.name, |p| - 1);
      assert b < |p|;
      r := t.(name := p[..|p| - b]);
      assert forall i :: 0 <= i < |r.name| ==> r.name[i] == t.name[i] && NameChar(t.name[i]);
    }
  }

  /** What the tokenizer makes of the text after a name. */
  function ValueAfter(tail: string): OptionValue {
    if tail != "" && tail[0] == '=' then Str(ReadValue(tail[1..]).0) else Flag(true)
  }

  /** How much of that text belongs to the first option, separators after it included. */
  function EndAfter(tail: string): (n: nat)
    ensures n <= |tail|
  {
    var v := if tail != "" && tail[0] == '=' then 1 + ReadValue(tail[1..]).1 else 0;
    v + SeparatorLength(tail[v..])
  }

  lemma ReadFirst(n: string, tail: string)
    requires NameChars(n) && n + tail != "" && (tail != "" ==> tail[0] == ',' || tail[0] == '=')
    ensures ReadOption(n + tail) == (KeyOption(n, ValueAfter(tail)), |n| + EndAfter(tail))
  {
    hide NameChars, ReadValue, SeparatorLength, ReadOption;
    if tail != "" && tail[0] == '=' {
      var value := tail[1..];
      assert tail == "=" + value;
      ReadNamed(n, value);
      assert tail[1 + ReadValue(value).1..] == value[ReadValue(value).1..];
    } else {
      ReadFlag(n, tail);
      assert tail[0..] == tail;
    }
  }

  /** The name of the first option is cut off; all that follows is read the same. */
  lemma TokenizeNamed(n: string, tail: string)
    requires NameChars(n) && n + tail != "" && (tail != "" ==> tail[0] == ',' || tail[0] == '=')
    ensures TokenizeOptions(n + tail) == [KeyOption(n, ValueAfter(tail))] + TokenizeOptions(tail[EndAfter(tail)..])
  {
    hide NameChars, ReadOption, ValueAfter, EndAfter;
    ReadFirst(n, tail);
    assert (n + tail)[|n| + EndAfter(tail)..] == tail[EndAfter(tail)..];
  }

  /** A printed option list as its first name and the rest. */
  lemma FirstName(ts: seq<KeyOption>) returns (tail: string)
    requires LiveTokens(ts) && ts != []
    ensures Join(",", Pieces(ts)) == ts[0].name + tail && NameChars(ts[0].name)
    ensures tail != "" ==> tail[0] == ',' || tail[0] == '='
  {
    hide SerializeOption, Join, Escape, NameChars;
    var more := FirstPiece(ts);
    PieceShape(ts[0]);
    if ts[0].value.Flag? {
      tail := more;
    } else {
      tail := "=\"" + Escape(ts[0].value.text) + "\"" + more;
    }
  }

  lemma ShorterName(n: string, a: nat, v: OptionValue)
    requires a <= |n| && v != Flag(false)
    ensures |SerializeOption(KeyOption(n[a..], v))| + a == |SerializeOption(KeyOption(n, v))|
  {
  }

  /** Without whitespace in front, an option list reads with less unknown text. */
  lemma TrimFirst(ts: seq<KeyOption>, a: nat)
    requires LiveTokens(ts) && ts != [] && a < |Join(",", Pieces(ts))|
    requires var o := Join(",", Pieces(ts)); forall i :: 0 <= i < a ==> IsSpace(o[i])
    ensures a + Weight(UnknownOptions(TokenizeOptions(Join(",", Pieces(ts))[a..]))) <= Weight(UnknownOptions(ts))
  {
    hide SerializeOption, Join, IsKnown, UnknownOptions, LiveTokens, NameChars, TokenizeOptions, ValueAfter, EndAfter;
    var o := Join(",", Pieces(ts));
    var tail := FirstName(ts);
    var n := ts[0].name;
    assert !IsSpace(',') && !IsSpace('=');
    assert |n| < |o| ==> o[|n|] == tail[0];
    assert a <= |n|;
    hide IsSpace;
    TokenizePrinted(ts);
    TokenizeNamed(n, tail);
    assert NameChars(n[a..]) by { NamePart(n, a); }
    assert o[a..] == n[a..] + tail;
    TokenizeNamed(n[a..], tail);
    var v := ValueAfter(tail);
    assert ts[0] == KeyOption(n, v) && v != Flag(false) by { ValueIsSet(tail); }
    ShorterName(n, a, v);
    var rest := TokenizeOptions(tail[EndAfter(tail)..]);
    UnknownCons(KeyOption(n, v), rest);
    UnknownCons(KeyOption(n[a..], v), rest);
    if a > 0 {
      assert o[0] == n[0];
      SpacedIsUnknown(n, 0);
    } else {
      assert n[0..] == n;
    }
  }

  lemma NamePart(n: string, a: nat)
    requires NameChars(n) && a <= |n|
    ensures NameChars(n[a..])
  {
    assert forall i :: 0 <= i < |n| - a ==> n[a..][i] == n[a + i];
  }

  lemma ValueIsSet(tail: string)
    ensures ValueAfter(tail) != Flag(false)
  {
  }

  /** Option text that was trimmed at either end does not read as the same unknown options. */
  lemma TrimmedDiffers(ts: seq<KeyOption>, a: nat, b: nat)
    requires LiveTokens(ts) && ts != [] && a + b < |Join(",", Pieces(ts))| && a + b > 0
    requires var o := Join(",", Pieces(ts));
             (forall i :: 0 <= i < a ==> IsSpace(o[i])) && forall i :: |o| - b <= i < |o| ==> o[i] == ' '
    ensures var o := Join(",", Pieces(ts)); UnknownOptions(TokenizeOptions(o[a..|o| - b])) != UnknownOptions(ts)
  {
    hide Join, IsSpace, LiveTokens, UnknownOptions, TokenizeOptions;
    var o := Join(",", Pieces(ts));
    var r := TrimLast(ts, b);
    var q := Join(",", Pieces(r));
    assert forall i :: 0 <= i < a ==> q[i] == o[i];
    TrimFirst(r, a);
    assert q[a..] == o[a..|o| - b];
  }
}
