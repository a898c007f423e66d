/** The two scanners of the reader agree with the printer on quoting and escaping. */
module AuthorizedKeysTokens {
  import opened Text
  import opened AuthorizedKeys

  // ---------------------------------------------------------------- escaping

  function Escape(v: string): string {
    if v == "" then ""
    else EscapeChar(v[0]) + Escape(v[1..])
  }

  lemma {:induction false} ReplaceCharAppend(a: string, b: string, c: char, r: string)
    ensures ReplaceChar(a + b, c, r) == ReplaceChar(a, c, r) + ReplaceChar(b, c, r)
  {
    if a == "" {
      assert a + b == b;
    } else {
      ReplaceCharAppend(a[1..], b, c, r);
      assert (a + b)[0] == a[0] && (a + b)[1..] == a[1..] + b;
      var first := if a[0] == c then r else [a[0]];
      assert first + (ReplaceChar(a[1..], c, r) + ReplaceChar(b, c, r))
          == (first + ReplaceChar(a[1..], c, r)) + ReplaceChar(b, c, r);
    }
  }

  /** The two replacement passes escape each backslash and quote exactly once. */
  lemma {:induction false} TwoPassesEscape(v: string)
    ensures ReplaceChar(ReplaceChar(v, '\\', "\\\\"), '"', "\\\"") == Escape(v)
  {
    if v != "" {
      var first := if v[0] == '\\' then "\\\\" else [v[0]];
      TwoPassesEscape(v[1..]);
      ReplaceCharAppend(first, ReplaceChar(v[1..], '\\', "\\\\"), '"', "\\\"");
      assert ReplaceChar("", '"', "\\\"") == "";
      if v[0] == '\\' {
        assert "\\\\"[1..] == "\\" && "\\"[1..] == "";
        assert ReplaceChar("\\", '"', "\\\"") == "\\";
      } else {
        assert [v[0]][1..] == "";
      }
    }
  }

  /** The tokenizer's unescaping inverts the printer's escaping. */
  lemma {:induction false} UnquoteEscape(v: string, rest: string)
    ensures Unquote(Escape(v) + "\"" + rest) == (v, |Escape(v)|)
  {
    var s := Escape(v) + "\"" + rest;
    if v == "" {
      assert s[0] == '"';
    } else {
      UnquoteEscape(v[1..], rest);
      var c, tail := EscapeChar(v[0]), Escape(v[1..]) + "\"" + rest;
      assert s == c + tail;
      UnquoteStep(v[0], tail);
      assert [v[0]] + v[1..] == v;
    }
  }

  lemma {:induction false} UnquoteStep(c: char, tail: string)
    ensures Unquote(EscapeChar(c) + tail) == ([c] + Unquote(tail).0, |EscapeChar(c)| + Unquote(tail).1)
  {
    var s := EscapeChar(c) + tail;
    assert s[|EscapeChar(c)|..] == tail && s[0] == EscapeChar(c)[0];
  }

  function EscapeChar(c: char): string {
    if c == '\\' then "\\\\" else if c == '"' then "\\\"" else [c]
  }

  lemma AtFits(s: string, j: nat, p: string)
    requires At(s, j, p)
    ensures j + |p| <= |s|
  {
  }

  /** The line scanner's quote tracking passes over an escaped value without leaving the quotes. */
  lemma {:induction false} ScanEscaped(s: string, j: nat, v: string)
    requires At(s, j, Escape(v)) && j + |Escape(v)| < |s|
    ensures ScanForKeytype(s, j, true) == ScanForKeytype(s, j + |Escape(v)|, true)
    decreases |v|
  {
    hide IsKeytype, FieldsAt, SkipSpaces, At, ScanForKeytype;
    if v != "" {
      var c := EscapeChar(v[0]);
      AtAppend(s, j, c, Escape(v[1..]));
      AtChar(s, j, c, 0);
      AtFits(s, j, c);
      ScanUnfold(s, j, true);
      ScanEscaped(s, j + |c|, v[1..]);
    }
  }

  // ---------------------------------------------------------------- option lists

  predicate NameChar(c: char) { c != ',' && c != '=' }

  /** A character that is no separator between options. */
  predicate Solid(c: char) { c != ',' && c != ' ' && c != '\t' }

  predicate NameChars(n: string) {
    forall i :: 0 <= i < |n| ==> NameChar(n[i])
  }

  /** A name as the tokenizer reads it: no comma or equals sign, and no separator in front. */
  predicate OptionName(n: string) {
    NameChars(n) && (n != "" ==> Solid(n[0]))
  }

  /** A token the printer emits. */
  predicate LiveToken(t: KeyOption) {
    OptionName(t.name) && SerializeOption(t) != ""
  }

  predicate LiveTokens(ts: seq<KeyOption>) {
    forall i :: 0 <= i < |ts| ==> LiveToken(ts[i])
  }

  function Pieces(ts: seq<KeyOption>): (r: seq<string>)
    ensures |r| == |ts|
    ensures forall i :: 0 <= i < |ts| ==> r[i] == SerializeOption(ts[i])
  {
    if ts == [] then [] else [SerializeOption(ts[0])] + Pieces(ts[1..])
  }

  lemma PieceShape(t: KeyOption)
    requires LiveToken(t)
    ensures t.value.Flag? ==> SerializeOption(t) == t.name
    ensures t.value.Str? ==> SerializeOption(t) == t.name + "=\"" + Escape(t.value.text) + "\""
    ensures SerializeOption(t) != "" && Solid(SerializeOption(t)[0]) && t.value != Flag(false)
    ensures t.name != "" ==> SerializeOption(t)[0] == t.name[0]
  {
    if t.value.Str? { TwoPassesEscape(t.value.text); }
  }

  lemma NameLengthIs(s: string, n: nat)
    requires n <= |s|
    requires forall i :: 0 <= i < n ==> s[i] != ',' && s[i] != '='
    requires n < |s| ==> s[n] == ',' || s[n] == '='
    ensures NameLength(s) == n
  {
  }

  /** Reading the text of one option, whatever comes after its separator. */
  lemma ReadFlag(name: string, rest: string)
    requires NameChars(name) && name + rest != "" && (rest != "" ==> rest[0] == ',')
    ensures ReadOption(name + rest) == (KeyOption(name, Flag(true)), |name| + SeparatorLength(rest))
  {
    hide NameChar, Solid, NameLength, SeparatorLength, ReadValue;
    var s := name + rest;
    NameOf(name, rest);
    assert s[..|name|] == name && s[|name|..] == rest;
  }

  lemma ReadNamed(name: string, value: string)
    requires NameChars(name)
    ensures ReadOption(name + ("=" + value)) ==
            (KeyOption(name, Str(ReadValue(value).0)),
             |name| + 1 + ReadValue(value).1 + SeparatorLength(value[ReadValue(value).1..]))
  {
    hide NameChar, Solid, ReadValue, SeparatorLength;
    var s := name + ("=" + value);
    NameOf(name, "=" + value);
    assert s[..|name|] == name && s[|name| + 1..] == value;
    var n := ReadValue(value).1;
    assert s[|name| + 1 + n..] == value[n..];
  }

  lemma ReadQuoted(name: string, v: string, rest: string)
    requires NameChars(name)
    ensures ReadOption(name + "=\"" + Escape(v) + "\"" + rest) ==
            (KeyOption(name, Str(v)), |name| + |Escape(v)| + 3 + SeparatorLength(rest))
  {
    hide *;
    var value := "\"" + (Escape(v) + "\"" + rest);
    assert name + "=\"" + Escape(v) + "\"" + rest == name + ("=" + value);
    ReadNamed(name, value);
    ReadQuotedValue(v, rest);
    assert value[|Escape(v)| + 2..] == rest;
  }

  lemma NameOf(name: string, rest: string)
    requires NameChars(name) && (rest != "" ==> rest[0] == ',' || rest[0] == '=')
    ensures NameLength(name + rest) == |name|
  {
    var s := name + rest;
    assert forall i :: 0 <= i < |name| ==> NameChar(name[i]) && s[i] == name[i];
    NameLengthIs(s, |name|);
  }

  lemma ReadQuotedValue(v: string, rest: string)
    ensures ReadValue("\"" + (Escape(v) + "\"" + rest)) == (v, |Escape(v)| + 2)
  {
    hide Unquote;
    var value := "\"" + (Escape(v) + "\"" + rest);
    assert value[1..] == Escape(v) + "\"" + rest;
    UnquoteEscape(v, rest);
    assert value[1 + |Escape(v)|] == '"';
  }

  lemma ReadPiece(t: KeyOption, rest: string)
    requires LiveToken(t)
    requires rest != "" ==> rest[0] == ',' && |rest| > 1 && Solid(rest[1])
    ensures ReadOption(SerializeOption(t) + rest) ==
            (t, |SerializeOption(t)| + (if rest == "" then 0 else 1))
  {
    hide NameChars, Solid, SerializeOption, ReadOption, NameLength;
    PieceShape(t);
    SeparatorsOf(rest);
    if t.value.Str? {
      ReadQuoted(t.name, t.value.text, rest);
    } else {
      ReadFlag(t.name, rest);
    }
  }

  lemma SeparatorsOf(rest: string)
    requires rest != "" ==> rest[0] == ',' && |rest| > 1 && Solid(rest[1])
    ensures SeparatorLength(rest) == if rest == "" then 0 else 1
  {
    if rest != "" {
      assert rest[1..][0] == rest[1];
      assert SeparatorLength(rest[1..]) == 0;
    }
  }

  lemma JoinPiecesStep(ts: seq<KeyOption>)
    requires |ts| > 1
    ensures Join(",", Pieces(ts)) == SerializeOption(ts[0]) + ("," + Join(",", Pieces(ts[1..])))
  {
    assert Pieces(ts)[1..] == Pieces(ts[1..]);
  }

  lemma JoinPiecesHead(ts: seq<KeyOption>)
    requires ts != [] && LiveTokens(ts)
    ensures Join(",", Pieces(ts)) != "" && Solid(Join(",", Pieces(ts))[0])
  {
    hide SerializeOption, OptionName, Solid;
    PieceShape(ts[0]);
    if |ts| > 1 { JoinPiecesStep(ts); }
  }

  /** Tokenizing a printed option list gives back the options. */
  lemma {:induction false} TokenizePrinted(ts: seq<KeyOption>)
    requires LiveTokens(ts)
    ensures TokenizeOptions(Join(",", Pieces(ts))) == ts
  {
    hide LiveToken, SerializeOption, ReadOption, Solid;
    if ts != [] {
      var s := Join(",", Pieces(ts));
      var piece := SerializeOption(ts[0]);
      JoinPiecesHead(ts);
      TokenizePrinted(ts[1..]);
      if |ts| == 1 {
        assert s == piece + "";
        ReadPiece(ts[0], "");
        assert s[|piece|..] == Join(",", Pieces(ts[1..]));
      } else {
        var rest := Join(",", Pieces(ts[1..]));
        JoinPiecesStep(ts);
        JoinPiecesHead(ts[1..]);
        ReadPiece(ts[0], "," + rest);
        assert s[|piece| + 1..] == rest;
      }
      assert [ts[0]] + ts[1..] == ts;
    }
  }

  // ---------------------------------------------------------------- option lists with plain names

  predicate PlainChar(c: char) {
    c != ',' && c != '=' && c != '"' && c != '#' && c != ' ' && c != '\t' && !IsSpace(c)
  }

  predicate PlainName(n: string) {
    n != "" && forall i :: 0 <= i < |n| ==> PlainChar(n[i])
  }

  predicate PlainToken(t: KeyOption) { PlainName(t.name) && t.value != Flag(false) }

  predicate PlainTokens(ts: seq<KeyOption>) {
    forall i :: 0 <= i < |ts| ==> PlainToken(ts[i])
  }

  lemma PlainIsOptionName(n: string)
    requires PlainName(n)
    ensures OptionName(n)
  {
    assert forall i :: 0 <= i < |n| ==> PlainChar(n[i]);
  }

  lemma PlainIsLive(t: KeyOption)
    requires PlainToken(t)
    ensures LiveToken(t)
  {
    hide PlainChar, OptionName;
    PlainIsOptionName(t.name);
  }

  lemma {:induction false} ScanPlain(s: string, j: nat, k: nat)
    requires j <= k <= |s|
    requires forall i :: j <= i < k ==> s[i] != '"' && s[i] != ' '
    ensures ScanForKeytype(s, j, false) == ScanForKeytype(s, k, false)
    decreases k - j
  {
    hide IsKeytype, FieldsAt, SkipSpaces;
    if j < k { ScanPlain(s, j + 1, k); }
  }

  lemma ScanName(s: string, j: nat, name: string)
    requires PlainName(name) && At(s, j, name)
    ensures ScanForKeytype(s, j, false) == ScanForKeytype(s, j + |name|, false)
  {
    assert j + |name| <= |s|;
    hide IsSpace, ScanForKeytype, At;
    forall i | j <= i < j + |name| ensures s[i] != '"' && s[i] != ' ' {
      AtChar(s, j, name, i - j);
      assert PlainChar(name[i - j]);
    }
    ScanPlain(s, j, j + |name|);
  }

  lemma ScanQuoted(s: string, j: nat, v: string)
    requires At(s, j, "=\"" + Escape(v) + "\"")
    ensures ScanForKeytype(s, j, false) == ScanForKeytype(s, j + 3 + |Escape(v)|, false)
  {
    hide IsKeytype, FieldsAt, SkipSpaces, At;
    AtAppend(s, j, "=\"" + Escape(v), "\"");
    AtAppend(s, j, "=\"", Escape(v));
    AtChar(s, j, "=\"", 0);
    AtChar(s, j, "=\"", 1);
    AtChar(s, j + 2 + |Escape(v)|, "\"", 0);
    ScanEscaped(s, j + 2, v);
  }

  lemma ScanPiece(s: string, j: nat, t: KeyOption)
    requires PlainToken(t) && At(s, j, SerializeOption(t))
    ensures ScanForKeytype(s, j, false) == ScanForKeytype(s, j + |SerializeOption(t)|, false)
  {
    hide PlainName, SerializeOption, ScanForKeytype, Escape, At;
    PlainIsLive(t);
    PieceShape(t);
    if t.value.Flag? {
      ScanName(s, j, t.name);
    } else {
      var quoted := "=\"" + Escape(t.value.text) + "\"";
      assert SerializeOption(t) == t.name + quoted;
      AtAppend(s, j, t.name, quoted);
      ScanName(s, j, t.name);
      ScanQuoted(s, j + |t.name|, t.value.text);
    }
  }

  /** The line scanner reaches the end of a printed option list outside quotes. */
  lemma {:induction false} ScanPrinted(s: string, j: nat, ts: seq<KeyOption>)
    requires PlainTokens(ts) && At(s, j, Join(",", Pieces(ts)))
    ensures ScanForKeytype(s, j, false) == ScanForKeytype(s, j + |Join(",", Pieces(ts))|, false)
    decreases |ts|
  {
    hide PlainToken, SerializeOption, ScanForKeytype, At;
    if |ts| == 1 {
      ScanPiece(s, j, ts[0]);
    } else if |ts| > 1 {
      var p, rest := SerializeOption(ts[0]), Join(",", Pieces(ts[1..]));
      JoinPiecesStep(ts);
      AtAppend(s, j, p, "," + rest);
      AtAppend(s, j + |p|, ",", rest);
      AtChar(s, j + |p|, ",", 0);
      ScanPiece(s, j, ts[0]);
      ScanPlain(s, j + |p|, j + |p| + 1);
      ScanPrinted(s, j + |p| + 1, ts[1..]);
    }
  }

  /** In a printed option list a space only ever follows an opening quote. */
  lemma {:induction false} QuoteBeforeSpace(ts: seq<KeyOption>, i: nat) returns (q: nat)
    requires PlainTokens(ts) && i < |Join(",", Pieces(ts))| && Join(",", Pieces(ts))[i] == ' '
    ensures q < i && Join(",", Pieces(ts))[q] == '"'
    decreases |ts|
  {
    assert ts != [];
    hide IsSpace, SerializeOption, Join, Escape, PlainToken;
    var p := SerializeOption(ts[0]);
    var more := FirstPiece(ts);
    if i < |p| {
      InPiece(p, more, i);
      q := SpaceInPiece(ts[0], i);
      InPiece(p, more, q);
    } else {
      var rest := Join(",", Pieces(ts[1..]));
      AfterPiece(p, rest, i);
      var r := QuoteBeforeSpace(ts[1..], i - |p| - 1);
      AfterPiece(p, rest, r + |p| + 1);
      q := r + |p| + 1;
    }
  }

  lemma InPiece(p: string, more: string, i: nat)
    requires i < |p|
    ensures (p + more)[i] == p[i]
  {
  }

  lemma AfterPiece(p: string, rest: string, i: nat)
    requires |p| <= i < |p + ("," + rest)|
    ensures i > |p| ==> (p + ("," + rest))[i] == rest[i - |p| - 1]
    ensures i == |p| ==> (p + ("," + rest))[i] == ','
  {
  }

  lemma FirstPiece(ts: seq<KeyOption>) returns (more: string)
    requires ts != []
    ensures Join(",", Pieces(ts)) == SerializeOption(ts[0]) + more
    ensures more == if |ts| == 1 then "" else "," + Join(",", Pieces(ts[1..]))
  {
    hide SerializeOption;
    more := if |ts| == 1 then "" else "," + Join(",", Pieces(ts[1..]));
    if |ts| > 1 { JoinPiecesStep(ts); }
  }

  /** A space inside a printed option comes after its opening quote. */
  lemma SpaceInPiece(t: KeyOption, i: nat) returns (q: nat)
    requires PlainToken(t) && i < |SerializeOption(t)| && SerializeOption(t)[i] == ' '
    ensures q < i && SerializeOption(t)[q] == '"'
  {
    hide IsSpace, SerializeOption, Escape, LiveToken;
    var p, n := SerializeOption(t), |t.name|;
    PlainIsLive(t);
    PieceShape(t);
    assert forall k :: 0 <= k < n ==> p[k] == t.name[k] && PlainChar(t.name[k]);
    assert i >= n;
    assert p[n] == '=' && p[n + 1] == '"';
    q := n + 1;
  }

  // ---------------------------------------------------------------- key types and known names

  /** Letters, digits and the punctuation of key types and option names. */
  predicate WordChar(c: char) {
    'a' <= c <= 'z' || 'A' <= c <= 'Z' || '0' <= c <= '9' || c == '-' || c == '@' || c == '.'
  }

  predicate Word(s: string) {
    s != "" && forall i :: 0 <= i < |s| ==> WordChar(s[i])
  }

  lemma WordsArePlain(s: string)
    requires Word(s)
    ensures PlainName(s)
  {
    forall i | 0 <= i < |s| ensures PlainChar(s[i]) { assert WordChar(s[i]); }
  }

  lemma ShortKeytypes()
    ensures Word("ssh-rsa")
    ensures Word("ssh-dss")
    ensures Word("ssh-ed25519")
    ensures Word("ssh-ed448")
  {
  }

  lemma EcdsaKeytypes()
    ensures Word("ecdsa-sha2-nistp256")
    ensures Word("ecdsa-sha2-nistp384")
    ensures Word("ecdsa-sha2-nistp521")
  {
  }

  lemma SecurityKeytype()
    ensures Word("sk-ecdsa-sha2-nistp256@openssh.com")
  {
  }

  lemma SecurityKeytypeEd25519()
    ensures Word("sk-ssh-ed25519@openssh.com")
  {
  }

  lemma CertSuffix()
    ensures Word("-cert-v01@openssh.com")
  {
  }

  lemma ForbidNames()
    ensures Word("cert-authority")
    ensures Word("no-agent-forwarding")
    ensures Word("no-port-forwarding")
    ensures Word("no-pty")
    ensures Word("no-user-rc")
  {
  }

  lemma X11Names()
    ensures Word("no-X11-forwarding")
    ensures Word("no-x11-forwarding")
    ensures Word("restrict")
    ensures Word("agent-forwarding")
    ensures Word("port-forwarding")
  {
  }

  lemma PermitNames()
    ensures Word("pty")
    ensures Word("user-rc")
    ensures Word("X11-forwarding")
    ensures Word("x11-forwarding")
    ensures Word("verify-required")
  {
  }

  lemma TouchNames()
    ensures Word("no-touch-required")
    ensures Word("touch-required")
    ensures Word("command")
    ensures Word("environment")
    ensures Word("expiry-time")
  {
  }

  lemma ValueNames()
    ensures Word("from")
    ensures Word("permitlisten")
    ensures Word("permitopen")
    ensures Word("principals")
    ensures Word("tunnel")
  {
  }

  lemma KnownNamesPlain(n: string)
    requires IsKnown(n)
    ensures PlainName(n)
  {
    ForbidNames();
    X11Names();
    PermitNames();
    TouchNames();
    ValueNames();
    hide Word, PlainName;
    assert Word(n);
    WordsArePlain(n);
  }

  lemma {:induction false} WordAppend(a: string, b: string)
    requires Word(a) && Word(b)
    ensures Word(a + b)
  {
    hide WordChar;
  }

  /** A key type is a plain name: no quote, comma or whitespace in it. */
  lemma KeytypePlain(k: string)
    requires IsKeytype(k)
    ensures PlainName(k)
  {
    ShortKeytypes();
    EcdsaKeytypes();
    SecurityKeytype();
    SecurityKeytypeEd25519();
    CertSuffix();
    hide Word, PlainName;
    assert forall w :: w in KEYTYPES ==> Word(w);
    if k !in KEYTYPES {
      var n := |k| - |CERT_SUFFIX|;
      assert k == k[..n] + k[n..];
      WordAppend(k[..n], k[n..]);
    }
    WordsArePlain(k);
  }
}
