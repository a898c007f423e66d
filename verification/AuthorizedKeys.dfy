/**
 * The `authorized_keys` reader and printer: the grammar of options, lines and files as functions,
 * and the printer that goes with it.
 */
module AuthorizedKeys {
  import opened Text

  // ---------------------------------------------------------------- key types

  const KEYTYPES: seq<string> := [
    "ssh-rsa", "ssh-dss", "ssh-ed25519", "ssh-ed448",
    "ecdsa-sha2-nistp256", "ecdsa-sha2-nistp384", "ecdsa-sha2-nistp521",
    "sk-ecdsa-sha2-nistp256@openssh.com", "sk-ssh-ed25519@openssh.com"
  ]

  const CERT_SUFFIX := "-cert-v01@openssh.com"

  predicate IsKeytype(token: string) {
    || token in KEYTYPES
    || (|token| >= |CERT_SUFFIX|
        && token[|token| - |CERT_SUFFIX|..] == CERT_SUFFIX
        && token[..|token| - |CERT_SUFFIX|] in KEYTYPES)
  }

  // ---------------------------------------------------------------- options

  const KNOWN_OPTIONS: set<string> := {
    "cert-authority", "no-agent-forwarding", "no-port-forwarding", "no-pty", "no-user-rc",
    "no-X11-forwarding", "no-x11-forwarding", "restrict", "agent-forwarding", "port-forwarding",
    "pty", "user-rc", "X11-forwarding", "x11-forwarding", "verify-required",
    "no-touch-required", "touch-required",
    "command", "environment", "expiry-time", "from", "permitlisten", "permitopen",
    "principals", "tunnel"
  }

  predicate IsKnown(name: string) { name in KNOWN_OPTIONS }

  /** An option value is a string or a boolean flag. */
  datatype OptionValue = Flag(on: bool) | Str(text: string)

  datatype KeyOption = KeyOption(name: string, value: OptionValue)

  /** `str.replace` of a single character. */
  function ReplaceChar(s: string, c: char, replacement: string): string {
    if s == "" then "" else (if s[0] == c then replacement else [s[0]]) + ReplaceChar(s[1..], c, replacement)
  }

  function SerializeOption(o: KeyOption): string {
    match o.value
    case Flag(on) => if on then o.name else ""
    case Str(v) => o.name + "=\"" + ReplaceChar(ReplaceChar(v, '\\', "\\\\"), '"', "\\\"") + "\""
  }

  /** Number of leading characters before the first ',' or '='. */
  function NameLength(s: string): (n: nat)
    ensures n <= |s|
    ensures n < |s| ==> s[n] == ',' || s[n] == '='
    ensures forall i :: 0 <= i < n ==> s[i] != ',' && s[i] != '='
  {
    if s == "" || s[0] == ',' || s[0] == '=' then 0 else 1 + NameLength(s[1..])
  }

  /** Number of leading separators: commas, spaces, tabs. */
  function SeparatorLength(s: string): (n: nat)
    ensures n <= |s|
    ensures n < |s| ==> s[n] != ',' && s[n] != ' ' && s[n] != '\t'
  {
    if s != "" && (s[0] == ',' || s[0] == ' ' || s[0] == '\t') then 1 + SeparatorLength(s[1..]) else 0
  }

  /** The text after an opening quote: its unescaped value and how much of it was read. */
  function Unquote(s: string): (r: (string, nat))
    ensures r.1 <= |s|
  {
    if s == "" then ("", 0)
    else if s[0] == '\\' && |s| > 1 then
      var r := Unquote(s[2..]);
      ([s[1]] + r.0, 2 + r.1)
    else if s[0] == '"' then ("", 0)
    else
      var r := Unquote(s[1..]);
      ([s[0]] + r.0, 1 + r.1)
  }

  /** The value that starts after '=': quoted or bare, and how much text it took. */
  function ReadValue(s: string): (r: (string, nat))
    ensures r.1 <= |s|
  {
    if s != "" && s[0] == '"' then
      var r := Unquote(s[1..]);
      var end := 1 + r.1;
      (r.0, if end < |s| && s[end] == '"' then end + 1 else end)
    else
      var end := IndexOf(s, ',');
      (s[..end], end)
  }

  /** One option and the length of its text, separators after it included. */
  function ReadOption(s: string): (r: (KeyOption, nat))
    requires s != ""
    ensures 0 < r.1 <= |s|
  {
    var j := NameLength(s);
    if j < |s| && s[j] == '=' then
      var v := ReadValue(s[j + 1..]);
      var end := j + 1 + v.1;
      (KeyOption(s[..j], Str(v.0)), end + SeparatorLength(s[end..]))
    else
      (KeyOption(s[..j], Flag(true)), j + SeparatorLength(s[j..]))
  }

  function TokenizeOptions(s: string): seq<KeyOption> {
    if s == "" then []
    else
      var r := ReadOption(s);
      [r.0] + TokenizeOptions(s[r.1..])
  }

  function KnownOptions(tokens: seq<KeyOption>): seq<KeyOption> {
    if tokens == [] then []
    else (if IsKnown(tokens[0].name) then [tokens[0]] else []) + KnownOptions(tokens[1..])
  }

  function UnknownOptions(tokens: seq<KeyOption>): seq<string> {
    if tokens == [] then []
    else
      var piece := SerializeOption(tokens[0]);
      (if !IsKnown(tokens[0].name) && piece != "" then [piece] else []) + UnknownOptions(tokens[1..])
  }

  // ---------------------------------------------------------------- lines

  datatype Fields = Fields(options: string, keytype: string, key: string, comment: string)

  /** `text.split(" ", 1)`, the second part empty when there is no space. */
  function Head(s: string): string { s[..IndexOf(s, ' ')] }
  function Tail(s: string): string {
    var i := IndexOf(s, ' ');
    if i < |s| then s[i + 1..] else ""
  }

  function SkipSpaces(s: string, j: nat): (k: nat)
    requires j <= |s|
    ensures j <= k <= |s|
    ensures j < |s| && s[j] == ' ' ==> j < k
    ensures forall i :: j <= i < k ==> s[i] == ' '
    decreases |s| - j
  {
    if j < |s| && s[j] == ' ' then SkipSpaces(s, j + 1) else j
  }

  /** The fields after the option text `s[..j]`, the key type starting at `k`. */
  function FieldsAt(s: string, j: nat, k: nat): Option<Fields>
    requires j <= k <= |s|
  {
    var rest := s[k..];
    if IndexOf(rest, ' ') == |rest| then None
    else Some(Fields(s[..j], Head(rest), Head(Tail(rest)), Tail(Tail(rest))))
  }

  /** The quote-aware search for the key type. */
  function ScanForKeytype(s: string, j: nat, inQuote: bool): Option<Fields>
    requires j <= |s|
    decreases |s| - j
  {
    if j == |s| then None
    else if s[j] == '\\' && inQuote && j + 1 < |s| then ScanForKeytype(s, j + 2, inQuote)
    else if s[j] == '"' then ScanForKeytype(s, j + 1, !inQuote)
    else if s[j] == ' ' && !inQuote then
      var k := SkipSpaces(s, j);
      var m := k + IndexOf(s[k..], ' ');
      if IsKeytype(s[k..m]) then FieldsAt(s, j, k) else ScanForKeytype(s, m, inQuote)
    else ScanForKeytype(s, j + 1, inQuote)
  }

  /** One step of the search. */
  lemma ScanUnfold(s: string, j: nat, inQuote: bool)
    requires j < |s|
    ensures ScanForKeytype(s, j, inQuote) ==
      if s[j] == '\\' && inQuote && j + 1 < |s| then ScanForKeytype(s, j + 2, inQuote)
      else if s[j] == '"' then ScanForKeytype(s, j + 1, !inQuote)
      else if s[j] == ' ' && !inQuote then
        var k := SkipSpaces(s, j);
        var m := k + IndexOf(s[k..], ' ');
        if IsKeytype(s[k..m]) then FieldsAt(s, j, k) else ScanForKeytype(s, m, inQuote)
      else ScanForKeytype(s, j + 1, inQuote)
  {
    hide IsKeytype, FieldsAt;
  }

  lemma ScanEnds(s: string, inQuote: bool)
    ensures ScanForKeytype(s, |s|, inQuote) == None
  {
  }

  function SplitLine(line: string): Option<Fields> {
    var s := LStrip(line);
    var sp := IndexOf(s, ' ');
    if sp == |s| then None
    else if IsKeytype(s[..sp]) then
      var rest := LStrip(s[sp + 1..]);
      if Head(rest) == "" then None
      else Some(Fields("", s[..sp], Head(rest), Tail(rest)))
    else ScanForKeytype(s, 0, false)
  }

  // ---------------------------------------------------------------- entries

  datatype Entry = Entry(
    rawLine: string,
    disabled: bool,
    options: seq<KeyOption>,
    unknownOptions: seq<string>,
    keytype: string,
    key: string,
    comment: string,
    dirty: bool)

  datatype Line = KeyLine(entry: Entry) | Passthrough(text: string)

  function EntryOf(raw: string, disabled: bool, f: Fields): Entry {
    var tokens := TokenizeOptions(f.options);
    Entry(raw, disabled, KnownOptions(tokens), UnknownOptions(tokens), f.keytype, f.key, f.comment, false)
  }

  function ParseLine(line: string): Line {
    var stripped := Strip(line);
    if stripped == "" then Passthrough(line)
    else if stripped[0] == '#' then
      match SplitLine(LStrip(stripped[1..]))
      case None => Passthrough(line)
      case Some(f) => KeyLine(EntryOf(line, true, f))
    else
      match SplitLine(line)
      case None => Passthrough(line)
      case Some(f) => KeyLine(EntryOf(line, false, f))
  }

  function ParseLines(lines: seq<string>): seq<Line> {
    if lines == [] then [] else [ParseLine(lines[0])] + ParseLines(lines[1..])
  }

  function ParseText(text: string): seq<Line> {
    ParseLines(SplitLines(text)) + (if EndsWithNewline(text) then [Passthrough("")] else [])
  }

  function OptionPieces(options: seq<KeyOption>): seq<string> {
    if options == [] then []
    else
      var piece := SerializeOption(options[0]);
      (if piece != "" then [piece] else []) + OptionPieces(options[1..])
  }

  function OptionText(e: Entry): string {
    Join(",", OptionPieces(e.options) + e.unknownOptions)
  }

  function Body(e: Entry): string {
    var pieces := OptionPieces(e.options) + e.unknownOptions;
    Join(" ", (if pieces != [] then [Join(",", pieces)] else [])
              + [e.keytype, e.key]
              + (if e.comment != "" then [e.comment] else []))
  }

  function PrintEntry(e: Entry): string {
    if !e.dirty then e.rawLine
    else if e.disabled then "# " + Body(e)
    else Body(e)
  }

  function PrintLine(l: Line): string {
    match l
    case KeyLine(e) => PrintEntry(e)
    case Passthrough(t) => t
  }

  function PrintLines(items: seq<Line>): seq<string> {
    if items == [] then [] else [PrintLine(items[0])] + PrintLines(items[1..])
  }

  function PrintText(items: seq<Line>): string {
    var lines := PrintLines(items);
    if lines == [] then ""
    else if lines[|lines| - 1] == "" then Join("\n", lines[..|lines| - 1]) + "\n"
    else Join("\n", lines)
  }
}
