/** An edited entry, read back from the file it was written to. */
module AuthorizedKeysEdits {
  import opened Text
  import opened AuthorizedKeys
  import opened AuthorizedKeysTokens
  import opened AuthorizedKeysRoundTrip
  import opened AuthorizedKeysFile

  lemma {:induction false} WithoutIsPart(os: seq<KeyOption>, name: string)
    ensures forall o :: o in Without(os, name) ==> o in os
  {
    if os != [] { WithoutIsPart(os[1..], name); }
  }

  lemma {:induction false} RepeatedOptions(name: string, values: seq<string>)
    ensures forall o :: o in Repeated(name, values) ==> o.name == name && o.value.Str?
  {
    if values != [] { RepeatedOptions(name, values[1..]); }
  }

  /** What a setter adds: options under its own name, all set. */
  lemma WantedOptions(s: Setter)
    ensures forall o :: o in Wanted(s) ==> o.name == s.name && o.value != Flag(false)
  {
    if s.SetRepeatable? { RepeatedOptions(s.name, s.values); }
  }

  lemma ApplyKeepsPrintable(e: Entry, s: Setter)
    requires Printable(e) && OptionName(s.name)
    ensures Printable(Apply(e, s))
    ensures AllKnownAndLive(e.options) && IsKnown(s.name) ==> AllKnownAndLive(Apply(e, s).options)
  {
    hide OptionName, IsKeytype, CanonicalUnknown, IsKnown, Without, Wanted;
    var r := Apply(e, s).options;
    WithoutIsPart(e.options, s.name);
    WantedOptions(s);
    forall i | 0 <= i < |r| ensures r[i] in e.options || (r[i].name == s.name && r[i].value != Flag(false)) {
      assert r[i] in Without(e.options, s.name) || r[i] in Wanted(s);
    }
  }

  lemma {:induction false} EditsKeepPrintable(e: Entry, edits: seq<Setter>)
    requires Printable(e) && forall s :: s in edits ==> OptionName(s.name)
    ensures Printable(ApplyAll(e, edits))
    ensures AllKnownAndLive(e.options) && (forall s :: s in edits ==> IsKnown(s.name))
      ==> AllKnownAndLive(ApplyAll(e, edits).options)
    ensures edits != [] ==> ApplyAll(e, edits).dirty
    decreases |edits|
  {
    hide OptionName, Printable, IsKnown, AllKnownAndLive;
    if edits != [] {
      assert edits[0] in edits;
      ApplyKeepsPrintable(e, edits[0]);
      EditsKeepPrintable(Apply(e, edits[0]), edits[1..]);
      if edits[1..] == [] { assert ApplyAll(Apply(e, edits[0]), []) == Apply(e, edits[0]); }
    }
  }

  /** Item `k` of a file is what line `k` reads as. */
  lemma ReadFromLine(text: string, k: nat)
    requires k < |SplitLines(text)|
    ensures k < |ParseText(text)| && ParseText(text)[k] == ParseLine(SplitLines(text)[k])
  {
    hide SplitLines, ParseLines, ParseLine;
    CleanLines(SplitLines(text));
  }

  /**
   * After any setters on one entry of a file, reading the written file gives that entry back, edited,
   * if and only if its line can be read back; every other item is as it was. With recognised names it
   * is the edited entry itself.
   */
  lemma EditedEntryReadsBack(text: string, k: nat, edits: seq<Setter>)
    requires OnlyNewlines(text) && k < |SplitLines(text)| && k < |ParseText(text)| && ParseText(text)[k].KeyLine?
    requires edits != [] && forall s :: s in edits ==> CleanSetter(s) && OptionName(s.name)
    ensures var e := ApplyAll(ParseText(text)[k].entry, edits);
      var after := ParseText(PrintText(ParseText(text)[k := KeyLine(e)]));
      && (after == ParseText(text)[k := KeyLine(Normal(e))] <==> ReadsBack(e))
      && ((forall s :: s in edits ==> IsKnown(s.name)) ==>
            Normal(e) == e.(rawLine := PrintEntry(e), dirty := false))
  {
    hide ParseText, SplitLines, PrintText, Printable, CleanSetter, OptionName, ParseLine, PrintEntry, Normal,
      ReadsBack, OnlyNewlines, AllKnownAndLive, IsKnown;
    var e := ApplyAll(ParseText(text)[k].entry, edits);
    EditsStayLocal(text, k, edits);
    assert ParseText(text)[k] == ParseLine(SplitLines(text)[k]) by { ReadFromLine(text, k); }
    ReadIsPrintable(SplitLines(text)[k]);
    EditsKeepPrintable(ParseText(text)[k].entry, edits);
    DirtyRoundTrip(e);
    if AllKnownAndLive(e.options) { NormalIsIdentity(e); }
    var items := ParseText(text);
    assert items[k := KeyLine(Normal(e))][k] == KeyLine(Normal(e));
  }
}
