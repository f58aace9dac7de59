/** How the lines of the home-network file are understood: white space around keys and values does not matter, one
    layer of quotes of either kind is taken off, and the last line of a key counts. */
module HomeWifiLaws {
  import opened Bytes
  import opened Text
  import opened HomeWifi

  /** How a value may be written. */
  datatype Style = Bare | Single | Double

  function Spelt(style: Style, value: string): string {
    match style
    case Bare => value
    case Single => "'" + value + "'"
    case Double => "\"" + value + "\""
  }

  predicate AllBlank(s: string) {
    forall i :: 0 <= i < |s| ==> s[i] == ' ' || s[i] == '\t'
  }

  predicate AllSpacing(s: string) {
    forall i :: 0 <= i < |s| ==> s[i] in " \t\r\n"
  }

  predicate Trimmed(s: string) {
    s != "" && s[0] !in " \t\r\n" && s[|s| - 1] !in " \t\r\n"
  }

  predicate IsKey(key: string) {
    Trimmed(key) && key[0] != '#' && '=' !in key
  }

  predicate InQuotes(s: string) {
    |s| >= 2 && s[0] == s[|s| - 1] && (s[0] == '"' || s[0] == '\'')
  }

  /** A bare value has no white space around it and is not itself quoted. */
  predicate CanSpell(style: Style, value: string) {
    style == Bare ==> (value == "" || Trimmed(value)) && !InQuotes(value)
  }

  lemma SpacingIsTrailing(s: string)
    requires AllSpacing(s)
    ensures forall i :: 0 <= i < |s| ==> IsTrailing(s[i])
  {
  }

  lemma SpeltTrimmed(style: Style, value: string)
    requires CanSpell(style, value)
    ensures Spelt(style, value) == "" || Trimmed(Spelt(style, value))
  {
    var s := Spelt(style, value);
    if style.Single? { assert s[0] == '\'' && s[|s| - 1] == '\''; }
    if style.Double? { assert s[0] == '"' && s[|s| - 1] == '"'; }
  }

  lemma SpeltRead(style: Style, value: string)
    requires CanSpell(style, value)
    ensures StripQuotes(Spelt(style, value)) == value
  {
    var s := Spelt(style, value);
    if !style.Bare? {
      assert s[1..|s| - 1] == value;
    }
  }

  lemma LStripOf(blanks: string, s: string)
    requires AllBlank(blanks) && (s == "" || Trimmed(s))
    ensures LStrip(blanks + s) == s
  {
    if s != "" { NotTrailing(s[0]); }
    LStripExact(blanks, s);
  }

  /** The line without the white space around it. */
  lemma Stripped(lead: string, core: string, trail: string)
    requires AllBlank(lead) && AllSpacing(trail) && Trimmed(core)
    ensures RStrip(LStrip(lead + core + trail)) == core
  {
    NotTrailing(core[0]);
    assert lead + core + trail == lead + (core + trail);
    assert (core + trail)[0] == core[0];
    LStripExact(lead, core + trail);
    RStripExact(core, trail);
  }

  /** What stands between the outer white space. */
  function Core(key: string, gap: string, more: string, text: string): string {
    key + gap + "=" + (if text == "" then "" else more + text)
  }

  lemma CoreTrimmed(key: string, gap: string, more: string, text: string)
    requires IsKey(key) && (text == "" || Trimmed(text))
    ensures Trimmed(Core(key, gap, more, text))
  {
    var c := Core(key, gap, more, text);
    assert c[0] == key[0];
    if text == "" { assert c[|c| - 1] == '='; } else { assert c[|c| - 1] == text[|text| - 1]; }
  }

  lemma AssignmentCore(line: string, key: string, gap: string, more: string, text: string)
    requires IsKey(key) && AllSpacing(gap) && AllBlank(more) && (text == "" || Trimmed(text))
    requires RStrip(LStrip(line)) == Core(key, gap, more, text)
    ensures Assignment(line) == Some((key, StripQuotes(text)))
  {
    var c := Core(key, gap, more, text);
    var rest := if text == "" then "" else more + text;
    assert c == key + gap + "=" + rest && c[0] == key[0];
    NoEquals(gap);
    FindAfterKey(key + gap, rest);
    assert c[..|key + gap|] == key + gap && c[|key + gap| + 1..] == rest;
    RStripExact(key, gap);
    RestRead(more, text);
  }

  lemma NoEquals(gap: string)
    requires AllSpacing(gap)
    ensures '=' !in gap
  {
    SpacingIsTrailing(gap);
  }

  lemma RestRead(more: string, text: string)
    requires AllBlank(more) && (text == "" || Trimmed(text))
    ensures RStrip(LStrip(if text == "" then "" else more + text)) == text
  {
    if text != "" {
      LStripOf(more, text);
      RStripExact(text, "");
      assert text + "" == text;
    }
  }

  /** A line says what it says however it is spaced and quoted. */
  lemma AssignmentLaw(lead: string, key: string, gap: string, more: string, style: Style, value: string,
                      trail: string)
    requires AllBlank(lead) && IsKey(key) && AllSpacing(gap) && AllBlank(more) && AllSpacing(trail)
    requires CanSpell(style, value)
    ensures Assignment(lead + key + gap + "=" + more + Spelt(style, value) + trail) == Some((key, value))
  {
    var text := Spelt(style, value);
    var line := lead + key + gap + "=" + more + text + trail;
    SpeltTrimmed(style, value);
    SpeltRead(style, value);
    CoreTrimmed(key, gap, more, text);
    var after := if text == "" then more + trail else trail;
    assert line == lead + Core(key, gap, more, text) + after;
    BlankSpacing(more, trail);
    Stripped(lead, Core(key, gap, more, text), after);
    AssignmentCore(line, key, gap, more, text);
  }

  lemma BlankSpacing(more: string, trail: string)
    requires AllBlank(more) && AllSpacing(trail)
    ensures AllSpacing(more + trail)
  {
    var all := " \t\r\n";
    assert all[0] == ' ' && all[1] == '\t';
  }

  // ---------- the last line of a key counts ----------

  predicate Sets(line: string, key: string) {
    Assignment(line).Some? && Assignment(line).value.0 == key
  }

  /** Line `p` is the last that sets the key; `p` is past the end if none does. */
  ghost predicate IsLast(lines: seq<string>, p: nat, key: string) {
    && (p < |lines| ==> Sets(lines[p], key))
    && (forall q :: 0 <= q < |lines| && (p < q || p >= |lines|) ==> !Sets(lines[q], key))
  }

  predicate Keeps(kept: string, line: string, key: string, size: nat) {
    && size > 0 && Sets(line, key)
    && kept == Assignment(line).value.1[..Min(|Assignment(line).value.1|, size - 1)]
  }

  lemma LastSnoc(lines: seq<string>, a: nat, key: string) returns (p: nat)
    requires lines != [] && IsLast(lines[..|lines| - 1], a, key)
    ensures IsLast(lines, p, key)
    ensures p < |lines| <==> Sets(lines[|lines| - 1], key) || a < |lines| - 1
    ensures p < |lines| ==> p == if Sets(lines[|lines| - 1], key) then |lines| - 1 else a
  {
    var n := |lines| - 1;
    p := if Sets(lines[n], key) then n else if a < n then a else |lines|;
    var front := lines[..n];
    forall q | 0 <= q < |lines| && (p < q || p >= |lines|)
      ensures !Sets(lines[q], key)
    {
      if q < n { assert front[q] == lines[q]; }
    }
  }

  lemma ReadOne(h: Home, line: string, ssidSize: nat, pwdSize: nat)
    requires ssidSize > 0 && pwdSize > 0
    ensures var h' := ReadLine(h, line, ssidSize, pwdSize);
            && h'.haveSsid == (h.haveSsid || Sets(line, "HOME_SSID"))
            && (if Sets(line, "HOME_SSID") then Keeps(h'.ssid, line, "HOME_SSID", ssidSize) else h'.ssid == h.ssid)
            && (if Sets(line, "HOME_PASSWORD") then Keeps(h'.pwd, line, "HOME_PASSWORD", pwdSize)
                else h'.pwd == h.pwd)
  {
    assert "HOME_SSID"[5] != "HOME_PASSWORD"[5];
  }

  lemma {:induction false} ReadSsid(lines: seq<string>, ssidSize: nat, pwdSize: nat) returns (p: nat)
    requires ssidSize > 0 && pwdSize > 0
    ensures IsLast(lines, p, "HOME_SSID")
    ensures var h := ReadLines(lines, ssidSize, pwdSize);
            && (h.haveSsid <==> p < |lines|)
            && (p < |lines| ==> Keeps(h.ssid, lines[p], "HOME_SSID", ssidSize))
  {
    p := 0;
    if lines == [] {
    } else {
      var n := |lines| - 1;
      var a := ReadSsid(lines[..n], ssidSize, pwdSize);
      ReadOne(ReadLines(lines[..n], ssidSize, pwdSize), lines[n], ssidSize, pwdSize);
      p := LastSnoc(lines, a, "HOME_SSID");
    }
  }

  lemma {:induction false} ReadPassword(lines: seq<string>, ssidSize: nat, pwdSize: nat) returns (q: nat)
    requires ssidSize > 0 && pwdSize > 0
    ensures IsLast(lines, q, "HOME_PASSWORD")
    ensures var h := ReadLines(lines, ssidSize, pwdSize);
            if q < |lines| then Keeps(h.pwd, lines[q], "HOME_PASSWORD", pwdSize) else h.pwd == ""
  {
    q := 0;
    if lines == [] {
    } else {
      var n := |lines| - 1;
      var b := ReadPassword(lines[..n], ssidSize, pwdSize);
      ReadOne(ReadLines(lines[..n], ssidSize, pwdSize), lines[n], ssidSize, pwdSize);
      q := LastSnoc(lines, b, "HOME_PASSWORD");
    }
  }

  /** What read_home_wifi answers for a file: there are credentials exactly when some line sets a HOME_SSID and the
      last such line keeps a character of it. */
  lemma ReadLaw(content: string, ssidSize: nat, pwdSize: nat) returns (lines: seq<string>, p: nat, q: nat)
    requires ssidSize > 0 && pwdSize > 0
    ensures lines == Lines(ReadAll(content, 2048))
    ensures IsLast(lines, p, "HOME_SSID") && IsLast(lines, q, "HOME_PASSWORD")
    ensures var creds := Read(Some(content), ssidSize, pwdSize);
            && (creds.Some? <==> p < |lines| && Assignment(lines[p]).value.1 != "" && ssidSize > 1)
            && (creds.Some? ==> Keeps(creds.value.0, lines[p], "HOME_SSID", ssidSize))
            && (creds.Some? && q < |lines| ==> Keeps(creds.value.1, lines[q], "HOME_PASSWORD", pwdSize))
            && (creds.Some? && q >= |lines| ==> creds.value.1 == "")
  {
    lines := Lines(ReadAll(content, 2048));
    p := ReadSsid(lines, ssidSize, pwdSize);
    q := ReadPassword(lines, ssidSize, pwdSize);
  }
}
