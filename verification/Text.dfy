/** The C string helpers that the configuration and scan parsers of system_service/wifi_switch.c share. */
module Text {
  import opened Bytes

  predicate IsBlank(c: char) {
    c == ' ' || c == '\t'
  }

  predicate IsTrailing(c: char) {
    c == ' ' || c == '\t' || c == '\r' || c == '\n'
  }

  function LStrip(s: string): (r: string)
    ensures |r| <= |s|
  {
    if s != [] && IsBlank(s[0]) then LStrip(s[1..]) else s
  }

  function RStrip(s: string): (r: string)
    ensures |r| <= |s|
  {
    if s != [] && IsTrailing(s[|s| - 1]) then RStrip(s[..|s| - 1]) else s
  }

  /** The characters RStrip drops; keywords end in none of them. */
  lemma {:induction false} RStripDrops(s: string)
    ensures RStrip(s) <= s
    ensures forall i :: |RStrip(s)| <= i < |s| ==> IsTrailing(s[i])
  {
    if s == [] || !IsTrailing(s[|s| - 1]) {
    } else {
      RStripDrops(s[..|s| - 1]);
    }
  }

  lemma {:induction false} LStripDrops(s: string)
    ensures exists k :: 0 <= k <= |s| && LStrip(s) == s[k..]
  {
    if s == [] || !IsBlank(s[0]) {
      assert s == s[0..];
    } else {
      LStripDrops(s[1..]);
      var k :| 0 <= k <= |s[1..]| && LStrip(s[1..]) == s[1..][k..];
      assert s[1..][k..] == s[k + 1..];
    }
  }

  /** Exactly the blanks in front go. */
  lemma {:induction false} LStripExact(blanks: string, s: string)
    requires forall i :: 0 <= i < |blanks| ==> blanks[i] == ' ' || blanks[i] == '\t'
    requires s == "" || (s[0] != ' ' && s[0] != '\t')
    ensures LStrip(blanks + s) == s
  {
    if blanks == [] {
      assert blanks + s == s;
    } else {
      assert (blanks + s)[1..] == blanks[1..] + s;
      LStripExact(blanks[1..], s);
    }
  }

  /** Exactly the white space at the end goes. */
  lemma {:induction false} RStripExact(s: string, spacing: string)
    requires forall i :: 0 <= i < |spacing| ==> spacing[i] in " \t\r\n"
    requires s == "" || s[|s| - 1] !in " \t\r\n"
    ensures RStrip(s + spacing) == s
  {
    if spacing == [] {
      assert s + spacing == s;
      if s != "" { NotTrailing(s[|s| - 1]); }
    } else {
      var all := s + spacing;
      assert all[|all| - 1] == spacing[|spacing| - 1];
      assert all[..|all| - 1] == s + spacing[..|spacing| - 1];
      RStripExact(s, spacing[..|spacing| - 1]);
    }
  }

  lemma NotTrailing(c: char)
    requires c !in " \t\r\n"
    ensures !IsTrailing(c)
  {
    var all := " \t\r\n";
    assert all[0] == ' ' && all[1] == '\t' && all[2] == '\r' && all[3] == '\n';
  }

  /** strstr(s, w) != NULL. */
  predicate Contains(s: string, w: string) {
    exists i :: 0 <= i <= |s| && w <= s[i..]
  }

  /** A file read into a buffer of `size` characters and used as a C string. */
  function ReadAll(content: string, size: nat): string
    requires size > 0
  {
    UpToNul(content[..Min(|content|, size - 1)])
  }

  function UpToNul(s: string): string {
    if s == [] || s[0] == '\0' then [] else [s[0]] + UpToNul(s[1..])
  }

  lemma {:induction false} UpToNulWhole(s: string)
    requires '\0' !in s
    ensures UpToNul(s) == s
  {
    if s == [] {
    } else {
      UpToNulWhole(s[1..]);
    }
  }

  /** snprintf(dst, size, "%s", s). */
  function Fit(s: string, size: nat): string
    requires size > 0
  {
    s[..Min(|s|, size - 1)]
  }

  // ---------- strtok_r(buf, "\n") ----------

  predicate IsLine(s: string) {
    s != "" && '\n' !in s
  }

  function LineLength(text: string): (n: nat)
    ensures n <= |text| && '\n' !in text[..n]
    ensures n < |text| ==> text[n] == '\n'
  {
    if text == [] || text[0] == '\n' then 0 else 1 + LineLength(text[1..])
  }

  /** The non-empty lines of a text. */
  function Lines(text: string): (lines: seq<string>)
    ensures forall i :: 0 <= i < |lines| ==> IsLine(lines[i])
    decreases |text|
  {
    if text == [] then []
    else if text[0] == '\n' then Lines(text[1..])
    else [text[..LineLength(text)]] + Lines(text[LineLength(text)..])
  }

  function Unlines(lines: seq<string>): string {
    if lines == [] then "" else lines[0] + "\n" + Unlines(lines[1..])
  }

  lemma {:induction false} LineLengthAt(line: string, rest: string)
    requires '\n' !in line
    ensures LineLength(line + "\n" + rest) == |line|
  {
    var text := line + "\n" + rest;
    if line == [] {
    } else {
      assert text[0] == line[0] && text[0] in line;
      assert text[1..] == line[1..] + "\n" + rest;
      LineLengthAt(line[1..], rest);
    }
  }

  lemma LinesCons(line: string, rest: string)
    requires IsLine(line)
    ensures Lines(line + "\n" + rest) == [line] + Lines(rest)
  {
    var text := line + "\n" + rest;
    LineLengthAt(line, rest);
    assert text[0] == line[0] && text[0] in line;
    assert text[..|line|] == line && text[|line|..] == "\n" + rest;
    assert ("\n" + rest)[1..] == rest;
  }

  lemma {:induction false} LinesUnlines(lines: seq<string>)
    requires forall i :: 0 <= i < |lines| ==> IsLine(lines[i])
    ensures Lines(Unlines(lines)) == lines
  {
    if lines == [] {
    } else {
      LinesUnlines(lines[1..]);
      LinesCons(lines[0], Unlines(lines[1..]));
    }
  }

  lemma {:induction false} UnlinesSnoc(lines: seq<string>, line: string)
    ensures Unlines(lines + [line]) == Unlines(lines) + line + "\n"
  {
    if lines == [] {
      assert [] + [line] == [line];
      assert Unlines([line]) == line + "\n" + Unlines([line][1..]);
    } else {
      assert (lines + [line])[1..] == lines[1..] + [line];
      UnlinesSnoc(lines[1..], line);
    }
  }

  lemma {:induction false} UnlinesPrefix(lines: seq<string>, i: nat)
    requires i <= |lines|
    ensures Unlines(lines[..i]) <= Unlines(lines)
  {
    if i == |lines| {
      assert lines[..i] == lines;
    } else {
      var front := lines[..|lines| - 1];
      UnlinesPrefix(front, i);
      assert front[..i] == lines[..i] && lines == front + [lines[|lines| - 1]];
      UnlinesSnoc(front, lines[|lines| - 1]);
    }
  }

  lemma {:induction false} UpToNulClean(s: string)
    ensures '\0' !in UpToNul(s)
  {
    if s == [] || s[0] == '\0' {
    } else {
      UpToNulClean(s[1..]);
    }
  }

  /** Lines hold only characters of the text. */
  lemma {:induction false} LinesWithin(text: string, c: char)
    requires c !in text
    ensures forall i :: 0 <= i < |Lines(text)| ==> c !in Lines(text)[i]
    decreases |text|
  {
    if text == [] {
    } else {
      if text[0] == '\n' { LinesWithin(text[1..], c); } else { LinesWithin(text[LineLength(text)..], c); }
    }
  }

  /** A line that survives being written and read as C text. */
  predicate ReadableLine(line: string) {
    IsLine(line) && '\0' !in line
  }

  ghost predicate Readable(lines: seq<string>) {
    forall i :: 0 <= i < |lines| ==> ReadableLine(lines[i])
  }

  lemma {:induction false} UnlinesClean(lines: seq<string>)
    requires Readable(lines)
    ensures '\0' !in Unlines(lines)
  {
    if lines == [] {
    } else {
      assert ReadableLine(lines[0]);
      UnlinesClean(lines[1..]);
    }
  }

  /** A file of such lines that fits the buffer is read back line by line. */
  lemma ReadsBack(lines: seq<string>, size: nat)
    requires Readable(lines) && |Unlines(lines)| < size
    ensures Lines(ReadAll(Unlines(lines), size)) == lines
  {
    var text := Unlines(lines);
    UnlinesClean(lines);
    UpToNulWhole(text);
    assert text[..|text|] == text;
    assert forall i :: 0 <= i < |lines| ==> ReadableLine(lines[i]);
    LinesUnlines(lines);
  }
}
