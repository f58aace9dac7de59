/** When rewriting the access-point configuration can cost the credentials: the final write goes wrong half
    way, or the new text no longer fits the reader. */
module HostapdLoss {
  import opened Bytes
  import opened Text
  import opened Hostapd

  predicate IsSsid(line: string) {
    "ssid=" <= LStrip(line)
  }

  ghost predicate HasSsid(lines: seq<string>) {
    exists i :: 0 <= i < |lines| && IsSsid(lines[i])
  }

  /** Credentials are found exactly when some line starts with ssid=. */
  lemma {:induction false} GotSsid(lines: seq<string>, ssidSize: nat, pwdSize: nat)
    ensures ReadApLines(lines, ssidSize, pwdSize).gotSsid <==> HasSsid(lines)
  {
    if lines == [] {
    } else {
      var front, line := lines[..|lines| - 1], lines[|lines| - 1];
      GotSsid(front, ssidSize, pwdSize);
      SsidLine(ReadApLines(front, ssidSize, pwdSize), line, ssidSize, pwdSize);
      assert forall i :: 0 <= i < |front| ==> lines[i] == front[i];
    }
  }

  lemma SsidLine(h: ApCreds, line: string, ssidSize: nat, pwdSize: nat)
    ensures ReadApLine(h, line, ssidSize, pwdSize).gotSsid <==> h.gotSsid || IsSsid(line)
  {
    var t := LStrip(line);
    if "ssid=" <= t {
      assert t[0] == "ssid="[0];
    }
  }

  // ---------- a text that is cut ----------

  lemma {:induction false} LineLengthCut(text: string, n: nat)
    requires n <= |text|
    ensures LineLength(text[..n]) == Min(n, LineLength(text))
  {
    if n == 0 || text[0] == '\n' {
    } else {
      LineLengthCut(text[1..], n - 1);
      assert text[..n][1..] == text[1..][..n - 1];
    }
  }

  /** Each line of a cut text is the beginning of a line of the whole. */
  lemma {:induction false} LinesOfCut(text: string, n: nat, i: nat) returns (j: nat)
    requires n <= |text| && i < |Lines(text[..n])|
    ensures j < |Lines(text)| && Lines(text[..n])[i] <= Lines(text)[j]
    decreases |text|
  {
    var cut := text[..n];
    if text[0] == '\n' {
      assert cut[1..] == text[1..][..n - 1];
      j := LinesOfCut(text[1..], n - 1, i);
    } else {
      var k := LineLength(text);
      LineLengthCut(text, n);
      if i == 0 {
        j := 0;
      } else {
        assert cut[LineLength(cut)..] == if n <= k then [] else text[k..][..n - k];
        var j' := LinesOfCut(text[k..], n - k, i - 1);
        j := j' + 1;
      }
    }
  }

  lemma {:induction false} SsidExtended(line: string, longer: string)
    requires IsSsid(line) && line <= longer
    ensures IsSsid(longer)
  {
    if !IsBlank(line[0]) {
    } else {
      SsidExtended(line[1..], longer[1..]);
    }
  }

  /** Cutting a text that holds no credentials gives none. */
  lemma CutGivesNone(text: string, n: nat, ssidSize: nat, pwdSize: nat)
    requires '\0' !in text && |text| < READ_BUFFER && n <= |text|
    requires Credentials(Some(text), ssidSize, pwdSize).None?
    ensures Credentials(Some(text[..n]), ssidSize, pwdSize).None?
  {
    WholeText(text);
    WholeText(text[..n]);
    GotSsid(Lines(text), ssidSize, pwdSize);
    GotSsid(Lines(text[..n]), ssidSize, pwdSize);
    if HasSsid(Lines(text[..n])) {
      var i :| 0 <= i < |Lines(text[..n])| && IsSsid(Lines(text[..n])[i]);
      var j := LinesOfCut(text, n, i);
      SsidExtended(Lines(text[..n])[i], Lines(text)[j]);
    }
  }

  lemma WholeText(text: string)
    requires '\0' !in text && |text| < READ_BUFFER
    ensures ReadAll(text, READ_BUFFER) == text
  {
    assert text[..|text|] == text;
    UpToNulWhole(text);
  }

  lemma EmptyGivesNone(ssidSize: nat, pwdSize: nat)
    ensures Credentials(Some(""), ssidSize, pwdSize).None?
  {
    WholeText("");
  }

  /** The text that is written back holds no NUL. */
  lemma RewrittenClean(content: string, channel: int, band: Band)
    requires RewriteFile(content, channel, band).Some?
    ensures '\0' !in RewriteFile(content, channel, band).value
  {
    RewrittenReadable(content, channel, band);
    UnlinesClean(Rewritten(Lines(ReadAll(content, READ_BUFFER)), channel, band));
  }

  lemma NothingToLose(content: string, channel: int, band: Band, w: Writing, ssidSize: nat, pwdSize: nat)
    requires RewriteFile(content, channel, band).Some?
    requires |RewriteFile(content, channel, band).value| < READ_BUFFER
    requires Credentials(Some(content), ssidSize, pwdSize).None?
    ensures Credentials(Rewrite(Some(content), channel, band, w).0, ssidSize, pwdSize).None?
  {
    var text := RewriteFile(content, channel, band).value;
    RewriteIsStable(content, channel, band, ssidSize, pwdSize);
    RewrittenClean(content, channel, band);
    if w.CutShort? {
      CutGivesNone(text, Min(w.n, |text|), ssidSize, pwdSize);
    }
  }

  /** A rewrite whose text fits the reader keeps what is read of the credentials, however its final write
      goes, exactly when there were none: the write empties the file first. */
  lemma SafeExactlyWithout(content: string, channel: int, band: Band, ssidSize: nat, pwdSize: nat)
    requires RewriteFile(content, channel, band).Some?
    requires |RewriteFile(content, channel, band).value| < READ_BUFFER
    ensures (forall w :: Credentials(Rewrite(Some(content), channel, band, w).0, ssidSize, pwdSize)
                         == Credentials(Some(content), ssidSize, pwdSize))
            <==> Credentials(Some(content), ssidSize, pwdSize).None?
  {
    if Credentials(Some(content), ssidSize, pwdSize).None? {
      forall w
        ensures Credentials(Rewrite(Some(content), channel, band, w).0, ssidSize, pwdSize).None?
      {
        NothingToLose(content, channel, band, w, ssidSize, pwdSize);
      }
    } else {
      var text := RewriteFile(content, channel, band).value;
      assert text[..0] == "";
      assert Rewrite(Some(content), channel, band, CutShort(0)).0 == Some("");
      EmptyGivesNone(ssidSize, pwdSize);
    }
  }

  // ---------- failing inputs ----------

  lemma LastLine(line: string)
    requires IsLine(line)
    ensures Lines(line) == [line]
  {
    assert forall i :: 0 <= i < |line| ==> line[i] in line;
    assert line[..|line|] == line && line[|line|..] == [];
  }

  lemma SsidGiven(lines: seq<string>, value: string, ssidSize: nat, pwdSize: nat)
    requires lines != [] && lines[|lines| - 1] == "ssid=" + value
    ensures var h := ReadApLines(lines, ssidSize, pwdSize);
            h.gotSsid && h.ssid == Store(RStrip(LStrip(value)), ssidSize)
  {
    var line := "ssid=" + value;
    assert line[0] == 's' && LStrip(line) == line && line[5..] == value;
  }

  lemma RewrittenThree(a: string, b: string, c: string, channel: int, band: Band)
    requires IsChannel(a) && !IsChannel(b) && !IsMode(b) && !IsChannel(c) && !IsMode(c)
    ensures Rewritten([a, b, c], channel, band) == [ChannelLine(channel), b, c, ModeLine(band)]
  {
    var lines := [a, b, c];
    ReplacedAt(lines, channel, band);
    ModeIsNotChannel(a);
    assert lines[0] == a;
    assert Replaced(lines, channel, band) == [ChannelLine(channel), b, c];
  }

  lemma UnlinesFour(a: string, b: string, c: string, d: string)
    ensures Unlines([a, b, c, d]) == a + "\n" + (b + "\n" + (c + "\n" + (d + "\n")))
  {
    assert [a, b, c, d][1..] == [b, c, d] && [b, c, d][1..] == [c, d] && [c, d][1..] == [d] && [d][1..] == [];
    assert Unlines([d]) == d + "\n" + Unlines([]);
    assert Unlines([c, d]) == c + "\n" + Unlines([d]);
    assert Unlines([b, c, d]) == b + "\n" + Unlines([c, d]);
  }

  /** A comment line of any length that is read whole. */
  predicate IsComment(line: string) {
    ReadableLine(line) && line[0] == '#'
  }

  lemma CommentIsOther(line: string)
    requires IsComment(line)
    ensures !IsChannel(line) && !IsMode(line)
  {
    assert LStrip(line) == line;
  }

  function Before(comment: string): string {
    "channel=6" + "\n" + (comment + "\n" + "ssid=a")
  }

  function AfterLines(comment: string): seq<string> {
    ["channel=36", comment, "ssid=a", "hw_mode=g"]
  }

  lemma BeforeLines(comment: string)
    requires IsComment(comment)
    ensures Lines(Before(comment)) == ["channel=6", comment, "ssid=a"]
  {
    LinesOfThree("channel=6", comment, "ssid=a");
  }

  lemma LinesOfThree(a: string, b: string, c: string)
    requires IsLine(a) && IsLine(b) && IsLine(c)
    ensures Lines(a + "\n" + (b + "\n" + c)) == [a, b, c]
  {
    LinesCons(a, b + "\n" + c);
    LinesCons(b, c);
    LastLine(c);
  }

  lemma BeforeRead(comment: string)
    requires IsComment(comment) && |comment| == 8174
    ensures ReadAll(Before(comment), READ_BUFFER) == Before(comment)
  {
    CleanJoin(comment, "\n" + "ssid=a");
    CleanJoin("channel=6" + "\n", comment + "\n" + "ssid=a");
    assert Before(comment) == "channel=6" + "\n" + (comment + "\n" + "ssid=a");
    WholeText(Before(comment));
  }

  lemma CleanJoin(a: string, b: string)
    requires '\0' !in a && '\0' !in b
    ensures '\0' !in a + b
  {
  }

  lemma Channel36()
    ensures ChannelLine(36) == "channel=36" && ModeLine(Band24) == "hw_mode=g"
  {
    assert Digits(36) == Digits(3) + ['0' + (36 % 10) as char];
    assert Digits(3) == ['0' + (3 % 10) as char];
    assert Digits(36) == "36";
  }

  lemma BeforeRewritten(comment: string)
    requires IsComment(comment) && |comment| == 8174
    ensures RewriteFile(Before(comment), 36, Band24) == Some(Unlines(AfterLines(comment)))
    ensures |Unlines(AfterLines(comment))| == 8203
  {
    BeforeLines(comment);
    BeforeRead(comment);
    CommentIsOther(comment);
    assert IsChannel("channel=6");
    assert !IsChannel("ssid=a") && !IsMode("ssid=a");
    RewrittenThree("channel=6", comment, "ssid=a", 36, Band24);
    Channel36();
    UnlinesFour("channel=36", comment, "ssid=a", "hw_mode=g");
  }

  /** What the reader gets of the longer text: it stops right behind ssid=. */
  lemma AfterCut(comment: string)
    requires IsComment(comment) && |comment| == 8174
    ensures Lines(ReadAll(Unlines(AfterLines(comment)), READ_BUFFER)) == ["channel=36", comment, "ssid="]
  {
    var text := Unlines(AfterLines(comment));
    var seen := "channel=36" + "\n" + (comment + "\n" + "ssid=");
    UnlinesFour("channel=36", comment, "ssid=a", "hw_mode=g");
    assert text == seen + ("a" + "\n" + ("hw_mode=g" + "\n"));
    assert |seen| == READ_BUFFER - 1;
    assert text[..READ_BUFFER - 1] == seen;
    UpToNulWhole(seen);
    LinesOfThree("channel=36", comment, "ssid=");
  }

  /** A rewrite that succeeds can lose the SSID: a text of 8191 characters grows past what the reader takes. */
  lemma OverlongLoses(comment: string)
    requires IsComment(comment) && |comment| == 8174
    ensures var conf := Some(Before(comment));
            var after := Rewrite(conf, 36, Band24, Whole);
            && after.1
            && Credentials(conf, 64, 128).Some? && Credentials(conf, 64, 128).value.0 == "a"
            && Credentials(after.0, 64, 128).Some? && Credentials(after.0, 64, 128).value.0 == ""
  {
    BeforeLines(comment);
    BeforeRead(comment);
    BeforeRewritten(comment);
    AfterCut(comment);
    SsidGiven(["channel=6", comment, "ssid=a"], "a", 64, 128);
    SsidGiven(["channel=36", comment, "ssid="], "", 64, 128);
  }

  /** One such file. */
  lemma OverlongExample()
    ensures var conf := Some(Before(seq(8174, _ => '#')));
            var after := Rewrite(conf, 36, Band24, Whole);
            && after.1
            && Credentials(conf, 64, 128).Some? && Credentials(conf, 64, 128).value.0 == "a"
            && Credentials(after.0, 64, 128).Some? && Credentials(after.0, 64, 128).value.0 == ""
  {
    var comment := seq(8174, _ => '#');
    assert IsComment(comment);
    OverlongLoses(comment);
  }

  lemma ShortRewrite()
    ensures RewriteFile("ssid=a", 6, Band24).Some? && |RewriteFile("ssid=a", 6, Band24).value| < READ_BUFFER
  {
    WholeText("ssid=a");
    LastLine("ssid=a");
    var lines := ["ssid=a"];
    ReplacedAt(lines, 6, Band24);
    assert Replaced(lines, 6, Band24) == [NewLine("ssid=a", 6, Band24)];
    assert |Digits(6)| == 1;
    UnlinesSnoc([], "ssid=a");
    assert [] + ["ssid=a"] == lines;
    assert !IsChannel("ssid=a") && !IsMode("ssid=a");
    UnlinesSnoc(lines, ChannelLine(6));
    UnlinesSnoc(lines + [ChannelLine(6)], ModeLine(Band24));
  }

  /** A file with an SSID, and a write that stops right after emptying it. */
  lemma CutShortLoses()
    ensures var conf := Some("ssid=a");
            && Credentials(conf, 64, 128).Some?
            && Credentials(Rewrite(conf, 6, Band24, CutShort(0)).0, 64, 128).None?
  {
    WholeText("ssid=a");
    LastLine("ssid=a");
    SsidGiven(["ssid=a"], "a", 64, 128);
    ShortRewrite();
    EmptyGivesNone(64, 128);
  }
}
