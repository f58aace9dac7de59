/** The access-point configuration file of system_service/wifi_switch.c: rewriting its channel and mode, and
    reading the credentials that the rewriting must leave alone. */
module Hostapd {
  import opened Bytes
  import opened Text

  const READ_BUFFER := 8192
  const WRITE_BUFFER := 9216

  datatype Band = Band24 | Band5

  /** "%d". */
  function Digits(n: nat): (s: string)
    ensures s != "" && forall i :: 0 <= i < |s| ==> '0' <= s[i] <= '9'
  {
    var last := ['0' + (n % 10) as char];
    if n < 10 then last else Digits(n / 10) + last
  }

  function Decimal(n: int): (s: string)
    ensures '\n' !in s && '\0' !in s
  {
    if n < 0 then "-" + Digits(-n) else Digits(n)
  }

  function ChannelLine(channel: int): string {
    "channel=" + Decimal(channel)
  }

  function ModeLine(band: Band): string {
    "hw_mode=" + (if band.Band5? then "a" else "g")
  }

  predicate IsChannel(line: string) {
    "channel=" <= LStrip(line)
  }

  predicate IsMode(line: string) {
    "hw_mode=" <= LStrip(line)
  }

  function NewLine(line: string, channel: int, band: Band): string {
    if IsChannel(line) then ChannelLine(channel)
    else if IsMode(line) then ModeLine(band)
    else line
  }

  function Replaced(lines: seq<string>, channel: int, band: Band): seq<string> {
    if lines == [] then []
    else Replaced(lines[..|lines| - 1], channel, band) + [NewLine(lines[|lines| - 1], channel, band)]
  }

  predicate HasChannel(lines: seq<string>) {
    exists i :: 0 <= i < |lines| && IsChannel(lines[i])
  }

  predicate HasMode(lines: seq<string>) {
    exists i :: 0 <= i < |lines| && IsMode(lines[i])
  }

  function WithChannel(lines: seq<string>, had: bool, channel: int): seq<string> {
    if had then lines else lines + [ChannelLine(channel)]
  }

  function WithMode(lines: seq<string>, had: bool, band: Band): seq<string> {
    if had then lines else lines + [ModeLine(band)]
  }

  /** The lines of the rewritten file. */
  function Rewritten(lines: seq<string>, channel: int, band: Band): seq<string> {
    WithMode(WithChannel(Replaced(lines, channel, band), HasChannel(lines), channel), HasMode(lines), band)
  }

  /** The text of the rewritten file, unless it does not fit. */
  function RewriteFile(content: string, channel: int, band: Band): Option<string> {
    var text := Unlines(Rewritten(Lines(ReadAll(content, READ_BUFFER)), channel, band));
    if |text| < WRITE_BUFFER then Some(text) else None
  }

  /** snprintf of one line into what is left of the buffer. */
  method Append(out: string, line: string) returns (r: Option<string>)
    ensures r == if |out + line + "\n"| < WRITE_BUFFER then Some(out + line + "\n") else None
  {
    var written := |line| + 1;
    if written >= WRITE_BUFFER - |out| {
      return None;
    }
    return Some(out + line + "\n");
  }

  /** The loop over the lines; None on overflow. */
  method ReplaceLines(lines: seq<string>, channel: int, band: Band)
    returns (out: Option<string>, replacedChannel: bool, replacedMode: bool)
    ensures out.Some? ==> out.value == Unlines(Replaced(lines, channel, band)) && |out.value| < WRITE_BUFFER
    ensures out.Some? ==> replacedChannel == HasChannel(lines) && replacedMode == HasMode(lines)
    ensures out.None? ==> |Unlines(Replaced(lines, channel, band))| >= WRITE_BUFFER
  {
    var text := "";
    replacedChannel, replacedMode := false, false;
    var i := 0;
    while i < |lines|
      invariant 0 <= i <= |lines|
      invariant text == Unlines(Replaced(lines[..i], channel, band))
      invariant |text| < WRITE_BUFFER
      invariant replacedChannel == HasChannel(lines[..i]) && replacedMode == HasMode(lines[..i])
    {
      ReplacedStep(lines, i, channel, band);
      HasStep(lines, i);
      var line := lines[i];
      if IsChannel(lines[i]) {
        line, replacedChannel := ChannelLine(channel), true;
      } else if IsMode(lines[i]) {
        line, replacedMode := ModeLine(band), true;
      }
      ModeIsNotChannel(lines[i]);
      out := Append(text, line);
      if out.None? {
        PrefixShorter(lines, i + 1, channel, band);
        return;
      }
      text := out.value;
      i := i + 1;
    }
    assert lines[..|lines|] == lines;
    out := Some(text);
  }

  /** How writing the file back goes: whole, not at all because it cannot be opened, or cut short after it
      was emptied. */
  datatype Writing = Whole | Unopened | CutShort(n: nat)

  function Written(conf: string, text: string, w: Writing): string {
    match w
    case Whole => text
    case Unopened => conf
    case CutShort(n) => text[..Min(n, |text|)]
  }

  /** The file after rewrite_hostapd_channel, and whether it reports success; None is a file that cannot be
      read. */
  function Rewrite(conf: Option<string>, channel: int, band: Band, w: Writing): (Option<string>, bool) {
    if conf.None? || RewriteFile(conf.value, channel, band).None? then (conf, false)
    else (Some(Written(conf.value, RewriteFile(conf.value, channel, band).value, w)), w.Whole?)
  }

  /** rewrite_hostapd_channel. */
  method RewriteHostapdChannel(conf: Option<string>, channel: int, band: Band, w: Writing)
    returns (conf': Option<string>, ok: bool)
    ensures (conf', ok) == Rewrite(conf, channel, band, w)
  {
    if conf.None? {
      return conf, false;
    }
    var text := RewriteText(conf.value, channel, band);
    if text.None? {
      return conf, false;
    }
    return Some(Written(conf.value, text.value, w)), w.Whole?;
  }

  /** The text that is written back; None on overflow. */
  method RewriteText(content: string, channel: int, band: Band) returns (text: Option<string>)
    ensures text == RewriteFile(content, channel, band)
  {
    var lines := Lines(ReadAll(content, READ_BUFFER));
    var out, replacedChannel, replacedMode := ReplaceLines(lines, channel, band);
    AppendedLonger(lines, channel, band);
    if out.None? {
      return None;
    }
    ghost var all := Replaced(lines, channel, band);
    if !replacedChannel {
      UnlinesSnoc(all, ChannelLine(channel));
      out := Append(out.value, ChannelLine(channel));
      if out.None? {
        return None;
      }
    }
    if !replacedMode {
      UnlinesSnoc(WithChannel(all, HasChannel(lines), channel), ModeLine(band));
      out := Append(out.value, ModeLine(band));
    }
    return out;
  }

  lemma ModeIsNotChannel(line: string)
    ensures !(IsChannel(line) && IsMode(line))
  {
    if IsChannel(line) {
      assert LStrip(line)[0] == "channel="[0];
    }
  }

  lemma ReplacedStep(lines: seq<string>, i: nat, channel: int, band: Band)
    requires i < |lines|
    ensures Replaced(lines[..i + 1], channel, band)
         == Replaced(lines[..i], channel, band) + [NewLine(lines[i], channel, band)]
    ensures Unlines(Replaced(lines[..i + 1], channel, band))
         == Unlines(Replaced(lines[..i], channel, band)) + NewLine(lines[i], channel, band) + "\n"
  {
    assert lines[..i + 1][..i] == lines[..i];
    UnlinesSnoc(Replaced(lines[..i], channel, band), NewLine(lines[i], channel, band));
  }

  lemma HasStep(lines: seq<string>, i: nat)
    requires i < |lines|
    ensures HasChannel(lines[..i + 1]) <==> HasChannel(lines[..i]) || IsChannel(lines[i])
    ensures HasMode(lines[..i + 1]) <==> HasMode(lines[..i]) || IsMode(lines[i])
  {
    var was, now := lines[..i], lines[..i + 1];
    assert now[i] == lines[i];
    assert forall j :: 0 <= j < i ==> now[j] == was[j];
  }

  lemma AppendedLonger(lines: seq<string>, channel: int, band: Band)
    ensures var some := WithChannel(Replaced(lines, channel, band), HasChannel(lines), channel);
            |Unlines(Replaced(lines, channel, band))| <= |Unlines(some)| <= |Unlines(Rewritten(lines, channel, band))|
  {
    var all := Replaced(lines, channel, band);
    UnlinesSnoc(all, ChannelLine(channel));
    UnlinesSnoc(WithChannel(all, HasChannel(lines), channel), ModeLine(band));
  }

  lemma {:induction false} ReplacedPrefix(lines: seq<string>, i: nat, channel: int, band: Band)
    requires i <= |lines|
    ensures |Replaced(lines, channel, band)| == |lines|
    ensures Replaced(lines[..i], channel, band) == Replaced(lines, channel, band)[..i]
  {
    if i == |lines| {
      assert lines[..i] == lines;
      if lines != [] { ReplacedPrefix(lines[..|lines| - 1], |lines| - 1, channel, band); }
    } else {
      var front := lines[..|lines| - 1];
      ReplacedPrefix(front, i, channel, band);
      assert front[..i] == lines[..i];
    }
  }

  lemma PrefixShorter(lines: seq<string>, i: nat, channel: int, band: Band)
    requires i <= |lines|
    ensures |Unlines(Replaced(lines[..i], channel, band))| <= |Unlines(Replaced(lines, channel, band))|
  {
    ReplacedPrefix(lines, i, channel, band);
    UnlinesPrefix(Replaced(lines, channel, band), i);
  }

  // ---------- what the rewritten file holds ----------

  lemma NewLinesAreThemselves(channel: int, band: Band)
    ensures LStrip(ChannelLine(channel)) == ChannelLine(channel) && IsChannel(ChannelLine(channel))
    ensures LStrip(ModeLine(band)) == ModeLine(band) && IsMode(ModeLine(band))
    ensures IsLine(ChannelLine(channel)) && IsLine(ModeLine(band))
    ensures '\0' !in ChannelLine(channel) && '\0' !in ModeLine(band)
  {
    assert ChannelLine(channel)[0] == 'c';
    assert ModeLine(band)[0] == 'h';
  }

  lemma {:induction false} ReplacedAt(lines: seq<string>, channel: int, band: Band)
    ensures |Replaced(lines, channel, band)| == |lines|
    ensures forall i :: 0 <= i < |lines| ==> Replaced(lines, channel, band)[i] == NewLine(lines[i], channel, band)
  {
    if lines == [] {
    } else {
      var front := lines[..|lines| - 1];
      ReplacedAt(front, channel, band);
      var was, now := Replaced(front, channel, band), Replaced(lines, channel, band);
      assert now == was + [NewLine(lines[|lines| - 1], channel, band)];
      forall i | 0 <= i < |lines|
        ensures now[i] == NewLine(lines[i], channel, band)
      {
        if i < |front| { assert now[i] == was[i] && lines[i] == front[i]; }
      }
    }
  }

  predicate AsRequested(line: string, channel: int, band: Band) {
    (IsChannel(line) ==> line == ChannelLine(channel)) && (IsMode(line) ==> line == ModeLine(band))
  }

  lemma NewLineAsRequested(line: string, channel: int, band: Band)
    ensures AsRequested(NewLine(line, channel, band), channel, band)
    ensures IsChannel(NewLine(line, channel, band)) <==> IsChannel(line)
    ensures IsMode(NewLine(line, channel, band)) <==> IsMode(line)
  {
    NewLinesAreThemselves(channel, band);
    ModeIsNotChannel(line);
    ModeIsNotChannel(ChannelLine(channel));
    ModeIsNotChannel(ModeLine(band));
  }

  /** Every channel and mode line carries the requested value, and there is at least one of each. */
  lemma RewrittenAsRequested(lines: seq<string>, channel: int, band: Band)
    ensures var r := Rewritten(lines, channel, band);
            && (forall i :: 0 <= i < |r| ==> AsRequested(r[i], channel, band))
            && ChannelLine(channel) in r && ModeLine(band) in r
  {
    var all := Replaced(lines, channel, band);
    var r := Rewritten(lines, channel, band);
    ReplacedAt(lines, channel, band);
    NewLineAsRequested(ChannelLine(channel), channel, band);
    NewLineAsRequested(ModeLine(band), channel, band);
    NewLinesAreThemselves(channel, band);
    forall i | 0 <= i < |r|
      ensures AsRequested(r[i], channel, band)
    {
      if i < |lines| {
        assert r[i] == all[i];
        NewLineAsRequested(lines[i], channel, band);
      }
    }
    if HasChannel(lines) {
      var i :| 0 <= i < |lines| && IsChannel(lines[i]);
      assert r[i] == all[i] == ChannelLine(channel);
    } else {
      assert r[|lines|] == ChannelLine(channel);
    }
    if HasMode(lines) {
      var i :| 0 <= i < |lines| && IsMode(lines[i]);
      ModeIsNotChannel(lines[i]);
      assert r[i] == all[i] == ModeLine(band);
    } else {
      assert r[|r| - 1] == ModeLine(band);
    }
  }

  /** The lines that are neither. */
  function Others(lines: seq<string>): seq<string> {
    if lines == [] then []
    else
      var line := lines[|lines| - 1];
      Others(lines[..|lines| - 1]) + (if IsChannel(line) || IsMode(line) then [] else [line])
  }

  lemma OthersSnoc(lines: seq<string>, line: string)
    ensures Others(lines + [line]) == if IsChannel(line) || IsMode(line) then Others(lines) else Others(lines) + [line]
  {
    assert (lines + [line])[..|lines|] == lines;
  }

  lemma {:induction false} ReplacedKeepsOthers(lines: seq<string>, channel: int, band: Band)
    ensures Others(Replaced(lines, channel, band)) == Others(lines)
  {
    if lines == [] {
    } else {
      var front, line := lines[..|lines| - 1], lines[|lines| - 1];
      ReplacedKeepsOthers(front, channel, band);
      NewLineAsRequested(line, channel, band);
      OthersSnoc(Replaced(front, channel, band), NewLine(line, channel, band));
    }
  }

  /** Every other line is kept, in order, and nothing else is added. */
  lemma RewrittenKeepsOthers(lines: seq<string>, channel: int, band: Band)
    ensures Others(Rewritten(lines, channel, band)) == Others(lines)
  {
    ReplacedKeepsOthers(lines, channel, band);
    NewLinesAreThemselves(channel, band);
    var all := Replaced(lines, channel, band);
    OthersSnoc(all, ChannelLine(channel));
    OthersSnoc(WithChannel(all, HasChannel(lines), channel), ModeLine(band));
  }

  lemma ReplacedUnchanged(lines: seq<string>, channel: int, band: Band)
    requires forall i :: 0 <= i < |lines| ==> AsRequested(lines[i], channel, band)
    ensures Replaced(lines, channel, band) == lines
  {
    ReplacedAt(lines, channel, band);
  }

  lemma RewrittenTwice(lines: seq<string>, channel: int, band: Band)
    ensures var r := Rewritten(lines, channel, band); Rewritten(r, channel, band) == r
  {
    var r := Rewritten(lines, channel, band);
    RewrittenAsRequested(lines, channel, band);
    ReplacedUnchanged(r, channel, band);
    NewLinesAreThemselves(channel, band);
  }

  // ---------- credentials ----------

  datatype ApCreds = ApCreds(gotSsid: bool, ssid: string, pwd: string)

  function Store(s: string, size: nat): string {
    if size == 0 then "" else Fit(s, size)
  }

  function ReadApLine(h: ApCreds, line: string, ssidSize: nat, pwdSize: nat): ApCreds {
    var t := LStrip(line);
    if t == "" || t[0] == '#' then h
    else if "ssid=" <= t then h.(gotSsid := true, ssid := Store(RStrip(LStrip(t[5..])), ssidSize))
    else if "wpa_passphrase=" <= t then h.(pwd := Store(RStrip(LStrip(t[15..])), pwdSize))
    else h
  }

  function ReadApLines(lines: seq<string>, ssidSize: nat, pwdSize: nat): ApCreds {
    if lines == [] then ApCreds(false, "", "")
    else ReadApLine(ReadApLines(lines[..|lines| - 1], ssidSize, pwdSize), lines[|lines| - 1], ssidSize, pwdSize)
  }

  /** What wifi_switch_get_ap_credentials returns; None for a file that cannot be read or has no ssid= line. */
  function Credentials(conf: Option<string>, ssidSize: nat, pwdSize: nat): Option<(string, string)> {
    if conf.None? then None
    else
      var h := ReadApLines(Lines(ReadAll(conf.value, READ_BUFFER)), ssidSize, pwdSize);
      if h.gotSsid then Some((h.ssid, h.pwd)) else None
  }

  method GetApCredentials(conf: Option<string>, ssidSize: nat, pwdSize: nat)
    returns (creds: Option<(string, string)>)
    ensures creds == Credentials(conf, ssidSize, pwdSize)
  {
    if conf.None? {
      return None;
    }
    var ssid, pwd, gotSsid := "", "", false;
    var lines := Lines(ReadAll(conf.value, READ_BUFFER));
    var i := 0;
    while i < |lines|
      invariant 0 <= i <= |lines|
      invariant ApCreds(gotSsid, ssid, pwd) == ReadApLines(lines[..i], ssidSize, pwdSize)
    {
      assert lines[..i + 1][..i] == lines[..i];
      var t := LStrip(lines[i]);
      i := i + 1;
      if t == "" || t[0] == '#' {
        continue;
      }
      if "ssid=" <= t {
        ssid, gotSsid := Store(RStrip(LStrip(t[5..])), ssidSize), true;
      } else if "wpa_passphrase=" <= t {
        pwd := Store(RStrip(LStrip(t[15..])), pwdSize);
      }
    }
    assert lines[..|lines|] == lines;
    return if gotSsid then Some((ssid, pwd)) else None;
  }

  /** Channel and mode lines say nothing about the credentials. */
  lemma NoCredentials(h: ApCreds, line: string, ssidSize: nat, pwdSize: nat)
    requires IsChannel(line) || IsMode(line)
    ensures ReadApLine(h, line, ssidSize, pwdSize) == h
  {
    var t := LStrip(line);
    if IsChannel(line) { assert t[0] == "channel="[0]; } else { assert t[0] == "hw_mode="[0]; }
    assert t[0] != "ssid="[0] && t[0] != "wpa_passphrase="[0];
  }

  lemma {:induction false} OnlyOthersCount(lines: seq<string>, ssidSize: nat, pwdSize: nat)
    ensures ReadApLines(lines, ssidSize, pwdSize) == ReadApLines(Others(lines), ssidSize, pwdSize)
  {
    if lines == [] {
    } else {
      var front, line := lines[..|lines| - 1], lines[|lines| - 1];
      OnlyOthersCount(front, ssidSize, pwdSize);
      if IsChannel(line) || IsMode(line) {
        NoCredentials(ReadApLines(front, ssidSize, pwdSize), line, ssidSize, pwdSize);
        assert Others(lines) == Others(front);
      } else {
        assert (Others(front) + [line])[..|Others(front)|] == Others(front);
      }
    }
  }

  // ---------- the file read again ----------

  lemma RewrittenReadable(content: string, channel: int, band: Band)
    ensures var r := Rewritten(Lines(ReadAll(content, READ_BUFFER)), channel, band);
            Readable(r)
  {
    var text := ReadAll(content, READ_BUFFER);
    var lines := Lines(text);
    UpToNulClean(content[..Min(|content|, READ_BUFFER - 1)]);
    LinesWithin(text, '\0');
    ReplacedAt(lines, channel, band);
    NewLinesAreThemselves(channel, band);
    var r := Rewritten(lines, channel, band);
    forall i | 0 <= i < |r|
      ensures IsLine(r[i]) && '\0' !in r[i]
    {
      if i < |lines| { assert r[i] == NewLine(lines[i], channel, band); }
    }
  }

  lemma ReadAgain(content: string, channel: int, band: Band)
    requires RewriteFile(content, channel, band).Some?
    requires |RewriteFile(content, channel, band).value| < READ_BUFFER
    ensures Lines(ReadAll(RewriteFile(content, channel, band).value, READ_BUFFER))
         == Rewritten(Lines(ReadAll(content, READ_BUFFER)), channel, band)
  {
    var r := Rewritten(Lines(ReadAll(content, READ_BUFFER)), channel, band);
    RewrittenReadable(content, channel, band);
    ReadsBack(r, READ_BUFFER);
  }

  /** A rewritten file that the reader can hold is rewritten to itself, keeps the other lines of what it was
      made from, and yields the same credentials. */
  lemma RewriteIsStable(content: string, channel: int, band: Band, ssidSize: nat, pwdSize: nat)
    requires RewriteFile(content, channel, band).Some?
    requires |RewriteFile(content, channel, band).value| < READ_BUFFER
    ensures var again := RewriteFile(content, channel, band).value;
            && RewriteFile(again, channel, band) == Some(again)
            && Others(Lines(ReadAll(again, READ_BUFFER))) == Others(Lines(ReadAll(content, READ_BUFFER)))
            && Credentials(Some(again), ssidSize, pwdSize) == Credentials(Some(content), ssidSize, pwdSize)
  {
    var lines := Lines(ReadAll(content, READ_BUFFER));
    var r := Rewritten(lines, channel, band);
    ReadAgain(content, channel, band);
    RewrittenTwice(lines, channel, band);
    RewrittenKeepsOthers(lines, channel, band);
    OnlyOthersCount(lines, ssidSize, pwdSize);
    OnlyOthersCount(r, ssidSize, pwdSize);
  }

  /** What a caller of rewrite_hostapd_channel can rely on.  Success leaves a file with the requested lines
      and, if the reader can hold it, unchanged credentials that further calls keep.  Failure before the file
      is opened for writing leaves it as it was. */
  lemma RewriteOutcome(conf: Option<string>, channel: int, band: Band, w: Writing, ssidSize: nat, pwdSize: nat)
    ensures var (conf', ok) := Rewrite(conf, channel, band, w);
            && (ok <==> conf.Some? && RewriteFile(conf.value, channel, band).Some? && w.Whole?)
            && (!ok && !w.CutShort? ==> conf' == conf)
            && (ok && |conf'.value| < READ_BUFFER ==>
                  && ChannelLine(channel) in Lines(ReadAll(conf'.value, READ_BUFFER))
                  && ModeLine(band) in Lines(ReadAll(conf'.value, READ_BUFFER))
                  && Credentials(conf', ssidSize, pwdSize) == Credentials(conf, ssidSize, pwdSize)
                  && Rewrite(conf', channel, band, w) == (conf', true))
  {
    var (conf', ok) := Rewrite(conf, channel, band, w);
    if ok && |conf'.value| < READ_BUFFER {
      RewriteIsStable(conf.value, channel, band, ssidSize, pwdSize);
      ReadAgain(conf.value, channel, band);
      RewrittenAsRequested(Lines(ReadAll(conf.value, READ_BUFFER)), channel, band);
    }
  }
}
