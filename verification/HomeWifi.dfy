/** The home-network credentials file of system_service/wifi_switch.c: how it is read, how it is written,
    and what a reader sees while it is being replaced. */
module HomeWifi {
  import opened Bytes
  import opened Text

  const READ_BUFFER := 2048
  const RENDER_BUFFER := 1024

  const TITLE := "# Taishan home " + "WiFi credentials."
  const NOTICE := "# Managed by " + "system_service; " + "rewritten when BLE " + "provisioning succeeds."

  // ---------- reading ----------

  /** strchr(s, c). */
  function Find(s: string, c: char): (i: Option<nat>)
    ensures i.Some? ==> i.value < |s| && s[i.value] == c && c !in s[..i.value]
    ensures i.None? ==> c !in s
  {
    if s == [] then None
    else if s[0] == c then Some(0)
    else
      match Find(s[1..], c)
      case None => None
      case Some(k) => assert s[..k + 1] == [s[0]] + s[1..][..k]; Some(k + 1)
  }

  /** One layer of matching quotes is removed. */
  function StripQuotes(s: string): string {
    if |s| >= 2 && ((s[0] == '"' && s[|s| - 1] == '"') || (s[0] == '\'' && s[|s| - 1] == '\''))
    then s[1..|s| - 1] else s
  }

  /** The key and value of a line; None for comments and lines without '='. */
  function Assignment(line: string): Option<(string, string)> {
    var t := RStrip(LStrip(line));
    if t == "" || t[0] == '#' then None
    else
      match Find(t, '=')
      case None => None
      case Some(eq) => Some((RStrip(t[..eq]), StripQuotes(RStrip(LStrip(t[eq + 1..])))))
  }

  datatype Home = Home(haveSsid: bool, ssid: string, pwd: string)

  const UNREAD := Home(false, "", "")

  function ReadLine(h: Home, line: string, ssidSize: nat, pwdSize: nat): Home
    requires ssidSize > 0 && pwdSize > 0
  {
    match Assignment(line)
    case None => h
    case Some((key, value)) =>
      if key == "HOME_SSID" then h.(haveSsid := true, ssid := Fit(value, ssidSize))
      else if key == "HOME_PASSWORD" then h.(pwd := Fit(value, pwdSize))
      else h
  }

  function ReadLines(lines: seq<string>, ssidSize: nat, pwdSize: nat): Home
    requires ssidSize > 0 && pwdSize > 0
  {
    if lines == [] then UNREAD
    else ReadLine(ReadLines(lines[..|lines| - 1], ssidSize, pwdSize), lines[|lines| - 1], ssidSize, pwdSize)
  }

  /** What a reader gets from the file; None if it is missing or holds no SSID. */
  function Read(conf: Option<string>, ssidSize: nat, pwdSize: nat): Option<(string, string)>
    requires ssidSize > 0 && pwdSize > 0
  {
    if conf.None? then None
    else
      var h := ReadLines(Lines(ReadAll(conf.value, READ_BUFFER)), ssidSize, pwdSize);
      if !h.haveSsid || h.ssid == "" then None else Some((h.ssid, h.pwd))
  }

  /** read_home_wifi. */
  method ReadHomeWifi(conf: Option<string>, ssidSize: nat, pwdSize: nat) returns (creds: Option<(string, string)>)
    requires ssidSize > 0 && pwdSize > 0
    ensures creds == Read(conf, ssidSize, pwdSize)
  {
    if conf.None? {
      return None;
    }
    var ssid, pwd, haveSsid := "", "", false;
    var lines := Lines(ReadAll(conf.value, READ_BUFFER));
    var i := 0;
    while i < |lines|
      invariant 0 <= i <= |lines|
      invariant Home(haveSsid, ssid, pwd) == ReadLines(lines[..i], ssidSize, pwdSize)
    {
      assert lines[..i + 1][..i] == lines[..i];
      var t := RStrip(LStrip(lines[i]));
      i := i + 1;
      if t == "" || t[0] == '#' {
        continue;
      }
      var eq := Find(t, '=');
      if eq.None? {
        continue;
      }
      var key := RStrip(t[..eq.value]);
      var value := StripQuotes(RStrip(LStrip(t[eq.value + 1..])));
      if key == "HOME_SSID" {
        ssid, haveSsid := Fit(value, ssidSize), true;
      } else if key == "HOME_PASSWORD" {
        pwd := Fit(value, pwdSize);
      }
    }
    assert lines[..|lines|] == lines;
    return if !haveSsid || ssid == "" then None else Some((ssid, pwd));
  }

  // ---------- writing ----------

  function Quoted(key: string, value: string): string {
    key + "=\"" + value + "\""
  }

  function Rendered(ssid: string, pwd: string): seq<string> {
    [TITLE, NOTICE, Quoted("HOME_SSID", ssid), Quoted("HOME_PASSWORD", pwd)]
  }

  /** The text to be written; None when wifi_switch_persist_home_wifi refuses. */
  function Render(ssid: string, pwd: Option<string>): Option<string> {
    var p := if pwd.Some? then pwd.value else "";
    if ssid == "" || '"' in ssid || '"' in p then None
    else if |Unlines(Rendered(ssid, p))| >= RENDER_BUFFER then None
    else Some(Unlines(Rendered(ssid, p)))
  }

  // ---------- reading back what was written ----------

  lemma {:induction false} FindAfterKey(key: string, rest: string)
    requires '=' !in key
    ensures Find(key + "=" + rest, '=') == Some(|key|)
  {
    var s := key + "=" + rest;
    if key == [] {
    } else {
      assert s[0] == key[0] && key[0] in key;
      assert s[1..] == key[1..] + "=" + rest;
      FindAfterKey(key[1..], rest);
    }
  }

  lemma AssignmentOf(line: string, key: string, rest: string)
    requires line == key + "=" + rest
    requires key != "" && '=' !in key && !IsBlank(key[0]) && key[0] != '#' && !IsTrailing(key[|key| - 1])
    requires !IsTrailing(line[|line| - 1])
    ensures Assignment(line) == Some((key, StripQuotes(RStrip(LStrip(rest)))))
  {
    FindAfterKey(key, rest);
    assert line[0] == key[0];
    assert RStrip(LStrip(line)) == line;
    assert line[..|key|] == key && line[|key| + 1..] == rest;
  }

  lemma QuotedValue(value: string)
    ensures var v := "\"" + value + "\""; StripQuotes(RStrip(LStrip(v))) == value
  {
    var v := "\"" + value + "\"";
    assert v[0] == '"' && v[|v| - 1] == '"';
    assert v[1..|v| - 1] == value;
  }

  lemma AssignmentQuoted(key: string, value: string)
    requires key != "" && '=' !in key && !IsBlank(key[0]) && key[0] != '#' && !IsTrailing(key[|key| - 1])
    ensures Assignment(Quoted(key, value)) == Some((key, value))
  {
    var rest := "\"" + value + "\"";
    assert Quoted(key, value) == key + "=" + rest;
    AssignmentOf(Quoted(key, value), key, rest);
    QuotedValue(value);
  }

  lemma {:induction false} RStripFirst(s: string)
    requires s != "" && !IsTrailing(s[0])
    ensures RStrip(s) != "" && RStrip(s)[0] == s[0]
  {
    if !IsTrailing(s[|s| - 1]) {
    } else {
      RStripFirst(s[..|s| - 1]);
    }
  }

  lemma CommentIgnored(line: string)
    requires line != "" && line[0] == '#'
    ensures Assignment(line).None?
  {
    RStripFirst(line);
  }

  lemma ReadSnoc(lines: seq<string>, line: string, ssidSize: nat, pwdSize: nat)
    requires ssidSize > 0 && pwdSize > 0
    ensures ReadLines(lines + [line], ssidSize, pwdSize)
         == ReadLine(ReadLines(lines, ssidSize, pwdSize), line, ssidSize, pwdSize)
  {
    assert (lines + [line])[..|lines|] == lines;
  }

  lemma ReadFour(a: string, b: string, c: string, d: string, ssidSize: nat, pwdSize: nat)
    requires ssidSize > 0 && pwdSize > 0
    requires Assignment(a).None? && Assignment(b).None?
    requires Assignment(c).Some? && Assignment(c).value.0 == "HOME_SSID"
    requires Assignment(d).Some? && Assignment(d).value.0 == "HOME_PASSWORD"
    ensures ReadLines([a, b, c, d], ssidSize, pwdSize)
         == Home(true, Fit(Assignment(c).value.1, ssidSize), Fit(Assignment(d).value.1, pwdSize))
  {
    ReadSnoc([], a, ssidSize, pwdSize);
    ReadSnoc([a], b, ssidSize, pwdSize);
    ReadSnoc([a, b], c, ssidSize, pwdSize);
    ReadSnoc([a, b, c], d, ssidSize, pwdSize);
    assert [] + [a] == [a] && [a] + [b] == [a, b] && [a, b] + [c] == [a, b, c] && [a, b, c] + [d] == [a, b, c, d];
  }

  lemma ReadRendered(ssid: string, pwd: string, ssidSize: nat, pwdSize: nat)
    requires ssidSize > 0 && pwdSize > 0
    ensures ReadLines(Rendered(ssid, pwd), ssidSize, pwdSize) == Home(true, Fit(ssid, ssidSize), Fit(pwd, pwdSize))
  {
    CommentIgnored(TITLE);
    CommentIgnored(NOTICE);
    AssignmentQuoted("HOME_SSID", ssid);
    AssignmentQuoted("HOME_PASSWORD", pwd);
    ReadFour(TITLE, NOTICE, Quoted("HOME_SSID", ssid), Quoted("HOME_PASSWORD", pwd), ssidSize, pwdSize);
  }

  lemma TitleReadable()
    ensures ReadableLine(TITLE)
  {
    assert ReadableLine("# Taishan home ");
    assert ReadableLine("WiFi credentials.");
    ReadableJoin("# Taishan home ", "WiFi credentials.");
  }

  lemma NoticeReadable()
    ensures ReadableLine(NOTICE)
  {
    var a, b, c, d := "# Managed by ", "system_service; ", "rewritten when BLE ", "provisioning succeeds.";
    NoticeStartReadable();
    NoticeEndReadable();
    ReadableJoin(a, b);
    ReadableJoin(a + b, c);
    ReadableJoin(a + b + c, d);
  }

  lemma NoticeStartReadable()
    ensures ReadableLine("# Managed by ") && ReadableLine("system_service; ")
  {
  }

  lemma NoticeEndReadable()
    ensures ReadableLine("rewritten when BLE ") && ReadableLine("provisioning succeeds.")
  {
  }

  lemma ReadableJoin(a: string, b: string)
    requires ReadableLine(a) && ReadableLine(b)
    ensures ReadableLine(a + b)
  {
  }

  lemma QuotedReadable(key: string, value: string)
    requires ReadableLine(key) && '\n' !in value && '\0' !in value
    ensures ReadableLine(Quoted(key, value))
  {
  }

  lemma RenderedReadable(ssid: string, pwd: string)
    requires '\n' !in ssid && '\n' !in pwd && '\0' !in ssid && '\0' !in pwd
    ensures Readable(Rendered(ssid, pwd))
  {
    TitleReadable();
    NoticeReadable();
    assert ReadableLine("HOME_SSID") && ReadableLine("HOME_PASSWORD");
    QuotedReadable("HOME_SSID", ssid);
    QuotedReadable("HOME_PASSWORD", pwd);
  }

  // ---------- values never hold a newline ----------

  lemma StripWithin(s: string, c: char)
    requires c !in s
    ensures c !in RStrip(LStrip(s))
  {
    LStripDrops(s);
    RStripDrops(LStrip(s));
  }

  lemma AssignmentWithin(line: string, c: char)
    requires c !in line && Assignment(line).Some?
    ensures c !in Assignment(line).value.1
  {
    StripWithin(line, c);
    var t := RStrip(LStrip(line));
    StripWithin(t[Find(t, '=').value + 1..], c);
  }

  lemma {:induction false} ReadWithin(lines: seq<string>, ssidSize: nat, pwdSize: nat)
    requires ssidSize > 0 && pwdSize > 0
    requires forall i :: 0 <= i < |lines| ==> '\n' !in lines[i]
    ensures var h := ReadLines(lines, ssidSize, pwdSize);
            '\n' !in h.ssid && '\n' !in h.pwd && |h.ssid| < ssidSize && |h.pwd| < pwdSize
  {
    if lines == [] {
    } else {
      ReadWithin(lines[..|lines| - 1], ssidSize, pwdSize);
      if Assignment(lines[|lines| - 1]).Some? { AssignmentWithin(lines[|lines| - 1], '\n'); }
    }
  }

  /** What is read never holds a newline and always fits. */
  lemma ReadValues(conf: Option<string>, ssidSize: nat, pwdSize: nat)
    requires ssidSize > 0 && pwdSize > 0 && Read(conf, ssidSize, pwdSize).Some?
    ensures var (ssid, pwd) := Read(conf, ssidSize, pwdSize).value;
            '\n' !in ssid && '\n' !in pwd && |ssid| < ssidSize && |pwd| < pwdSize
  {
    ReadWithin(Lines(ReadAll(conf.value, READ_BUFFER)), ssidSize, pwdSize);
  }

  lemma FitWhole(s: string, size: nat)
    requires |s| < size
    ensures Fit(s, size) == s
  {
  }

  lemma ReadOf(text: string, lines: seq<string>, ssid: string, pwd: string, ssidSize: nat, pwdSize: nat)
    requires ssidSize > 0 && pwdSize > 0 && ssid != ""
    requires Lines(ReadAll(text, READ_BUFFER)) == lines
    requires ReadLines(lines, ssidSize, pwdSize) == Home(true, ssid, pwd)
    ensures Read(Some(text), ssidSize, pwdSize) == Some((ssid, pwd))
  {
  }

  lemma ReadBack(ssid: string, pwd: string, ssidSize: nat, pwdSize: nat)
    requires '\0' !in ssid && '\0' !in pwd && '\n' !in ssid && '\n' !in pwd
    requires 0 < |ssid| < ssidSize && |pwd| < pwdSize
    requires |Unlines(Rendered(ssid, pwd))| < RENDER_BUFFER
    ensures Read(Some(Unlines(Rendered(ssid, pwd))), ssidSize, pwdSize) == Some((ssid, pwd))
  {
    RenderedReadable(ssid, pwd);
    ReadsBack(Rendered(ssid, pwd), READ_BUFFER);
    ReadRendered(ssid, pwd, ssidSize, pwdSize);
    FitWhole(ssid, ssidSize);
    FitWhole(pwd, pwdSize);
    ReadOf(Unlines(Rendered(ssid, pwd)), Rendered(ssid, pwd), ssid, pwd, ssidSize, pwdSize);
  }

  /** After a successful write the same pair is read back exactly when neither value holds a newline and
      both fit the reader's buffers. */
  lemma PersistRoundTrip(ssid: string, pwd: string, ssidSize: nat, pwdSize: nat)
    requires ssidSize > 0 && pwdSize > 0 && '\0' !in ssid && '\0' !in pwd
    requires Render(ssid, Some(pwd)).Some?
    ensures Read(Render(ssid, Some(pwd)), ssidSize, pwdSize) == Some((ssid, pwd))
            <==> '\n' !in ssid && '\n' !in pwd && |ssid| < ssidSize && |pwd| < pwdSize
  {
    var conf := Render(ssid, Some(pwd));
    if '\n' !in ssid && '\n' !in pwd && |ssid| < ssidSize && |pwd| < pwdSize {
      ReadBack(ssid, pwd, ssidSize, pwdSize);
    } else if Read(conf, ssidSize, pwdSize).Some? {
      ReadValues(conf, ssidSize, pwdSize);
    }
  }

  /** A newline in the SSID is accepted by the writer and comes back as something else. */
  lemma NewlineIsLost()
    ensures Render("a\nb", Some("")).Some?
    ensures Read(Render("a\nb", Some("")), 128, 128) != Some(("a\nb", ""))
  {
    UnlinesOfFour(TITLE, NOTICE, Quoted("HOME_SSID", "a\nb"), Quoted("HOME_PASSWORD", ""));
    PersistRoundTrip("a\nb", "", 128, 128);
    assert "a\nb"[1] == '\n';
  }

  lemma UnlinesOfFour(a: string, b: string, c: string, d: string)
    ensures |Unlines([a, b, c, d])| == |a| + |b| + |c| + |d| + 4
  {
    UnlinesSnoc([a, b, c], d);
    UnlinesSnoc([a, b], c);
    UnlinesSnoc([a], b);
    UnlinesSnoc([], a);
    assert [a, b, c] + [d] == [a, b, c, d] && [a, b] + [c] == [a, b, c] && [a] + [b] == [a, b] && [] + [a] == [a];
  }

  // ---------- replacing the file ----------

  /** The steps of atomic_write_file; `Gone` when it has returned. */
  datatype Pc = OpenTmp | Writing(done: nat) | CloseTmp(whole: bool) | RenameTmp | UnlinkTmp | Gone(ok: bool)

  /** The file, the temporary file beside it and where the writer is.  A crash is a run that stops. */
  datatype Disk = Disk(conf: Option<string>, tmp: Option<string>, pc: Pc)

  /** The outcome of a system call; `n` is how much of the text a write puts down. */
  datatype Outcome = Outcome(ok: bool, n: nat)

  function DiskStep(d: Disk, data: string, o: Outcome): Disk {
    match d.pc
    case OpenTmp => if o.ok then Disk(d.conf, Some(""), Writing(0)) else d.(pc := UnlinkTmp)
    case Writing(done) =>
      var now := Min(done + o.n, |data|);
      Disk(d.conf, Some(data[..now]),
           if !o.ok then CloseTmp(false) else if now == |data| then CloseTmp(true) else Writing(now))
    case CloseTmp(whole) => d.(pc := if whole && o.ok then RenameTmp else UnlinkTmp)
    case RenameTmp => if o.ok then Disk(d.tmp, None, Gone(true)) else d.(pc := UnlinkTmp)
    case UnlinkTmp => Disk(d.conf, if o.ok then None else d.tmp, Gone(false))
    case Gone(_) => d
  }

  function Writer(conf: Option<string>, tmp: Option<string>, data: string, run: seq<Outcome>): Disk {
    if run == [] then Disk(conf, tmp, OpenTmp)
    else DiskStep(Writer(conf, tmp, data, run[..|run| - 1]), data, run[|run| - 1])
  }

  lemma {:induction false} WriterOk(conf: Option<string>, tmp: Option<string>, data: string, run: seq<Outcome>)
    ensures var d := Writer(conf, tmp, data, run);
            && d.conf == (if d.pc == Gone(true) then Some(data) else conf)
            && (d.pc.RenameTmp? || d.pc == CloseTmp(true) ==> d.tmp == Some(data))
  {
    if run == [] {
    } else {
      WriterOk(conf, tmp, data, run[..|run| - 1]);
      assert data[..|data|] == data;
    }
  }

  /** Wherever the writer is stopped, and whatever fails, the file reads as before or as the new pair, and
      as the new pair exactly when the call returned success. */
  lemma NeverAMix(conf: Option<string>, tmp: Option<string>, ssid: string, pwd: string, run: seq<Outcome>,
                  ssidSize: nat, pwdSize: nat)
    requires '\0' !in ssid && '\0' !in pwd && '\n' !in ssid && '\n' !in pwd
    requires |ssid| < ssidSize && |pwd| < pwdSize
    requires Render(ssid, Some(pwd)).Some?
    ensures var d := Writer(conf, tmp, Render(ssid, Some(pwd)).value, run);
            Read(d.conf, ssidSize, pwdSize) ==
              if d.pc == Gone(true) then Some((ssid, pwd)) else Read(conf, ssidSize, pwdSize)
  {
    WriterOk(conf, tmp, Render(ssid, Some(pwd)).value, run);
    PersistRoundTrip(ssid, pwd, ssidSize, pwdSize);
  }

  // ---------- any number of writes, each stopped anywhere ----------

  datatype Attempt = Attempt(ssid: string, pwd: string, run: seq<Outcome>)

  predicate Storable(a: Attempt, ssidSize: nat, pwdSize: nat) {
    && '\0' !in a.ssid && '\0' !in a.pwd && '\n' !in a.ssid && '\n' !in a.pwd
    && |a.ssid| < ssidSize && |a.pwd| < pwdSize
    && Render(a.ssid, Some(a.pwd)).Some?
  }

  ghost predicate AllStorable(attempts: seq<Attempt>, ssidSize: nat, pwdSize: nat) {
    forall i :: 0 <= i < |attempts| ==> Storable(attempts[i], ssidSize, pwdSize)
  }

  /** The disk after the last attempt; each starts from what the one before left, temporary file included. */
  function Written(conf: Option<string>, tmp: Option<string>, attempts: seq<Attempt>): Disk
    requires forall i :: 0 <= i < |attempts| ==> Render(attempts[i].ssid, Some(attempts[i].pwd)).Some?
  {
    if attempts == [] then Disk(conf, tmp, Gone(false))
    else
      var d := Written(conf, tmp, attempts[..|attempts| - 1]);
      var a := attempts[|attempts| - 1];
      Writer(d.conf, d.tmp, Render(a.ssid, Some(a.pwd)).value, a.run)
  }

  function Returns(data: string, run: seq<Outcome>): Pc {
    Writer(None, None, data, run).pc
  }

  lemma {:induction false} ReturnsAnywhere(conf: Option<string>, tmp: Option<string>, data: string, run: seq<Outcome>)
    ensures Writer(conf, tmp, data, run).pc == Returns(data, run)
  {
    if run == [] {
    } else {
      ReturnsAnywhere(conf, tmp, data, run[..|run| - 1]);
    }
  }

  /** The pair of the last attempt that returned success. */
  function LastStored(before: Option<(string, string)>, attempts: seq<Attempt>): Option<(string, string)>
    requires forall i :: 0 <= i < |attempts| ==> Render(attempts[i].ssid, Some(attempts[i].pwd)).Some?
  {
    if attempts == [] then before
    else
      var a := attempts[|attempts| - 1];
      if Returns(Render(a.ssid, Some(a.pwd)).value, a.run) == Gone(true) then Some((a.ssid, a.pwd))
      else LastStored(before, attempts[..|attempts| - 1])
  }

  /** A reader always sees the last pair whose write returned success, or what was there at the start. */
  lemma {:induction false} ReaderSeesLastStored(conf: Option<string>, tmp: Option<string>, attempts: seq<Attempt>,
                                                ssidSize: nat, pwdSize: nat)
    requires ssidSize > 0 && pwdSize > 0 && AllStorable(attempts, ssidSize, pwdSize)
    ensures Read(Written(conf, tmp, attempts).conf, ssidSize, pwdSize)
         == LastStored(Read(conf, ssidSize, pwdSize), attempts)
  {
    if attempts == [] {
    } else {
      var front, a := attempts[..|attempts| - 1], attempts[|attempts| - 1];
      ReaderSeesLastStored(conf, tmp, front, ssidSize, pwdSize);
      var d := Written(conf, tmp, front);
      assert Storable(a, ssidSize, pwdSize);
      NeverAMix(d.conf, d.tmp, a.ssid, a.pwd, a.run, ssidSize, pwdSize);
      ReturnsAnywhere(d.conf, d.tmp, Render(a.ssid, Some(a.pwd)).value, a.run);
    }
  }
}
