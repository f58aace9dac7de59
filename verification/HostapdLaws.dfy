/** What the lines of the access-point configuration stand for: the mode and channel written into it, and which line
    each credential is read from. */
module HostapdLaws {
  import opened Bytes
  import opened Text
  import opened Hostapd

  // ---------- written ----------

  /** The number that decimal digits stand for. */
  function Numeral(s: string): nat {
    if s == "" then 0
    else
      var c := s[|s| - 1];
      10 * Numeral(s[..|s| - 1]) + (if '0' <= c <= '9' then c as int - '0' as int else 0)
  }

  lemma DigitValue(d: nat)
    requires d < 10
    ensures var c := '0' + d as char; '0' <= c <= '9' && c as int - '0' as int == d
  {
  }

  lemma {:induction false} DigitsRead(n: nat)
    ensures Numeral(Digits(n)) == n && (n > 0 ==> Digits(n)[0] != '0')
  {
    var s := Digits(n);
    DigitValue(n % 10);
    if n < 10 {
      assert s[..0] == "";
    } else {
      DigitsRead(n / 10);
      assert s[..|s| - 1] == Digits(n / 10);
    }
  }

  /** Afterwards there is a mode line and every mode line says a for 5 GHz and g for 2.4 GHz; there is a channel line
      and every channel line gives the channel in decimal. */
  lemma RewrittenSays(lines: seq<string>, channel: nat, band: Band)
    ensures var r, mode := Rewritten(lines, channel, band), if band == Band5 then "hw_mode=a" else "hw_mode=g";
            && mode in r && (forall i :: 0 <= i < |r| && "hw_mode=" <= LStrip(r[i]) ==> r[i] == mode)
    ensures var r := Rewritten(lines, channel, band);
            exists digits ::
              && Numeral(digits) == channel && (channel > 0 ==> digits != "" && digits[0] != '0')
              && "channel=" + digits in r
              && forall i :: 0 <= i < |r| && "channel=" <= LStrip(r[i]) ==> r[i] == "channel=" + digits
  {
    RewrittenAsRequested(lines, channel, band);
    ModeText(band);
    DigitsRead(channel);
    var r := Rewritten(lines, channel, band);
    forall i | 0 <= i < |r|
      ensures "hw_mode=" <= LStrip(r[i]) ==> r[i] == ModeLine(band)
      ensures "channel=" <= LStrip(r[i]) ==> r[i] == "channel=" + Digits(channel)
    {
      assert AsRequested(r[i], channel, band);
    }
  }

  lemma ModeText(band: Band)
    ensures ModeLine(band) == if band == Band5 then "hw_mode=a" else "hw_mode=g"
  {
  }

  // ---------- read ----------

  predicate Says(line: string, word: string) {
    word <= LStrip(line)
  }

  /** What follows the word, without white space around it. */
  function Value(line: string, word: string): string
    requires Says(line, word)
  {
    RStrip(LStrip(LStrip(line)[|word|..]))
  }

  /** What a buffer of `size` characters keeps of `s`. */
  predicate Keeps(kept: string, s: string, size: nat) {
    if size == 0 then kept == "" else kept == s[..Min(|s|, size - 1)]
  }

  /** Line `p` is the last that says the word; `p` is past the end if none does. */
  ghost predicate IsLast(lines: seq<string>, p: nat, word: string) {
    && (p < |lines| ==> Says(lines[p], word))
    && (forall q :: 0 <= q < |lines| && (p < q || p >= |lines|) ==> !Says(lines[q], word))
  }

  lemma OneWord(line: string)
    ensures !(Says(line, "ssid=") && Says(line, "wpa_passphrase="))
    ensures Says(line, "ssid=") || Says(line, "wpa_passphrase=") ==> LStrip(line) != "" && LStrip(line)[0] != '#'
  {
    var t := LStrip(line);
    assert Says(line, "ssid=") ==> t[0] == 's';
    assert Says(line, "wpa_passphrase=") ==> t[0] == 'w';
  }

  lemma ReadOne(h: ApCreds, line: string, ssidSize: nat, pwdSize: nat)
    ensures var h' := ReadApLine(h, line, ssidSize, pwdSize);
            && h'.gotSsid == (h.gotSsid || Says(line, "ssid="))
            && (if Says(line, "ssid=") then Keeps(h'.ssid, Value(line, "ssid="), ssidSize) else h'.ssid == h.ssid)
            && (if Says(line, "wpa_passphrase=") then Keeps(h'.pwd, Value(line, "wpa_passphrase="), pwdSize)
                else h'.pwd == h.pwd)
  {
    OneWord(line);
  }

  lemma LastSnoc(lines: seq<string>, a: nat, word: string) returns (p: nat)
    requires lines != [] && IsLast(lines[..|lines| - 1], a, word)
    ensures IsLast(lines, p, word)
    ensures p < |lines| <==> Says(lines[|lines| - 1], word) || a < |lines| - 1
    ensures p < |lines| ==> p == if Says(lines[|lines| - 1], word) then |lines| - 1 else a
  {
    var n := |lines| - 1;
    p := if Says(lines[n], word) then n else if a < n then a else |lines|;
    var front := lines[..n];
    forall q | 0 <= q < |lines| && (p < q || p >= |lines|)
      ensures !Says(lines[q], word)
    {
      if q < n { assert front[q] == lines[q]; }
    }
  }

  /** The SSID is that of the last ssid= line. */
  lemma {:induction false} ReadSsid(lines: seq<string>, ssidSize: nat, pwdSize: nat) returns (p: nat)
    ensures IsLast(lines, p, "ssid=")
    ensures var h := ReadApLines(lines, ssidSize, pwdSize);
            && (h.gotSsid <==> p < |lines|)
            && (p < |lines| ==> Keeps(h.ssid, Value(lines[p], "ssid="), ssidSize))
  {
    p := 0;
    if lines == [] {
    } else {
      var n := |lines| - 1;
      var a := ReadSsid(lines[..n], ssidSize, pwdSize);
      ReadOne(ReadApLines(lines[..n], ssidSize, pwdSize), lines[n], ssidSize, pwdSize);
      p := LastSnoc(lines, a, "ssid=");
    }
  }

  /** The passphrase is that of the last wpa_passphrase= line, and empty if there is none. */
  lemma {:induction false} ReadPassphrase(lines: seq<string>, ssidSize: nat, pwdSize: nat) returns (q: nat)
    ensures IsLast(lines, q, "wpa_passphrase=")
    ensures var h := ReadApLines(lines, ssidSize, pwdSize);
            if q < |lines| then Keeps(h.pwd, Value(lines[q], "wpa_passphrase="), pwdSize) else h.pwd == ""
  {
    q := 0;
    if lines == [] {
    } else {
      var n := |lines| - 1;
      var b := ReadPassphrase(lines[..n], ssidSize, pwdSize);
      ReadOne(ReadApLines(lines[..n], ssidSize, pwdSize), lines[n], ssidSize, pwdSize);
      q := LastSnoc(lines, b, "wpa_passphrase=");
    }
  }

  /** What wifi_switch_get_ap_credentials answers for a file. */
  lemma CredentialsLaw(content: string, ssidSize: nat, pwdSize: nat) returns (lines: seq<string>, p: nat, q: nat)
    ensures lines == Lines(ReadAll(content, 8192))
    ensures IsLast(lines, p, "ssid=") && IsLast(lines, q, "wpa_passphrase=")
    ensures var creds := Credentials(Some(content), ssidSize, pwdSize);
            && (creds.Some? <==> p < |lines|)
            && (p < |lines| ==> Keeps(creds.value.0, Value(lines[p], "ssid="), ssidSize))
            && (creds.Some? && q < |lines| ==> Keeps(creds.value.1, Value(lines[q], "wpa_passphrase="), pwdSize))
            && (creds.Some? && q >= |lines| ==> creds.value.1 == "")
  {
    lines := Lines(ReadAll(content, 8192));
    p := ReadSsid(lines, ssidSize, pwdSize);
    q := ReadPassphrase(lines, ssidSize, pwdSize);
  }
}
