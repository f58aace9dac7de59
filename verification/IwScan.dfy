/** The streaming parser for `iw scan` output in system_service/wifi_switch.c, and what it computes: split the
    lines into BSS blocks, sum up each block, keep the first usable ones. */
module IwScan {
  import opened Bytes
  import opened Text
  import ScanPush

  const SSID_MAX := ScanPush.SSID_MAX

  // ---------- decode_iw_ssid ----------

  predicate IsHex(c: char) {
    '0' <= c <= '9' || 'a' <= c <= 'f' || 'A' <= c <= 'F'
  }

  function HexValue(c: char): (v: nat)
    requires IsHex(c)
    ensures v < 16
  {
    if c <= '9' then c as int - '0' as int
    else if c <= 'F' then c as int - 'A' as int + 10
    else c as int - 'a' as int + 10
  }

  /** The digits in order, in either case. */
  lemma HexDigits(v: nat)
    requires v < 16
    ensures IsHex("0123456789abcdef"[v]) && HexValue("0123456789abcdef"[v]) == v
    ensures IsHex("0123456789ABCDEF"[v]) && HexValue("0123456789ABCDEF"[v]) == v
  {
  }

  function Octet(c: char): byte {
    c as int % 256
  }

  predicate AtEscape(s: string) {
    |s| >= 4 && s[0] == '\\' && s[1] == 'x' && IsHex(s[2]) && IsHex(s[3])
  }

  function First(s: string): byte
    requires s != []
  {
    if AtEscape(s) then 16 * HexValue(s[2]) + HexValue(s[3]) else Octet(s[0])
  }

  function Width(s: string): (k: nat)
    requires s != []
    ensures 1 <= k <= |s|
  {
    if AtEscape(s) then 4 else 1
  }

  /** The octets a printed SSID stands for. */
  function Decode(s: string): seq<byte> {
    if s == [] then [] else [First(s)] + Decode(s[Width(s)..])
  }

  function Cap(bytes: seq<byte>, cap: nat): seq<byte> {
    bytes[..Min(cap, |bytes|)]
  }

  method DecodeIwSsid(src: string, dst: array<byte>, cap: nat) returns (n: nat)
    requires cap <= dst.Length
    modifies dst
    ensures n <= cap && dst[..n] == Cap(Decode(src), cap)
    ensures forall i :: n <= i < dst.Length ==> dst[i] == old(dst[i])
  {
    n := 0;
    var p := 0;
    assert src[0..] == src;
    while p < |src| && n < cap
      invariant 0 <= p <= |src| && 0 <= n <= cap
      invariant Decode(src) == dst[..n] + Decode(src[p..])
      invariant forall i :: n <= i < dst.Length ==> dst[i] == old(dst[i])
    {
      DecodeStep(src, p, dst[..n]);
      dst[n] := First(src[p..]);
      p := p + Width(src[p..]);
      n := n + 1;
      assert dst[..n] == dst[..n - 1] + [dst[n - 1]];
    }
    CapIs(Decode(src), dst[..n], src[p..], cap);
  }

  lemma CapIs(whole: seq<byte>, done: seq<byte>, rest: string, cap: nat)
    requires whole == done + Decode(rest) && |done| <= cap && (rest == "" || |done| == cap)
    ensures Cap(whole, cap) == done
  {
  }

  lemma Rejoin(whole: seq<byte>, done: seq<byte>, x: byte, rest: seq<byte>)
    requires whole == done + ([x] + rest)
    ensures whole == done + [x] + rest
  {
  }

  lemma DecodeStep(src: string, p: nat, done: seq<byte>)
    requires p < |src| && Decode(src) == done + Decode(src[p..])
    ensures Decode(src) == done + [First(src[p..])] + Decode(src[p + Width(src[p..])..])
  {
    var s := src[p..];
    assert s[Width(s)..] == src[p + Width(s)..];
    Rejoin(Decode(src), done, First(s), Decode(src[p + Width(s)..]));
  }

  /** How an octet may be printed: as itself, or as \xNN with digits of either case. */
  datatype Printed = Raw(b: byte) | Hex(hi: char, lo: char) {
    predicate Valid() {
      match this
      case Raw(b) => b != 0 && b != '\\' as int
      case Hex(hi, lo) => IsHex(hi) && IsHex(lo)
    }

    function Text(): string {
      match this
      case Raw(b) => [b as char]
      case Hex(hi, lo) => ['\\', 'x', hi, lo]
    }

    function Value(): byte
      requires Valid()
    {
      match this
      case Raw(b) => b
      case Hex(hi, lo) => 16 * HexValue(hi) + HexValue(lo)
    }
  }

  ghost predicate AllPrinted(ps: seq<Printed>) {
    forall i :: 0 <= i < |ps| ==> ps[i].Valid()
  }

  function PrintedText(ps: seq<Printed>): string {
    if ps == [] then "" else ps[0].Text() + PrintedText(ps[1..])
  }

  function PrintedValue(ps: seq<Printed>): seq<byte>
    requires forall i :: 0 <= i < |ps| ==> ps[i].Valid()
  {
    if ps == [] then [] else [ps[0].Value()] + PrintedValue(ps[1..])
  }

  lemma DecodePrinted(p: Printed, rest: string)
    requires p.Valid()
    ensures Decode(p.Text() + rest) == [p.Value()] + Decode(rest)
  {
    var s := p.Text() + rest;
    match p
    case Raw(b) => assert s[1..] == rest && Octet(b as char) == b;
    case Hex(hi, lo) => assert s[4..] == rest && AtEscape(s);
  }

  /** Decoding inverts every way of printing octets. */
  lemma {:induction false} DecodeInverts(ps: seq<Printed>)
    requires AllPrinted(ps)
    ensures Decode(PrintedText(ps)) == PrintedValue(ps)
  {
    if ps == [] {
    } else {
      DecodePrinted(ps[0], PrintedText(ps[1..]));
      DecodeInverts(ps[1..]);
    }
  }

  // ---------- one line ----------

  /** The C library's number readers: strtoul cast to unsigned int, strtod cast to int. */
  datatype Numbers = Numbers(freq: string -> nat, rssi: string -> int)

  /** What a line says by its leading word. */
  datatype Field =
    | Freq(mhz: nat)
    | Signal(dbm: int)
    | Ssid(bytes: seq<byte>)
    | Capability(private: bool)
    | Rsn
    | Wpa
    | Other

  /** What a line shows: its field, and the authentication suites named anywhere in it. */
  datatype Seen = Seen(field: Field, sae: bool, psk: bool, eap: bool)

  datatype Item = Header | Line(seen: Seen)

  function FieldOf(t: string, num: Numbers): Field {
    if "freq:" <= t then Freq(num.freq(LStrip(t[5..])))
    else if "signal:" <= t then Signal(num.rssi(LStrip(t[7..])))
    else if "SSID:" <= t then Ssid(Cap(Decode(RStrip(LStrip(t[5..]))), SSID_MAX))
    else if "capability:" <= t then Capability(Contains(t[11..], "Privacy"))
    else if "RSN:" <= t then Rsn
    else if "WPA:" <= t then Wpa
    else Other
  }

  predicate SaysEap(t: string) {
    Contains(t, "EAP") || Contains(t, "802.1X") || Contains(t, "Enterprise")
  }

  function ItemOf(line: string, num: Numbers): Item {
    if "BSS " <= line then Header
    else Line(Seen(FieldOf(LStrip(line), num), Contains(line, "SAE"), Contains(line, "PSK"), SaysEap(line)))
  }

  /** The line as the code leaves it for the keyword search: an SSID has lost its trailing blanks in place. */
  function Left(t: string): string {
    if "SSID:" <= t then
      var rest := LStrip(t[5..]);
      t[..|t| - (|rest| - |RStrip(rest)|)]
    else t
  }

  /** A line as the code looks at it. */
  function CodeItem(line: string, num: Numbers): Item {
    if "BSS " <= line then Header
    else
      var t := LStrip(line);
      Line(Seen(FieldOf(t, num), Contains(Left(t), "SAE"), Contains(Left(t), "PSK"), SaysEap(Left(t))))
  }

  // ---------- the code sees what the line says ----------

  /** Dropping leading blanks loses no keyword. */
  lemma {:induction false} LStripKeeps(s: string, w: string)
    requires w != "" && !IsBlank(w[0])
    ensures Contains(LStrip(s), w) <==> Contains(s, w)
  {
    if s == [] || !IsBlank(s[0]) {
    } else {
      LStripKeeps(s[1..], w);
      if Contains(s[1..], w) {
        var i :| 0 <= i <= |s[1..]| && w <= s[1..][i..];
        assert s[1..][i..] == s[i + 1..];
      }
      if Contains(s, w) {
        var i :| 0 <= i <= |s| && w <= s[i..];
        assert s[i..][0] == w[0];
        assert s[1..][i - 1..] == s[i..];
      }
    }
  }

  /** Nor does cutting off trailing blanks. */
  lemma CutKeeps(t: string, k: nat, w: string)
    requires k <= |t| && w != "" && !IsTrailing(w[|w| - 1])
    requires forall i :: k <= i < |t| ==> IsTrailing(t[i])
    ensures Contains(t[..k], w) <==> Contains(t, w)
  {
    if Contains(t[..k], w) {
      var i :| 0 <= i <= k && w <= t[..k][i..];
      assert w <= t[i..];
    }
    if Contains(t, w) {
      var i :| 0 <= i <= |t| && w <= t[i..];
      assert t[i + |w| - 1] == w[|w| - 1];
      assert w <= t[..k][i..];
    }
  }

  lemma CutIsTrailing(t: string, n: nat)
    requires n <= |t|
    ensures var rest := LStrip(t[n..]);
            forall i :: |t| - (|rest| - |RStrip(rest)|) <= i < |t| ==> IsTrailing(t[i])
  {
    var rest := LStrip(t[n..]);
    LStripDrops(t[n..]);
    RStripDrops(rest);
    var d :| 0 <= d <= |t[n..]| && rest == t[n..][d..];
    assert rest == t[n + d..];
    forall i | |t| - (|rest| - |RStrip(rest)|) <= i < |t|
      ensures IsTrailing(t[i])
    {
      assert t[i] == rest[i - (n + d)];
    }
  }

  predicate IsWord(w: string) {
    w != "" && !IsBlank(w[0]) && !IsTrailing(w[|w| - 1])
  }

  lemma LeftKeeps(line: string, w: string)
    requires IsWord(w)
    ensures Contains(Left(LStrip(line)), w) <==> Contains(line, w)
  {
    var t := LStrip(line);
    LStripKeeps(line, w);
    if "SSID:" <= t {
      CutSsid(t, w);
    }
  }

  lemma CutSsid(t: string, w: string)
    requires IsWord(w) && "SSID:" <= t
    ensures Contains(Left(t), w) <==> Contains(t, w)
  {
    var rest := LStrip(t[5..]);
    CutIsTrailing(t, 5);
    CutKeeps(t, |t| - (|rest| - |RStrip(rest)|), w);
  }

  lemma CodeItemExact(line: string, num: Numbers)
    ensures CodeItem(line, num) == ItemOf(line, num)
  {
    LeftKeeps(line, "SAE");
    LeftKeeps(line, "PSK");
    LeftKeeps(line, "EAP");
    LeftKeeps(line, "802.1X");
    LeftKeeps(line, "Enterprise");
  }

  // ---------- one block, line by line ----------

  const EMPTY := Bss(None, None, None, false, false, false, false, false, false)

  /** bss_parse_t; a have_* flag and its value are one option. */
  datatype Bss = Bss(ssid: Option<seq<byte>>, rssi: Option<int>, freq: Option<nat>,
                     privacy: bool, rsn: bool, wpa: bool, sae: bool, psk: bool, eap: bool)

  function SetField(b: Bss, f: Field): Bss {
    match f
    case Freq(mhz) => b.(freq := Some(mhz))
    case Signal(dbm) => b.(rssi := Some(dbm))
    case Ssid(bytes) => b.(ssid := Some(bytes))
    case Capability(private) => b.(privacy := b.privacy || private)
    case Rsn => b.(rsn := true)
    case Wpa => b.(wpa := true)
    case Other => b
  }

  function Feed(b: Bss, seen: Seen): Bss {
    SetField(b, seen.field).(sae := b.sae || seen.sae, psk := b.psk || seen.psk, eap := b.eap || seen.eap)
  }

  const AUTH_OPEN: byte := 0
  const AUTH_WEP: byte := 1
  const AUTH_WPA_PSK: byte := 2
  const AUTH_WPA2_PSK: byte := 3
  const AUTH_WPA3_SAE: byte := 4
  const AUTH_ENTERPRISE: byte := 5

  function DeriveAuthType(b: Bss): byte {
    if b.sae && !b.psk then AUTH_WPA3_SAE
    else if b.eap then AUTH_ENTERPRISE
    else if b.rsn && (b.psk || b.sae) then AUTH_WPA2_PSK
    else if b.wpa && b.psk then AUTH_WPA_PSK
    else if b.privacy then AUTH_WEP
    else AUTH_OPEN
  }

  /** freq_to_scan_band. */
  function ScanBand(freq: nat): Option<byte> {
    if 2400 <= freq < 2500 then Some(0) else if 5000 <= freq < 6000 then Some(1) else None
  }

  /** (int8_t)x. */
  function ToInt8(x: int): ScanPush.int8 {
    (x + 128) % 256 - 128
  }

  /** The entry a block yields, if any. */
  function EntryOf(b: Bss): Option<ScanPush.Entry> {
    if b.ssid.None? || b.ssid.value == [] || b.freq.None? then None
    else
      match ScanBand(b.freq.value)
      case None => None
      case Some(band) =>
        Some(ScanPush.Entry(b.ssid.value, ToInt8(if b.rssi.Some? then b.rssi.value else -100), DeriveAuthType(b), band))
  }

  /** commit_bss. */
  function Commit(e: Option<ScanPush.Entry>, out: seq<ScanPush.Entry>, cap: nat): seq<ScanPush.Entry> {
    if e.Some? && |out| < cap then out + [e.value] else out
  }

  // ---------- the simple description ----------

  /** The lines between headers; what comes before the first header is a block too. */
  function Blocks(lines: seq<string>, look: string -> Item): (blocks: seq<seq<Seen>>)
    ensures blocks != []
  {
    if lines == [] then [[]]
    else Extend(Blocks(lines[..|lines| - 1], look), look(lines[|lines| - 1]))
  }

  function Extend(blocks: seq<seq<Seen>>, item: Item): (more: seq<seq<Seen>>)
    requires blocks != []
    ensures more != []
  {
    if item.Header? then blocks + [[]] else Front(blocks) + [Final(blocks) + [item.seen]]
  }

  function Front<T>(s: seq<T>): seq<T>
    requires s != []
  {
    s[..|s| - 1]
  }

  function Final<T>(s: seq<T>): T
    requires s != []
  {
    s[|s| - 1]
  }

  function LastSsid(block: seq<Seen>): Option<seq<byte>> {
    if block == [] then None
    else if Final(block).field.Ssid? then Some(Final(block).field.bytes)
    else LastSsid(Front(block))
  }

  function LastSignal(block: seq<Seen>): Option<int> {
    if block == [] then None
    else if Final(block).field.Signal? then Some(Final(block).field.dbm)
    else LastSignal(Front(block))
  }

  function LastFreq(block: seq<Seen>): Option<nat> {
    if block == [] then None
    else if Final(block).field.Freq? then Some(Final(block).field.mhz)
    else LastFreq(Front(block))
  }

  predicate AnyField(block: seq<Seen>, f: Field) {
    exists i :: 0 <= i < |block| && block[i].field == f
  }

  predicate AnySae(block: seq<Seen>) {
    exists i :: 0 <= i < |block| && block[i].sae
  }

  predicate AnyPsk(block: seq<Seen>) {
    exists i :: 0 <= i < |block| && block[i].psk
  }

  predicate AnyEap(block: seq<Seen>) {
    exists i :: 0 <= i < |block| && block[i].eap
  }

  /** A block summed up: the last SSID, signal and frequency, and whether any line shows each security mark. */
  function Summary(block: seq<Seen>): Bss {
    Bss(LastSsid(block), LastSignal(block), LastFreq(block),
        AnyField(block, Capability(true)), AnyField(block, Rsn), AnyField(block, Wpa),
        AnySae(block), AnyPsk(block), AnyEap(block))
  }

  /** The entries of the usable blocks, in order. */
  function Usable(blocks: seq<seq<Seen>>): seq<ScanPush.Entry> {
    if blocks == [] then []
    else
      var e := EntryOf(Summary(Final(blocks)));
      if e.Some? then Usable(Front(blocks)) + [e.value] else Usable(Front(blocks))
  }

  function FirstOf(entries: seq<ScanPush.Entry>, cap: nat): seq<ScanPush.Entry> {
    entries[..Min(cap, |entries|)]
  }

  /** The first `cap` usable entries of a scan text. */
  function Scan(text: string, cap: nat, num: Numbers): seq<ScanPush.Entry> {
    FirstOf(Usable(Blocks(Lines(text), line => ItemOf(line, num))), cap)
  }

  // ---------- the loop follows the description ----------

  lemma AnyFieldSnoc(block: seq<Seen>, seen: Seen, f: Field)
    ensures AnyField(block + [seen], f) <==> AnyField(block, f) || seen.field == f
  {
    var all := block + [seen];
    assert all[|block|] == seen && forall i :: 0 <= i < |block| ==> all[i] == block[i];
  }

  lemma KeywordsSnoc(block: seq<Seen>, seen: Seen)
    ensures AnySae(block + [seen]) <==> AnySae(block) || seen.sae
    ensures AnyPsk(block + [seen]) <==> AnyPsk(block) || seen.psk
    ensures AnyEap(block + [seen]) <==> AnyEap(block) || seen.eap
  {
    var all := block + [seen];
    assert all[|block|] == seen && forall i :: 0 <= i < |block| ==> all[i] == block[i];
  }

  lemma LastSnoc(block: seq<Seen>, seen: Seen)
    ensures LastSsid(block + [seen]) == if seen.field.Ssid? then Some(seen.field.bytes) else LastSsid(block)
    ensures LastSignal(block + [seen]) == if seen.field.Signal? then Some(seen.field.dbm) else LastSignal(block)
    ensures LastFreq(block + [seen]) == if seen.field.Freq? then Some(seen.field.mhz) else LastFreq(block)
  {
    assert Front(block + [seen]) == block;
  }

  lemma SetFieldParts(b: Bss, f: Field)
    ensures SetField(b, f) == Bss(if f.Ssid? then Some(f.bytes) else b.ssid,
                                  if f.Signal? then Some(f.dbm) else b.rssi,
                                  if f.Freq? then Some(f.mhz) else b.freq,
                                  b.privacy || f == Capability(true), b.rsn || f == Rsn, b.wpa || f == Wpa,
                                  b.sae, b.psk, b.eap)
  {
  }

  lemma FeedIsSummary(block: seq<Seen>, seen: Seen)
    ensures Feed(Summary(block), seen) == Summary(block + [seen])
  {
    SetFieldParts(Summary(block), seen.field);
    LastSnoc(block, seen);
    AnyFieldSnoc(block, seen, Capability(true));
    AnyFieldSnoc(block, seen, Rsn);
    AnyFieldSnoc(block, seen, Wpa);
    KeywordsSnoc(block, seen);
  }

  lemma CommitIsUsable(blocks: seq<seq<Seen>>, cap: nat)
    requires blocks != []
    ensures Commit(EntryOf(Summary(Final(blocks))), FirstOf(Usable(Front(blocks)), cap), cap)
         == FirstOf(Usable(blocks), cap)
  {
  }

  lemma BlocksStep(lines: seq<string>, i: nat, look: string -> Item)
    requires i < |lines|
    ensures Blocks(lines[..i + 1], look) == Extend(Blocks(lines[..i], look), look(lines[i]))
  {
    assert lines[..i + 1][..i] == lines[..i];
  }

  lemma ExtendParts(blocks: seq<seq<Seen>>, item: Item)
    requires blocks != []
    ensures var more := Extend(blocks, item);
            if item.Header? then Front(more) == blocks && Final(more) == []
            else Front(more) == Front(blocks) && Final(more) == Final(blocks) + [item.seen]
  {
  }

  /** The loop of parse_iw_scan for any way of looking at a line. */
  method ParseLines(lines: seq<string>, cap: nat, look: string -> Item) returns (out: seq<ScanPush.Entry>)
    ensures out == FirstOf(Usable(Blocks(lines, look)), cap)
  {
    out := [];
    var cur := EMPTY;
    ghost var blocks := Blocks([], look);
    var i := 0;
    while i < |lines|
      invariant 0 <= i <= |lines|
      invariant blocks == Blocks(lines[..i], look)
      invariant cur == Summary(Final(blocks))
      invariant out == FirstOf(Usable(Front(blocks)), cap)
    {
      var item := look(lines[i]);
      BlocksStep(lines, i, look);
      ExtendParts(blocks, item);
      if item.Header? {
        CommitIsUsable(blocks, cap);
        out := Commit(EntryOf(cur), out, cap);
        cur := EMPTY;
      } else {
        FeedIsSummary(Final(blocks), item.seen);
        cur := Feed(cur, item.seen);
      }
      blocks := Extend(blocks, item);
      i := i + 1;
    }
    assert lines[..|lines|] == lines;
    CommitIsUsable(blocks, cap);
    out := Commit(EntryOf(cur), out, cap);
  }

  lemma {:induction false} SameBlocks(lines: seq<string>, a: string -> Item, b: string -> Item)
    requires forall line :: a(line) == b(line)
    ensures Blocks(lines, a) == Blocks(lines, b)
  {
    if lines == [] {
    } else {
      SameBlocks(lines[..|lines| - 1], a, b);
    }
  }

  /** parse_iw_scan: one pass gives what the description asks for, for every text. */
  method ParseIwScan(text: string, cap: nat, num: Numbers) returns (out: seq<ScanPush.Entry>)
    ensures out == Scan(text, cap, num)
  {
    out := ParseLines(Lines(text), cap, line => CodeItem(line, num));
    LooksAlike(text, num);
  }

  lemma LooksAlike(text: string, num: Numbers)
    ensures Blocks(Lines(text), line => CodeItem(line, num)) == Blocks(Lines(text), line => ItemOf(line, num))
  {
    var a, b := line => CodeItem(line, num), line => ItemOf(line, num);
    forall line
      ensures a(line) == b(line)
    {
      CodeItemExact(line, num);
    }
    SameBlocks(Lines(text), a, b);
  }

  // ---------- the results suit the sender ----------

  ghost predicate ShortSsids(block: seq<Seen>) {
    forall i :: 0 <= i < |block| && block[i].field.Ssid? ==> |block[i].field.bytes| <= SSID_MAX
  }

  lemma ItemShort(line: string, num: Numbers)
    ensures var item := ItemOf(line, num); item.Line? && item.seen.field.Ssid? ==> |item.seen.field.bytes| <= SSID_MAX
  {
  }

  lemma {:induction false} LastSsidShort(block: seq<Seen>)
    requires ShortSsids(block)
    ensures LastSsid(block).Some? ==> |LastSsid(block).value| <= SSID_MAX
  {
    if block == [] {
    } else {
      LastSsidShort(Front(block));
    }
  }

  lemma {:induction false} BlocksShort(lines: seq<string>, look: string -> Item)
    requires forall line ::
               look(line).Line? && look(line).seen.field.Ssid? ==> |look(line).seen.field.bytes| <= SSID_MAX
    ensures forall i :: 0 <= i < |Blocks(lines, look)| ==> ShortSsids(Blocks(lines, look)[i])
  {
    if lines == [] {
    } else {
      var line := lines[|lines| - 1];
      BlocksShort(lines[..|lines| - 1], look);
      ExtendParts(Blocks(lines[..|lines| - 1], look), look(line));
    }
  }

  lemma {:induction false} UsableFits(blocks: seq<seq<Seen>>, i: nat)
    requires forall j :: 0 <= j < |blocks| ==> ShortSsids(blocks[j])
    requires i < |Usable(blocks)|
    ensures 1 <= |Usable(blocks)[i].ssid| <= SSID_MAX
  {
    LastSsidShort(Final(blocks));
    if i >= |Usable(Front(blocks))| {
    } else {
      UsableFits(Front(blocks), i);
    }
  }

  /** Whatever iw printed, the list found fits the push frames, and a phone that decodes them gets it back. */
  lemma ScanReachesPhone(text: string, cap: nat, num: Numbers)
    ensures var found := Scan(text, cap, num);
            && |found| <= cap
            && (forall i :: 0 <= i < |found| ==> 1 <= |found[i].ssid| <= SSID_MAX)
            && ScanPush.AllValid(found)
            && ScanPush.Reassemble(ScanPush.Payloads(found, 0), 0) == Some(found)
  {
    var look := line => ItemOf(line, num);
    forall line
      ensures look(line).Line? && look(line).seen.field.Ssid? ==> |look(line).seen.field.bytes| <= SSID_MAX
    {
      ItemShort(line, num);
    }
    var blocks := Blocks(Lines(text), look);
    BlocksShort(Lines(text), look);
    var found := Scan(text, cap, num);
    forall i | 0 <= i < |found|
      ensures 1 <= |found[i].ssid| <= SSID_MAX
    {
      UsableFits(blocks, i);
    }
    ScanPush.ReassemblePayloads(found, 0);
  }
}
