/** What the results of an `iw scan` say, in terms of the lines that were printed: which BSS block each comes from,
    and its SSID, band, signal and authentication type. */
module IwScanLaws {
  import opened Bytes
  import opened Text
  import opened IwScan
  import ScanPush

  // ---------- the words of a block ----------

  predicate Says(line: string, word: string) {
    word <= LStrip(line)
  }

  /** What follows the word, without blanks before it. */
  function Value(line: string, word: string): string
    requires Says(line, word)
  {
    LStrip(LStrip(line)[|word|..])
  }

  /** Line `p` is the last of the block that says the word. */
  ghost predicate LastSays(block: seq<string>, p: nat, word: string) {
    p < |block| && Says(block[p], word) && forall q :: p < q < |block| ==> !Says(block[q], word)
  }

  ghost predicate SomeSays(block: seq<string>, word: string) {
    exists p :: 0 <= p < |block| && Says(block[p], word)
  }

  ghost predicate Mentions(block: seq<string>, word: string) {
    exists p :: 0 <= p < |block| && Contains(block[p], word)
  }

  ghost predicate Private(block: seq<string>) {
    exists p :: 0 <= p < |block| && Says(block[p], "capability:") && Contains(LStrip(block[p])[11..], "Privacy")
  }

  // ---------- what a result says about its block ----------

  function SsidOf(line: string): seq<byte>
    requires Says(line, "SSID:")
  {
    Decode(RStrip(Value(line, "SSID:")))
  }

  ghost predicate RightSsid(block: seq<string>, ssid: seq<byte>) {
    exists p: nat :: LastSays(block, p, "SSID:") && ssid == SsidOf(block[p])[..Min(32, |SsidOf(block[p])|)]
  }

  /** 2.4 GHz is band 0, 5 GHz is band 1. */
  ghost predicate RightBand(block: seq<string>, num: Numbers, band: int) {
    exists p: nat :: LastSays(block, p, "freq:") &&
      var mhz := num.freq(Value(block[p], "freq:"));
      (band == 0 && 2400 <= mhz < 2500) || (band == 1 && 5000 <= mhz < 6000)
  }

  predicate IsOctetOf(rssi: int, dbm: int) {
    -128 <= rssi < 128 && (dbm - rssi) % 256 == 0
  }

  /** The last signal line as a signed octet, or -100. */
  ghost predicate RightSignal(block: seq<string>, num: Numbers, rssi: int) {
    if SomeSays(block, "signal:") then
      exists p: nat :: LastSays(block, p, "signal:") &&
        IsOctetOf(rssi, num.rssi(Value(block[p], "signal:")))
    else rssi == -100
  }

  /** 0 open, 1 WEP, 2 WPA-PSK, 3 WPA2-PSK, 4 WPA3-SAE, 5 enterprise. */
  ghost predicate RightAuth(block: seq<string>, auth: int) {
    var sae, psk := Mentions(block, "SAE"), Mentions(block, "PSK");
    var eap := Mentions(block, "EAP") || Mentions(block, "802.1X") || Mentions(block, "Enterprise");
    var rsn, wpa, private := SomeSays(block, "RSN:"), SomeSays(block, "WPA:"), Private(block);
    && (auth == 4 <==> sae && !psk)
    && (auth == 5 <==> eap && !(sae && !psk))
    && (auth == 3 <==> rsn && psk && !eap)
    && (auth == 2 <==> wpa && psk && !rsn && !eap)
    && (auth == 1 <==> private && !eap && !(sae && !psk) && !((rsn || wpa) && psk))
    && (auth == 0 <==> !private && !eap && !(sae && !psk) && !((rsn || wpa) && psk))
  }

  ghost predicate Describes(e: ScanPush.Entry, block: seq<string>, num: Numbers) {
    && RightSsid(block, e.ssid) && e.ssid != []
    && RightBand(block, num, e.band)
    && RightSignal(block, num, e.rssi)
    && RightAuth(block, e.authType)
  }

  ghost predicate HasSsid(block: seq<string>) {
    exists p: nat :: LastSays(block, p, "SSID:") && SsidOf(block[p]) != []
  }

  ghost predicate HasBand(block: seq<string>, num: Numbers) {
    exists band :: RightBand(block, num, band)
  }

  /** A block with an SSID and a frequency of one of the two bands. */
  ghost predicate Worthy(block: seq<string>, num: Numbers) {
    HasSsid(block) && HasBand(block, num)
  }

  // ---------- one line ----------

  function SeenOf(line: string, num: Numbers): Seen {
    Seen(FieldOf(LStrip(line), num), Contains(line, "SAE"), Contains(line, "PSK"), SaysEap(line))
  }

  function SeenAll(block: seq<string>, num: Numbers): (seen: seq<Seen>)
    ensures |seen| == |block| && forall i :: 0 <= i < |block| ==> seen[i] == SeenOf(block[i], num)
  {
    seq(|block|, i requires 0 <= i < |block| => SeenOf(block[i], num))
  }

  lemma FieldWords(line: string, num: Numbers)
    ensures var f := FieldOf(LStrip(line), num);
            && (f.Freq? <==> Says(line, "freq:")) && (f.Signal? <==> Says(line, "signal:"))
            && (f.Ssid? <==> Says(line, "SSID:")) && (f == Rsn <==> Says(line, "RSN:"))
            && (f == Wpa <==> Says(line, "WPA:"))
            && (f == Capability(true) <==> Says(line, "capability:") && Contains(LStrip(line)[11..], "Privacy"))
  {
    var t := LStrip(line);
    assert Says(line, "freq:") ==> t[0] == 'f';
    assert Says(line, "signal:") ==> t[0] == 's';
    assert Says(line, "SSID:") ==> t[0] == 'S';
    assert Says(line, "capability:") ==> t[0] == 'c';
    assert Says(line, "RSN:") ==> t[0] == 'R';
    assert Says(line, "WPA:") ==> t[0] == 'W';
  }

  lemma FieldValues(line: string, num: Numbers)
    ensures var f := FieldOf(LStrip(line), num);
            && (Says(line, "freq:") ==> f.Freq? && f.mhz == num.freq(Value(line, "freq:")))
            && (Says(line, "signal:") ==> f.Signal? && f.dbm == num.rssi(Value(line, "signal:")))
            && (Says(line, "SSID:") ==> f.Ssid? && f.bytes == SsidOf(line)[..Min(32, |SsidOf(line)|)])
  {
    FieldWords(line, num);
  }

  // ---------- one block ----------

  lemma {:induction false} LastFreqIs(block: seq<Seen>) returns (p: nat)
    ensures LastFreq(block).Some? <==> p < |block|
    ensures p < |block| ==> block[p].field.Freq? && LastFreq(block) == Some(block[p].field.mhz)
    ensures forall q :: 0 <= q < |block| && (p < q || p >= |block|) ==> !block[q].field.Freq?
  {
    p := |block|;
    if block == [] {
    } else if Final(block).field.Freq? {
      p := |block| - 1;
    } else {
      p := LastFreqIs(Front(block));
      if p == |Front(block)| { p := |block|; }
    }
  }

  lemma {:induction false} LastSignalIs(block: seq<Seen>) returns (p: nat)
    ensures LastSignal(block).Some? <==> p < |block|
    ensures p < |block| ==> block[p].field.Signal? && LastSignal(block) == Some(block[p].field.dbm)
    ensures forall q :: 0 <= q < |block| && (p < q || p >= |block|) ==> !block[q].field.Signal?
  {
    p := |block|;
    if block == [] {
    } else if Final(block).field.Signal? {
      p := |block| - 1;
    } else {
      p := LastSignalIs(Front(block));
      if p == |Front(block)| { p := |block|; }
    }
  }

  lemma {:induction false} LastSsidIs(block: seq<Seen>) returns (p: nat)
    ensures LastSsid(block).Some? <==> p < |block|
    ensures p < |block| ==> block[p].field.Ssid? && LastSsid(block) == Some(block[p].field.bytes)
    ensures forall q :: 0 <= q < |block| && (p < q || p >= |block|) ==> !block[q].field.Ssid?
  {
    p := |block|;
    if block == [] {
    } else if Final(block).field.Ssid? {
      p := |block| - 1;
    } else {
      p := LastSsidIs(Front(block));
      if p == |Front(block)| { p := |block|; }
    }
  }

  lemma SaysByField(block: seq<string>, num: Numbers)
    ensures var seen := SeenAll(block, num);
            forall q :: 0 <= q < |block| ==>
              && (seen[q].field.Freq? <==> Says(block[q], "freq:"))
              && (seen[q].field.Signal? <==> Says(block[q], "signal:"))
              && (seen[q].field.Ssid? <==> Says(block[q], "SSID:"))
  {
    forall q | 0 <= q < |block|
      ensures var f := SeenAll(block, num)[q].field;
              && (f.Freq? <==> Says(block[q], "freq:"))
              && (f.Signal? <==> Says(block[q], "signal:"))
              && (f.Ssid? <==> Says(block[q], "SSID:"))
    {
      FieldWords(block[q], num);
    }
  }

  lemma FreqLaw(block: seq<string>, num: Numbers) returns (p: nat)
    ensures var last := LastFreq(SeenAll(block, num));
            if last.None? then forall q: nat :: !LastSays(block, q, "freq:")
            else LastSays(block, p, "freq:") && last.value == num.freq(Value(block[p], "freq:"))
  {
    p := LastFreqIs(SeenAll(block, num));
    SaysByField(block, num);
    if p < |block| { FieldValues(block[p], num); }
  }

  lemma SignalLaw(block: seq<string>, num: Numbers) returns (p: nat)
    ensures var last := LastSignal(SeenAll(block, num));
            if last.None? then !SomeSays(block, "signal:")
            else LastSays(block, p, "signal:") && last.value == num.rssi(Value(block[p], "signal:"))
  {
    p := LastSignalIs(SeenAll(block, num));
    SaysByField(block, num);
    if p < |block| { FieldValues(block[p], num); }
  }

  lemma SsidLaw(block: seq<string>, num: Numbers) returns (p: nat)
    ensures var last := LastSsid(SeenAll(block, num));
            if last.None? then forall q: nat :: !LastSays(block, q, "SSID:")
            else
              && LastSays(block, p, "SSID:")
              && last.value == SsidOf(block[p])[..Min(32, |SsidOf(block[p])|)]
  {
    p := LastSsidIs(SeenAll(block, num));
    SaysByField(block, num);
    if p < |block| { FieldValues(block[p], num); }
  }

  lemma LastIsOne(block: seq<string>, word: string, p: nat, q: nat)
    requires LastSays(block, p, word) && LastSays(block, q, word)
    ensures p == q
  {
  }

  lemma FieldMarks(block: seq<string>, num: Numbers)
    ensures var seen := SeenAll(block, num);
            && (AnyField(seen, Rsn) <==> SomeSays(block, "RSN:"))
            && (AnyField(seen, Wpa) <==> SomeSays(block, "WPA:"))
            && (AnyField(seen, Capability(true)) <==> Private(block))
  {
    var seen := SeenAll(block, num);
    forall q | 0 <= q < |block|
      ensures seen[q].field == Rsn <==> Says(block[q], "RSN:")
      ensures seen[q].field == Wpa <==> Says(block[q], "WPA:")
      ensures seen[q].field == Capability(true) <==>
              Says(block[q], "capability:") && Contains(LStrip(block[q])[11..], "Privacy")
    {
      FieldWords(block[q], num);
    }
  }

  lemma KeywordMarks(block: seq<string>, num: Numbers)
    ensures var seen := SeenAll(block, num);
            && (AnySae(seen) <==> Mentions(block, "SAE"))
            && (AnyPsk(seen) <==> Mentions(block, "PSK"))
            && (AnyEap(seen) <==> Mentions(block, "EAP") || Mentions(block, "802.1X") || Mentions(block, "Enterprise"))
  {
    var seen := SeenAll(block, num);
    forall q | 0 <= q < |block|
      ensures seen[q].sae <==> Contains(block[q], "SAE")
      ensures seen[q].psk <==> Contains(block[q], "PSK")
      ensures seen[q].eap <==>
              Contains(block[q], "EAP") || Contains(block[q], "802.1X") || Contains(block[q], "Enterprise")
    {
    }
  }

  lemma AuthLaw(block: seq<string>, num: Numbers)
    ensures RightAuth(block, DeriveAuthType(Summary(SeenAll(block, num))))
  {
    FieldMarks(block, num);
    KeywordMarks(block, num);
  }

  lemma Int8Law(x: int)
    ensures IsOctetOf(ToInt8(x), x)
  {
  }

  lemma DefaultSignal()
    ensures ToInt8(-100) == -100
  {
  }

  lemma SsidPart(block: seq<string>, num: Numbers)
    ensures var last := LastSsid(SeenAll(block, num));
            && (last.Some? && last.value != [] <==> HasSsid(block))
            && (last.Some? ==> RightSsid(block, last.value))
  {
    var p := SsidLaw(block, num);
    if HasSsid(block) {
      var q: nat :| LastSays(block, q, "SSID:") && SsidOf(block[q]) != [];
      LastIsOne(block, "SSID:", p, q);
    }
  }

  lemma BandPart(block: seq<string>, num: Numbers)
    ensures var last := LastFreq(SeenAll(block, num));
            && (last.Some? && ScanBand(last.value).Some? <==> HasBand(block, num))
            && (last.Some? && ScanBand(last.value).Some? ==> RightBand(block, num, ScanBand(last.value).value))
  {
    var p := FreqLaw(block, num);
    var last := LastFreq(SeenAll(block, num));
    if last.Some? && ScanBand(last.value).Some? {
      assert RightBand(block, num, ScanBand(last.value).value);
    } else if HasBand(block, num) {
      var band :| RightBand(block, num, band);
      var q: nat :| LastSays(block, q, "freq:") &&
        var mhz := num.freq(Value(block[q], "freq:"));
        (band == 0 && 2400 <= mhz < 2500) || (band == 1 && 5000 <= mhz < 6000);
      LastIsOne(block, "freq:", p, q);
    }
  }

  lemma SignalPart(block: seq<string>, num: Numbers)
    ensures var last := LastSignal(SeenAll(block, num));
            RightSignal(block, num, ToInt8(if last.Some? then last.value else -100))
  {
    var p := SignalLaw(block, num);
    var last := LastSignal(SeenAll(block, num));
    if last.Some? {
      Int8Law(last.value);
      assert SomeSays(block, "signal:");
    } else {
      DefaultSignal();
    }
  }

  lemma EntryParts(b: Bss)
    ensures var e := EntryOf(b);
            && (e.Some? <==> b.ssid.Some? && b.ssid.value != [] && b.freq.Some? && ScanBand(b.freq.value).Some?)
            && (e.Some? ==>
                  && e.value.ssid == b.ssid.value && e.value.band == ScanBand(b.freq.value).value
                  && e.value.rssi == ToInt8(if b.rssi.Some? then b.rssi.value else -100)
                  && e.value.authType == DeriveAuthType(b))
  {
  }

  /** A block yields an entry exactly when it has an SSID and a frequency of one of the two bands, and the entry is
      what its lines say. */
  lemma EntryLaw(block: seq<string>, num: Numbers)
    ensures var e := EntryOf(Summary(SeenAll(block, num)));
            (e.Some? <==> Worthy(block, num)) && (e.Some? ==> Describes(e.value, block, num))
  {
    EntryParts(Summary(SeenAll(block, num)));
    SsidPart(block, num);
    BandPart(block, num);
    SignalPart(block, num);
    AuthLaw(block, num);
  }

  // ---------- lines and blocks ----------

  predicate IsHeader(line: string) {
    "BSS " <= line
  }

  /** Blocks of lines with a header line before each but the first. */
  function Interleave(blocks: seq<seq<string>>, headers: seq<string>): seq<string>
    requires |blocks| == |headers| + 1
  {
    if headers == [] then blocks[0]
    else Interleave(Front(blocks), Front(headers)) + [Final(headers)] + Final(blocks)
  }

  ghost predicate NoHeader(block: seq<string>) {
    forall p :: 0 <= p < |block| ==> !IsHeader(block[p])
  }

  ghost predicate Split(lines: seq<string>, blocks: seq<seq<string>>, headers: seq<string>) {
    && |blocks| == |headers| + 1
    && lines == Interleave(blocks, headers)
    && (forall h :: 0 <= h < |headers| ==> IsHeader(headers[h]))
    && (forall b :: 0 <= b < |blocks| ==> NoHeader(blocks[b]))
  }

  function SeenBlocks(blocks: seq<seq<string>>, num: Numbers): (seen: seq<seq<Seen>>)
    ensures |seen| == |blocks| && forall b :: 0 <= b < |blocks| ==> seen[b] == SeenAll(blocks[b], num)
  {
    seq(|blocks|, b requires 0 <= b < |blocks| => SeenAll(blocks[b], num))
  }

  lemma InterleaveSnoc(blocks: seq<seq<string>>, headers: seq<string>, line: string)
    requires |blocks| == |headers| + 1
    ensures Interleave(blocks + [[]], headers + [line]) == Interleave(blocks, headers) + [line]
    ensures Interleave(Front(blocks) + [Final(blocks) + [line]], headers) == Interleave(blocks, headers) + [line]
  {
    assert Front(blocks + [[]]) == blocks && Front(headers + [line]) == headers;
    if headers != [] {
      assert Front(Front(blocks) + [Final(blocks) + [line]]) == Front(blocks);
    }
  }

  lemma SeenSnoc(blocks: seq<seq<string>>, num: Numbers, line: string)
    requires blocks != []
    ensures var seen := SeenBlocks(blocks, num);
            && SeenBlocks(blocks + [[]], num) == seen + [[]]
            && SeenBlocks(Front(blocks) + [Final(blocks) + [line]], num)
               == Front(seen) + [Final(seen) + [SeenOf(line, num)]]
  {
    assert SeenAll(Final(blocks) + [line], num) == SeenAll(Final(blocks), num) + [SeenOf(line, num)];
  }

  lemma SplitSnoc(lines: seq<string>, blocks: seq<seq<string>>, headers: seq<string>, line: string)
    requires Split(lines, blocks, headers)
    ensures if IsHeader(line) then Split(lines + [line], blocks + [[]], headers + [line])
            else Split(lines + [line], Front(blocks) + [Final(blocks) + [line]], headers)
  {
    InterleaveSnoc(blocks, headers, line);
    assert NoHeader(Final(blocks));
  }

  /** Every text of lines splits at its headers, and that is how the parser reads it. */
  lemma {:induction false} SplitAtHeaders(lines: seq<string>, num: Numbers, look: string -> Item)
      returns (blocks: seq<seq<string>>, headers: seq<string>)
    requires forall line :: look(line) == ItemOf(line, num)
    ensures Split(lines, blocks, headers)
    ensures Blocks(lines, look) == SeenBlocks(blocks, num)
  {
    if lines == [] {
      blocks, headers := [[]], [];
    } else {
      var line := Final(lines);
      blocks, headers := SplitAtHeaders(Front(lines), num, look);
      assert lines == Front(lines) + [line];
      SplitSnoc(Front(lines), blocks, headers, line);
      SeenSnoc(blocks, num, line);
      if IsHeader(line) {
        blocks, headers := blocks + [[]], headers + [line];
      } else {
        blocks := Front(blocks) + [Final(blocks) + [line]];
      }
    }
  }

  // ---------- the results ----------

  ghost predicate Ascending(src: seq<nat>) {
    forall i, j :: 0 <= i < j < |src| ==> src[i] < src[j]
  }

  function Entries(blocks: seq<seq<Seen>>): (entries: seq<Option<ScanPush.Entry>>)
    ensures |entries| == |blocks|
    ensures forall b :: 0 <= b < |blocks| ==> entries[b] == EntryOf(Summary(blocks[b]))
  {
    seq(|blocks|, b requires 0 <= b < |blocks| => EntryOf(Summary(blocks[b])))
  }

  function Kept<T>(options: seq<Option<T>>): seq<T> {
    if options == [] then []
    else if Final(options).Some? then Kept(Front(options)) + [Final(options).value]
    else Kept(Front(options))
  }

  lemma {:induction false} UsableIsKept(blocks: seq<seq<Seen>>)
    ensures Usable(blocks) == Kept(Entries(blocks))
  {
    if blocks == [] {
    } else {
      UsableIsKept(Front(blocks));
      assert Front(Entries(blocks)) == Entries(Front(blocks));
    }
  }

  /** Where the values kept come from. */
  function Sources<T>(options: seq<Option<T>>): seq<nat> {
    if options == [] then []
    else if Final(options).Some? then Sources(Front(options)) + [|options| - 1]
    else Sources(Front(options))
  }

  lemma {:induction false} SourcesAscend<T>(options: seq<Option<T>>)
    ensures Ascending(Sources(options)) && |Sources(options)| == |Kept(options)|
    ensures forall i :: 0 <= i < |Sources(options)| ==> Sources(options)[i] < |options|
  {
    if options == [] {
    } else {
      SourcesAscend(Front(options));
    }
  }

  lemma {:induction false} SourceHolds<T>(options: seq<Option<T>>, i: nat)
    requires i < |Kept(options)|
    ensures i < |Sources(options)| && Sources(options)[i] < |options|
    ensures options[Sources(options)[i]] == Some(Kept(options)[i])
  {
    SourcesAscend(options);
    SourcesAscend(Front(options));
    if i < |Kept(Front(options))| {
      SourceHolds(Front(options), i);
    }
  }

  lemma {:induction false} AllAreSources<T>(options: seq<Option<T>>, b: nat)
    requires b < |options| && options[b].Some?
    ensures b in Sources(options)
  {
    if b == |options| - 1 {
      assert Sources(options)[|Sources(Front(options))|] == b;
    } else {
      AllAreSources(Front(options), b);
    }
  }

  /** Every worthy block is among the sources, unless `cap` of them come before it. */
  ghost predicate NothingMissed(src: seq<nat>, blocks: seq<seq<string>>, cap: nat, num: Numbers) {
    forall b :: 0 <= b < |blocks| && Worthy(blocks[b], num) ==>
      b in src || (|src| == cap && forall i :: 0 <= i < |src| ==> src[i] < b)
  }

  lemma FirstSources(all: seq<nat>, cap: nat, b: nat)
    requires Ascending(all) && b in all
    ensures var src := all[..Min(cap, |all|)];
            b in src || (|src| == cap && forall i :: 0 <= i < |src| ==> src[i] < b)
  {
    var j :| 0 <= j < |all| && all[j] == b;
    if j < cap {
      assert all[..Min(cap, |all|)][j] == b;
    }
  }

  /** The results of a scan text, block by block: result `i` is what the lines of block `src[i]` say, the blocks come
      in the order of the text, and no block with an SSID and a usable frequency is passed over while there is
      room. */
  lemma ScanLaw(text: string, cap: nat, num: Numbers)
      returns (blocks: seq<seq<string>>, headers: seq<string>, src: seq<nat>)
    ensures Split(Lines(text), blocks, headers)
    ensures var found := Scan(text, cap, num);
            && |src| == |found| && Ascending(src)
            && (forall i :: 0 <= i < |found| ==> src[i] < |blocks| && Describes(found[i], blocks[src[i]], num))
    ensures NothingMissed(src, blocks, cap, num)
  {
    var look := line => ItemOf(line, num);
    blocks, headers := SplitAtHeaders(Lines(text), num, look);
    var entries := Entries(SeenBlocks(blocks, num));
    UsableIsKept(SeenBlocks(blocks, num));
    SourcesAscend(entries);
    src := Sources(entries)[..Min(cap, |Sources(entries)|)];
    var found := Scan(text, cap, num);
    forall i | 0 <= i < |found|
      ensures src[i] < |blocks| && Describes(found[i], blocks[src[i]], num)
    {
      SourceHolds(entries, i);
      EntryLaw(blocks[src[i]], num);
    }
    forall b | 0 <= b < |blocks| && Worthy(blocks[b], num)
      ensures b in src || (|src| == cap && forall i :: 0 <= i < |src| ==> src[i] < b)
    {
      EntryLaw(blocks[b], num);
      AllAreSources(entries, b);
      FirstSources(Sources(entries), cap, b);
    }
  }

  /** There is only one way to split lines at their headers. */
  lemma {:induction false} SplitIsUnique(lines: seq<string>, a: seq<seq<string>>, g: seq<string>,
                                         b: seq<seq<string>>, h: seq<string>)
    requires Split(lines, a, g) && Split(lines, b, h)
    ensures a == b && g == h
    decreases |g|
  {
    SplitLast(lines, a, g);
    SplitLast(lines, b, h);
    LastHeaderAgrees(lines, Final(a), Final(b), |g|, |h|);
    if g == [] {
    } else {
      var n := |lines| - |Final(a)| - 1;
      SplitIsUnique(lines[..n], Front(a), Front(g), Front(b), Front(h));
      assert a == Front(a) + [Final(a)] && b == Front(b) + [Final(b)];
      assert g == Front(g) + [Final(g)] && h == Front(h) + [Final(h)];
    }
  }

  lemma SplitLast(lines: seq<string>, a: seq<seq<string>>, g: seq<string>)
    requires Split(lines, a, g)
    ensures |Final(a)| <= |lines| && Final(a) == lines[|lines| - |Final(a)|..] && NoHeader(Final(a))
    ensures g == [] ==> Final(a) == lines && a == [lines]
    ensures g != [] ==>
              && |Final(a)| < |lines| && Final(g) == lines[|lines| - |Final(a)| - 1] && IsHeader(Final(g))
              && Split(lines[..|lines| - |Final(a)| - 1], Front(a), Front(g))
  {
    if g != [] {
      var front := Interleave(Front(a), Front(g));
      assert lines == front + [Final(g)] + Final(a);
      assert lines[..|front|] == front;
    }
  }

  /** Two endings without a header, each right behind one or making up all of the lines, are the same. */
  lemma LastHeaderAgrees(lines: seq<string>, x: seq<string>, y: seq<string>, m: nat, n: nat)
    requires |x| <= |lines| && x == lines[|lines| - |x|..] && NoHeader(x)
    requires |y| <= |lines| && y == lines[|lines| - |y|..] && NoHeader(y)
    requires if m == 0 then x == lines else |x| < |lines| && IsHeader(lines[|lines| - |x| - 1])
    requires if n == 0 then y == lines else |y| < |lines| && IsHeader(lines[|lines| - |y| - 1])
    ensures x == y && (m == 0 <==> n == 0)
  {
    NoHeaderBehind(lines, x);
    NoHeaderBehind(lines, y);
  }

  lemma NoHeaderBehind(lines: seq<string>, x: seq<string>)
    requires |x| <= |lines| && x == lines[|lines| - |x|..] && NoHeader(x)
    ensures forall k :: |lines| - |x| <= k < |lines| ==> !IsHeader(lines[k])
  {
    forall k | |lines| - |x| <= k < |lines|
      ensures !IsHeader(lines[k])
    {
      assert lines[k] == x[k - (|lines| - |x|)];
    }
  }
}
