/** Splitting a scan list over PUSH_SCAN_RESULT payloads (system_service/proto_dispatch.c:247-301)
    and the reading of such payloads by the layout documented in system_service/protocol.h:65-78. */
module ScanPush {
  import opened Bytes

  const SSID_MAX: nat := 32
  const PAYLOAD_BUF: nat := 256
  const PAYLOAD_CAP: nat := 220
  const ENTRIES_PER_FRAME: nat := 5

  type int8 = x: int | -128 <= x < 128

  /** wifi_scan_entry_t; `ssid` is the first ssid_len bytes of its 32-byte array. */
  datatype Entry = Entry(ssid: seq<byte>, rssi: int8, authType: byte, band: byte) {
    predicate Valid() {
      |ssid| <= SSID_MAX
    }
  }

  ghost predicate AllValid(es: seq<Entry>) {
    forall i :: 0 <= i < |es| ==> es[i].Valid()
  }

  function ToUnsigned(x: int8): byte {
    if x < 0 then 256 + x as int else x as int
  }

  function ToSigned(b: byte): int8 {
    if b < 128 then b as int else b as int - 256
  }

  // ---------- sender ----------

  function EntryBytes(e: Entry): seq<byte>
    requires e.Valid()
  {
    [|e.ssid|] + e.ssid + [ToUnsigned(e.rssi), e.authType, e.band]
  }

  ghost function EntriesBytes(es: seq<Entry>): (bytes: seq<byte>)
    requires AllValid(es)
    ensures |bytes| <= 36 * |es|
  {
    if es == [] then [] else EntryBytes(es[0]) + EntriesBytes(es[1..])
  }

  ghost function Payload(es: seq<Entry>, index: byte, last: bool): seq<byte>
    requires AllValid(es) && |es| <= ENTRIES_PER_FRAME
  {
    [index, if last then 1 else 0, |es|] + EntriesBytes(es)
  }

  /** The frame index is one byte and wraps. */
  function Next(index: byte): byte {
    if index == 255 then 0 else index + 1
  }

  /** The payloads for `es`, the first numbered `index`: five entries each, the end flag on the last. */
  ghost function Payloads(es: seq<Entry>, index: byte): seq<seq<byte>>
    requires AllValid(es)
  {
    if |es| <= ENTRIES_PER_FRAME then [Payload(es, index, true)]
    else [Payload(es[..ENTRIES_PER_FRAME], index, false)] + Payloads(es[ENTRIES_PER_FRAME..], Next(index))
  }

  /** Max(1, Ceil(n / 5)). */
  function PayloadCount(n: nat): nat {
    if n == 0 then 1 else (n + ENTRIES_PER_FRAME - 1) / ENTRIES_PER_FRAME
  }

  lemma {:induction false} PayloadsLength(es: seq<Entry>, index: byte)
    requires AllValid(es)
    ensures |Payloads(es, index)| == PayloadCount(|es|)
    decreases |es|
  {
    if |es| <= ENTRIES_PER_FRAME {
    } else {
      PayloadsLength(es[ENTRIES_PER_FRAME..], Next(index));
    }
  }

  function IndexAfter(index: byte, k: nat): (r: byte)
    ensures r == (index as int + k) % 256
    decreases k
  {
    if k == 0 then index else IndexAfter(Next(index), k - 1)
  }

  /** The `k`-th group of five entries. */
  function Group(es: seq<Entry>, k: nat): seq<Entry>
    requires ENTRIES_PER_FRAME * k <= |es|
  {
    var lo := ENTRIES_PER_FRAME * k;
    es[lo..lo + Min(|es| - lo, ENTRIES_PER_FRAME)]
  }

  /** Payload `k` is the `k`-th group of five, numbered modulo 256, with the end flag exactly on the last. */
  lemma {:induction false} PayloadAt(es: seq<Entry>, index: byte, k: nat)
    requires AllValid(es)
    requires k < |Payloads(es, index)|
    ensures ENTRIES_PER_FRAME * k <= |es| && AllValid(Group(es, k))
    ensures Payloads(es, index)[k]
            == Payload(Group(es, k), IndexAfter(index, k), k == |Payloads(es, index)| - 1)
    decreases k
  {
    if k > 0 {
      var rest := es[ENTRIES_PER_FRAME..];
      PayloadAt(rest, Next(index), k - 1);
      assert Payloads(es, index)[1..] == Payloads(rest, Next(index));
      assert Group(rest, k - 1) == Group(es, k);
    } else {
      PayloadsLength(es, index);
      assert |es| <= ENTRIES_PER_FRAME ==> Group(es, 0) == es;
    }
  }

  /** Every payload fits the 220 bytes the sender allows itself. */
  lemma PayloadFits(es: seq<Entry>, index: byte, k: nat)
    requires AllValid(es)
    requires k < |Payloads(es, index)|
    ensures 3 <= |Payloads(es, index)[k]| <= PAYLOAD_CAP
  {
    PayloadAt(es, index, k);
  }

  // ---------- receiver ----------

  /** Reads exactly `k` entries that fill `data`. */
  function ReadEntries(k: nat, data: seq<byte>): Option<seq<Entry>> {
    if k == 0 then
      if data == [] then Some([]) else None
    else if data == [] || |data| < data[0] as int + 4 then None
    else
      var n := data[0];
      var e := Entry(data[1..1 + n], ToSigned(data[1 + n]), data[2 + n], data[3 + n]);
      match ReadEntries(k - 1, data[4 + n..])
      case None => None
      case Some(es) => Some([e] + es)
  }

  /** Reads a whole push: numbered payloads up to and including the one with the end flag. */
  function Reassemble(payloads: seq<seq<byte>>, index: byte): Option<seq<Entry>> {
    if payloads == [] || |payloads[0]| < 3 || payloads[0][0] != index then None
    else
      var p := payloads[0];
      match ReadEntries(p[2], p[3..])
      case None => None
      case Some(es) =>
        if p[1] % 2 == 1 then
          if |payloads| == 1 then Some(es) else None
        else
          match Reassemble(payloads[1..], Next(index))
          case None => None
          case Some(more) => Some(es + more)
  }

  lemma ReadEntry(e: Entry, tail: seq<byte>)
    requires e.Valid()
    ensures var data := EntryBytes(e) + tail;
            var n := |e.ssid|;
            && |data| >= n + 4 && data[0] == n && data[1..1 + n] == e.ssid
            && ToSigned(data[1 + n]) == e.rssi && data[2 + n] == e.authType && data[3 + n] == e.band
            && data[4 + n..] == tail
  {
    var data := EntryBytes(e) + tail;
    var n := |e.ssid|;
    assert data[1..1 + n] == e.ssid;
    assert data[4 + n..] == tail;
  }

  lemma {:induction false} ReadEntriesBytes(es: seq<Entry>)
    requires AllValid(es)
    ensures ReadEntries(|es|, EntriesBytes(es)) == Some(es)
  {
    if es == [] {
    } else {
      ReadEntriesBytes(es[1..]);
      ReadEntry(es[0], EntriesBytes(es[1..]));
      assert es == [es[0]] + es[1..];
    }
  }

  lemma ReadPayload(es: seq<Entry>, index: byte, last: bool)
    requires AllValid(es) && |es| <= ENTRIES_PER_FRAME
    ensures var p := Payload(es, index, last);
            |p| >= 3 && p[0] == index && p[1] == (if last then 1 else 0)
            && ReadEntries(p[2], p[3..]) == Some(es)
  {
    assert Payload(es, index, last)[3..] == EntriesBytes(es);
    ReadEntriesBytes(es);
  }

  /** The receiver gets back exactly the list that was sent, signed RSSI included. */
  lemma {:induction false} ReassemblePayloads(es: seq<Entry>, index: byte)
    requires AllValid(es)
    ensures Reassemble(Payloads(es, index), index) == Some(es)
    decreases |es|
  {
    if |es| <= ENTRIES_PER_FRAME {
      ReadPayload(es, index, true);
    } else {
      var group, rest := es[..ENTRIES_PER_FRAME], es[ENTRIES_PER_FRAME..];
      ReadPayload(group, index, false);
      ReassemblePayloads(rest, Next(index));
      assert Payloads(es, index)[1..] == Payloads(rest, Next(index));
      assert es == group + rest;
    }
  }

  // ---------- the C functions ----------

  lemma {:induction false} EntriesBytesSnoc(es: seq<Entry>, e: Entry)
    requires AllValid(es) && e.Valid()
    ensures EntriesBytes(es + [e]) == EntriesBytes(es) + EntryBytes(e)
  {
    if es == [] {
      assert es + [e] == [e];
      assert EntriesBytes([]) + EntryBytes(e) == EntryBytes(e) + EntriesBytes([]);
    } else {
      assert (es + [e])[1..] == es[1..] + [e];
      EntriesBytesSnoc(es[1..], e);
    }
  }

  /** Writes one entry at `dst[pos..]` when it fits in `cap` bytes; None when it does not. */
  method EncodeScanEntry(e: Entry, dst: array<byte>, pos: nat, cap: nat) returns (n: Option<nat>)
    requires e.Valid() && pos + cap <= dst.Length
    modifies dst
    ensures n == if |e.ssid| + 4 <= cap then Some(|e.ssid| + 4) else None
    ensures n.None? ==> dst[..] == old(dst[..])
    ensures n.Some? ==> && dst[..pos] == old(dst[..pos])
                        && dst[pos..pos + n.value] == EntryBytes(e)
                        && dst[pos + n.value..] == old(dst[pos + n.value..])
  {
    var len := |e.ssid|;
    var need := 1 + len + 3;
    if need > cap {
      return None;
    }
    dst[pos] := len;
    forall i | 0 <= i < len {
      dst[pos + 1 + i] := e.ssid[i];
    }
    dst[pos + 1 + len] := ToUnsigned(e.rssi);
    dst[pos + 1 + len + 1] := e.authType;
    dst[pos + 1 + len + 2] := e.band;
    assert dst[pos..pos + need] == EntryBytes(e);
    return Some(need);
  }

  /** Encodes one more entry behind what was written from position 3 on. */
  method AppendEntry(e: Entry, payload: array<byte>, pos: nat) returns (n: Option<nat>)
    requires e.Valid() && payload.Length == PAYLOAD_BUF && 3 <= pos <= PAYLOAD_CAP
    modifies payload
    ensures n == if |e.ssid| + 4 <= PAYLOAD_CAP - pos then Some(|e.ssid| + 4) else None
    ensures n.None? ==> payload[3..pos] == old(payload[3..pos])
    ensures n.Some? ==> payload[3..pos + n.value] == old(payload[3..pos]) + EntryBytes(e)
  {
    TakeDrop(payload[..], 3, pos);
    n := EncodeScanEntry(e, payload, pos, PAYLOAD_CAP - pos);
    TakeDrop(payload[..], 3, pos);
    if n.Some? {
      Glue(payload[..], 3, pos, pos + n.value);
    }
  }

  /** Encodes entries from `start` on at `payload[3..]`: as many as fit, at most five. */
  method FillEntries(payload: array<byte>, entries: seq<Entry>, start: nat) returns (i: nat, pos: nat)
    requires AllValid(entries) && start <= |entries| && payload.Length == PAYLOAD_BUF
    modifies payload
    ensures i == start + Min(|entries| - start, ENTRIES_PER_FRAME)
    ensures 3 <= pos <= PAYLOAD_CAP
    ensures payload[3..pos] == EntriesBytes(entries[start..i])
  {
    i, pos := start, 3;
    var entryCount := 0;
    ghost var done: seq<Entry> := [];
    while i < |entries| && entryCount < ENTRIES_PER_FRAME
      invariant start <= i <= |entries| && entryCount == i - start <= ENTRIES_PER_FRAME
      invariant 3 <= pos <= 3 + 36 * entryCount
      invariant done == entries[start..i] && AllValid(done)
      invariant payload[3..pos] == EntriesBytes(done)
    {
      var n := AppendEntry(entries[i], payload, pos);
      if n == None {
        break;
      }
      EntriesBytesSnoc(done, entries[i]);
      done := done + [entries[i]];
      pos := pos + n.value;
      entryCount := entryCount + 1;
      i := i + 1;
    }
  }

  /** Builds one payload: the entries, then the three header bytes. */
  method FillPayload(payload: array<byte>, entries: seq<Entry>, start: nat, frameIndex: byte)
    returns (i: nat, pos: nat)
    requires AllValid(entries) && start <= |entries| && payload.Length == PAYLOAD_BUF
    modifies payload
    ensures i == start + Min(|entries| - start, ENTRIES_PER_FRAME)
    ensures pos <= PAYLOAD_CAP
    ensures payload[..pos] == Payload(entries[start..i], frameIndex, i == |entries|)
  {
    i, pos := FillEntries(payload, entries, start);
    ghost var body := payload[3..pos];
    payload[0] := frameIndex;
    payload[1] := if i >= |entries| then 1 else 0;
    payload[2] := i - start;
    assert payload[3..pos] == body;
    assert payload[..pos] == payload[..3] + payload[3..pos];
  }

  lemma SendStep(entries: seq<Entry>, i: nat, next: nat, index: byte)
    requires AllValid(entries) && i <= |entries|
    requires next == i + Min(|entries| - i, ENTRIES_PER_FRAME)
    ensures Payloads(entries[i..], index)
            == [Payload(entries[i..next], index, next == |entries|)]
               + if next < |entries| then Payloads(entries[next..], Next(index)) else []
  {
    var rest := entries[i..];
    if |rest| <= ENTRIES_PER_FRAME {
      assert entries[i..next] == rest;
    } else {
      assert entries[i..next] == rest[..ENTRIES_PER_FRAME];
      assert entries[next..] == rest[ENTRIES_PER_FRAME..];
    }
  }

  /** Sends the whole list; `sent` is the sequence of payloads handed to the push helper. */
  method SendScanResults(entries: seq<Entry>) returns (sent: seq<seq<byte>>)
    requires AllValid(entries)
    ensures sent == Payloads(entries, 0)
  {
    var payload := new byte[PAYLOAD_BUF];
    var i := 0;
    var frameIndex: byte := 0;
    sent := [];
    var more := true;
    assert entries[0..] == entries;
    while more
      invariant i <= |entries|
      invariant sent + (if more then Payloads(entries[i..], frameIndex) else []) == Payloads(entries, 0)
      decreases more, |entries| - i
    {
      var next, pos := FillPayload(payload, entries, i, frameIndex);
      SendStep(entries, i, next, frameIndex);
      sent := sent + [payload[..pos]];
      frameIndex := Next(frameIndex);
      i := next;
      more := i < |entries|;
    }
  }
}
