/** What each command is answered, octet by octet, from one frame up to the bytes a phone reads. */
module DispatchAnswers {
  import opened Bytes
  import opened Protocol
  import opened Dispatch
  import opened Session
  import opened SessionTraffic
  import ScanPush

  /** The answer to a command of the network set.  `env` is what the rest of the process says while the command
      is handled, `stored` whether an SSID has been accepted. */
  ghost predicate RightNetworkAnswer(id: byte, asked: seq<byte>, env: Env, stored: bool, answer: seq<byte>) {
    && (id == 0x00 ==> answer == [if env.connected then 0x00 else 0x01])
    && (id == 0x01 ==> answer == [0x00])
    && (id == 0x02 ==> answer == [if 1 <= |asked| <= 32 then 0x00 else 0xFF])
    && (id == 0x03 ==> answer == [if 1 <= |asked| <= 63 then 0x00 else 0xFF])
    && (id == 0x04 ==> if !stored then answer == [0x02] else Deferred(env, answer))
    && (id == 0x06 ==> if env.ap.Some? && env.ap.value.ssid != [] then Carries(answer, env.ap.value.ssid)
                       else answer == [0xFF])
    && (id == 0x07 ==> if env.ap.Some? then Carries(answer, env.ap.value.passwd) else answer == [0xFF])
    && (id == 0x08 ==> Deferred(env, answer))
    && (id == 0x0A ==> answer == [StatusOctet(env.ensureAp)])
    && (id == 0x05 || id == 0x09 || id > 0x0A ==> answer == [0x01])
  }

  /** Work for a thread: IN_PROGRESS, or a failure to get one. */
  ghost predicate Deferred(env: Env, answer: seq<byte>) {
    answer == [0xFF] || (env.jobAllocated && answer == [0x05])
  }

  /** No error, then as much of the text as fits. */
  ghost predicate Carries(answer: seq<byte>, text: seq<byte>) {
    |answer| == 1 + Min(|text|, 255) && answer[0] == 0x00 && answer[1..] == text[..Min(|text|, 255)]
  }

  function StatusOctet(st: WifiStatus): byte {
    if st.WifiOk? then 0x00
    else if st.WifiNoSsid? then 0x02
    else if st.WifiBadPassword? then 0x03
    else if st.WifiConnectFail? then 0x04
    else 0xFF
  }

  ghost predicate RightAnswer(req: Frame, env: Env, stored: bool, answer: seq<byte>) {
    if req.commandSet != 0x01 then answer == [0x01]
    else RightNetworkAnswer(req.commandId, req.payload, env, stored, answer)
  }

  /** An SSID of 1 to 32 octets sent with command 0x02 of the network set. */
  predicate GivesSsid(f: Frame) {
    f.kind == 0x00 && f.commandSet == 0x01 && f.commandId == 0x02 && 1 <= |f.payload| <= 32
  }

  predicate GivesPasswd(f: Frame) {
    f.kind == 0x00 && f.commandSet == 0x01 && f.commandId == 0x03 && 1 <= |f.payload| <= 63
  }

  lemma AcceptedFrames(f: Frame)
    ensures AcceptsSsid(f) <==> GivesSsid(f)
    ensures AcceptsPasswd(f) <==> GivesPasswd(f)
    ensures IsConnect(f) <==> f.kind == 0x00 && f.commandSet == 0x01 && f.commandId == 0x04
    ensures IsScan(f) <==> f.kind == 0x00 && f.commandSet == 0x01 && f.commandId == 0x08
  {
  }

  /** The codes a worker's outcome is pushed with, and how a push looks. */
  lemma PushOctets(seqNo: byte, st: WifiStatus, payload: seq<byte>)
    ensures ErrCode(st) == StatusOctet(st)
    ensures Push(seqNo, CMD_PUSH_RESULT, payload) == Frame(0, 0x00, seqNo, 0x01, 0x05, payload)
    ensures Push(seqNo, CMD_PUSH_SCAN_RESULT, payload) == Frame(0, 0x00, seqNo, 0x01, 0x09, payload)
  {
  }

  /** A frame on the wire: the magic, the checksum, type, number, set, id, the length, all as the protocol
      document has them, and the payload. */
  lemma WireOctets(f: Frame)
    requires f.Representable()
    ensures Wire(f) == [0x55, 0xAA, f.crc / 256, f.crc % 256, f.kind, f.seqNo, f.commandSet, f.commandId,
                        |f.payload| / 256, |f.payload| % 256] + f.payload
  {
  }

  /** A scan payload and one entry of it. */
  lemma ScanOctets(es: seq<ScanPush.Entry>, index: byte, last: bool, e: ScanPush.Entry)
    requires ScanPush.AllValid(es) && |es| <= 5 && e.Valid()
    ensures ScanPush.Payload(es, index, last) == [index, if last then 1 else 0, |es|] + ScanPush.EntriesBytes(es)
    ensures ScanPush.EntryBytes(e)
         == [|e.ssid|] + e.ssid + [if e.rssi < 0 then 256 + e.rssi as int else e.rssi as int, e.authType, e.band]
  {
  }

  lemma RouteRight(p: Pending, req: Frame, env: Env, r: Frame)
    requires MayReply(Route(p, req, env).action, r)
    ensures r.kind == 0x01 && RightAnswer(req, env, p.ssid != [], r.payload)
  {
  }

  /** In every reachable state, the i-th reply sent is the right answer to the i-th request. */
  lemma RepliesAreRight(run: seq<Step>, i: nat)
    requires After(run).Some? && i < |SentBy(After(run).value.log, FromReader)|
    ensures var s := After(run).value;
            && i < |Requests(s.routed)| && Requests(s.routed)[i] < |s.routed|
            && var at := Requests(s.routed)[i];
               RightAnswer(s.routed[at].frame, s.routed[at].env,
                           exists j :: 0 <= j < at && GivesSsid(s.routed[j].frame),
                           SentBy(s.log, FromReader)[i].payload)
  {
    TrafficAlways(run);
    var s := After(run).value;
    var reply, at := SentBy(s.log, FromReader)[i], Requests(s.routed)[i];
    assert Justified(s.routed, at, reply);
    var a :| Takes(s.routed, at, a) && MayReply(a, reply);
    var p, env :| RoutesWith(s.routed, at, a, p, env);
    RouteRight(p, s.routed[at].frame, env, reply);
    StoredExactly(s.routed, at, p);
  }

  lemma StoredExactly(routed: seq<Event>, at: nat, p: Pending)
    requires at <= |routed| && LatestPending(Frames(routed[..at]), p)
    ensures p.ssid != [] <==> exists j :: 0 <= j < at && GivesSsid(routed[j].frame)
  {
    var before := Frames(routed[..at]);
    forall j | 0 <= j < at
      ensures before[j] == routed[j].frame && (AcceptsSsid(before[j]) <==> GivesSsid(routed[j].frame))
    {
      AcceptedFrames(before[j]);
    }
  }

  /** End to end: whenever the reader waits for input and every write so far went out whole, the i-th response
      decoded from the bytes is the right answer to the i-th request decoded from the input. */
  lemma AnswersFromWire(run: seq<Step>, i: nat)
    requires After(run).Some? && After(run).value.reader.Reading? && Complete(After(run).value.log)
    requires i < |OfKind(After(run).value.input, TYPE_REQ)|
    ensures var s := After(run).value;
            var answered := OfKind(Walk(s.client.wire).frames, TYPE_RESP);
            && i < |answered| && i < |Requests(s.routed)| && Requests(s.routed)[i] < |s.routed|
            && var at := Requests(s.routed)[i];
               && OfKind(s.input, TYPE_REQ)[i] == s.routed[at].frame
               && RightAnswer(s.routed[at].frame, s.routed[at].env,
                              exists j :: 0 <= j < at && GivesSsid(s.routed[j].frame), answered[i].payload)
  {
    TrafficAlways(run);
    var s := After(run).value;
    WireHoldsReplies(run);
    assert s.input == OwnFrames(s.routed);
    RequestsAreInput(s.routed, i);
    RepliesAreRight(run, i);
  }

  lemma WireHoldsReplies(run: seq<Step>)
    requires After(run).Some? && After(run).value.reader.Reading? && Complete(After(run).value.log)
    ensures var s := After(run).value;
            && OfKind(Walk(s.client.wire).frames, TYPE_RESP) == SentBy(s.log, FromReader)
            && |SentBy(s.log, FromReader)| == |Requests(s.routed)|
  {
    TrafficAlways(run);
    var s := After(run).value;
    assert s.log[..|s.log|] == s.log;
    WireIsFrames(run, |s.log|);
    ResponsesAreReplies(s.log);
  }
}
