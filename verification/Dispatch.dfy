/** The command dispatcher of system_service/proto_dispatch.c: what one decoded frame does to the
    process-wide pending credentials, what is answered, and which worker is started. */
module Dispatch {
  import opened Bytes
  import opened Protocol
  import ScanPush

  const CMDSET_NETWORK: byte := 0x01

  const CMD_GET_WIFI_STATE: byte := 0x00
  const CMD_STATUS: byte := 0x01
  const CMD_SSID: byte := 0x02
  const CMD_PASSWD: byte := 0x03
  const CMD_CONNECT: byte := 0x04
  const CMD_PUSH_RESULT: byte := 0x05
  const CMD_GET_AP_SSID: byte := 0x06
  const CMD_GET_AP_PASSWD: byte := 0x07
  const CMD_SCAN_WIFI: byte := 0x08
  const CMD_PUSH_SCAN_RESULT: byte := 0x09
  const CMD_SWITCH_TO_AP: byte := 0x0A

  const ERR_NONE: byte := 0x00
  const ERR_BAD_CMD: byte := 0x01
  const ERR_NO_SSID: byte := 0x02
  const ERR_BAD_PASSWORD: byte := 0x03
  const ERR_CONNECT_FAIL: byte := 0x04
  const ERR_IN_PROGRESS: byte := 0x05
  const ERR_UNKNOWN: byte := 0xFF

  const WIFI_CONNECTED: byte := 0x00
  const WIFI_DISCONNECTED: byte := 0x01

  const SSID_MAX: nat := 32
  const PASSWD_MAX: nat := 63

  datatype WifiStatus = WifiOk | WifiNoSsid | WifiBadPassword | WifiConnectFail | WifiBusy | WifiUnknown

  function ErrCode(st: WifiStatus): byte {
    match st
    case WifiOk => ERR_NONE
    case WifiNoSsid => ERR_NO_SSID
    case WifiBadPassword => ERR_BAD_PASSWORD
    case WifiConnectFail => ERR_CONNECT_FAIL
    case WifiBusy => ERR_UNKNOWN
    case WifiUnknown => ERR_UNKNOWN
  }

  /** Stored credentials; a zero length means that nothing was stored. */
  datatype Pending = Pending(ssid: seq<byte>, passwd: seq<byte>)

  const NOTHING_PENDING := Pending([], [])

  datatype ApCredentials = ApCredentials(ssid: seq<byte>, passwd: seq<byte>)

  /** What the rest of the process answers while one frame is handled. */
  datatype Env = Env(connected: bool, ap: Option<ApCredentials>, ensureAp: WifiStatus, jobAllocated: bool)

  datatype Job =
    | ConnectJob(seqNo: byte, ssid: seq<byte>, passwd: seq<byte>)
    | ScanJob(seqNo: byte)

  /** What handling a frame asks for: nothing, one reply, or a worker with the reply for either outcome
      of starting it. */
  datatype Action =
    | Silent
    | Reply(frame: Frame)
    | Spawn(job: Job, onSpawn: Frame, onFail: Frame)

  datatype Routed = Routed(pending: Pending, action: Action)

  function Response(req: Frame, payload: seq<byte>): Frame {
    Frame(0, TYPE_RESP, req.seqNo, req.commandSet, req.commandId, payload)
  }

  function ResponseData(req: Frame, data: seq<byte>): Frame {
    Response(req, [ERR_NONE] + Cut(data))
  }

  /** What of a string the handlers pass on: all that fits behind an error code. */
  function Cut(data: seq<byte>): seq<byte> {
    data[..Min(|data|, PAYLOAD_MAX - 1)]
  }

  predicate InRange(payload: seq<byte>, max: nat) {
    0 < |payload| <= max
  }

  function Route(p: Pending, req: Frame, env: Env): Routed {
    if req.kind != TYPE_REQ then Routed(p, Silent)
    else if req.commandSet != CMDSET_NETWORK then Routed(p, Reply(Response(req, [ERR_BAD_CMD])))
    else if req.commandId == CMD_GET_WIFI_STATE then
      Routed(p, Reply(Response(req, [if env.connected then WIFI_CONNECTED else WIFI_DISCONNECTED])))
    else if req.commandId == CMD_STATUS then Routed(p, Reply(Response(req, [ERR_NONE])))
    else if req.commandId == CMD_SSID then
      if !InRange(req.payload, SSID_MAX) then Routed(p, Reply(Response(req, [ERR_UNKNOWN])))
      else Routed(p.(ssid := req.payload), Reply(Response(req, [ERR_NONE])))
    else if req.commandId == CMD_PASSWD then
      if !InRange(req.payload, PASSWD_MAX) then Routed(p, Reply(Response(req, [ERR_UNKNOWN])))
      else Routed(p.(passwd := req.payload), Reply(Response(req, [ERR_NONE])))
    else if req.commandId == CMD_CONNECT then Routed(p, RouteConnect(p, req, env))
    else if req.commandId == CMD_GET_AP_SSID then
      if env.ap.Some? && env.ap.value.ssid != [] then Routed(p, Reply(ResponseData(req, env.ap.value.ssid)))
      else Routed(p, Reply(Response(req, [ERR_UNKNOWN])))
    else if req.commandId == CMD_SCAN_WIFI then
      if !env.jobAllocated then Routed(p, Reply(Response(req, [ERR_UNKNOWN])))
      else Routed(p, SpawnFor(req, ScanJob(req.seqNo)))
    else if req.commandId == CMD_GET_AP_PASSWD then
      if env.ap.Some? then Routed(p, Reply(ResponseData(req, env.ap.value.passwd)))
      else Routed(p, Reply(Response(req, [ERR_UNKNOWN])))
    else if req.commandId == CMD_SWITCH_TO_AP then Routed(p, Reply(Response(req, [ErrCode(env.ensureAp)])))
    else Routed(p, Reply(Response(req, [ERR_BAD_CMD])))
  }

  function RouteConnect(p: Pending, req: Frame, env: Env): Action {
    if p.ssid == [] then Reply(Response(req, [ERR_NO_SSID]))
    else if !env.jobAllocated then Reply(Response(req, [ERR_UNKNOWN]))
    else SpawnFor(req, ConnectJob(req.seqNo, p.ssid, p.passwd))
  }

  function SpawnFor(req: Frame, job: Job): Action {
    Spawn(job, Response(req, [ERR_IN_PROGRESS]), Response(req, [ERR_UNKNOWN]))
  }

  // ---------- replies ----------

  /** `r` answers `req`: a response that carries back its sequence number, command set and id,
      and that the codec can carry. */
  predicate Answers(r: Frame, req: Frame) {
    && r.kind == TYPE_RESP && r.crc == 0
    && r.seqNo == req.seqNo && r.commandSet == req.commandSet && r.commandId == req.commandId
    && 1 <= |r.payload| && r.Valid()
  }

  ghost predicate MayReply(a: Action, r: Frame) {
    match a
    case Silent => false
    case Reply(f) => r == f
    case Spawn(_, onSpawn, onFail) => r == onSpawn || r == onFail
  }

  /** A request is answered whatever happens, and every possible answer echoes it; other frames
      are not answered and store nothing. */
  lemma RouteAnswers(p: Pending, req: Frame, env: Env)
    ensures Route(p, req, env).action.Silent? <==> req.kind != TYPE_REQ
    ensures req.kind != TYPE_REQ ==> Route(p, req, env).pending == p
    ensures forall r :: MayReply(Route(p, req, env).action, r) ==> Answers(r, req)
  {
  }

  // ---------- the pending credentials over a history of frames ----------

  predicate AcceptsSsid(f: Frame) {
    f.kind == TYPE_REQ && f.commandSet == CMDSET_NETWORK && f.commandId == CMD_SSID
    && InRange(f.payload, SSID_MAX)
  }

  predicate AcceptsPasswd(f: Frame) {
    f.kind == TYPE_REQ && f.commandSet == CMDSET_NETWORK && f.commandId == CMD_PASSWD
    && InRange(f.payload, PASSWD_MAX)
  }

  predicate IsConnect(f: Frame) {
    f.kind == TYPE_REQ && f.commandSet == CMDSET_NETWORK && f.commandId == CMD_CONNECT
  }

  predicate IsScan(f: Frame) {
    f.kind == TYPE_REQ && f.commandSet == CMDSET_NETWORK && f.commandId == CMD_SCAN_WIFI
  }

  /** `v` is the payload of the last frame of `history` that satisfies `accepts`; empty if there is none. */
  ghost predicate Latest(history: seq<Frame>, accepts: Frame -> bool, v: seq<byte>) {
    || (v == [] && forall i :: 0 <= i < |history| ==> !accepts(history[i]))
    || (exists i :: 0 <= i < |history| && accepts(history[i]) && v == history[i].payload
                    && forall j :: i < j < |history| ==> !accepts(history[j]))
  }

  ghost predicate LatestPending(history: seq<Frame>, p: Pending) {
    Latest(history, AcceptsSsid, p.ssid) && Latest(history, AcceptsPasswd, p.passwd)
  }

  lemma LatestSnoc(history: seq<Frame>, accepts: Frame -> bool, v: seq<byte>, f: Frame)
    requires Latest(history, accepts, v)
    ensures Latest(history + [f], accepts, if accepts(f) then f.payload else v)
  {
    var h := history + [f];
    assert h[|history|] == f;
    if accepts(f) {
      assert Latest(h, accepts, f.payload);
    } else if forall i :: 0 <= i < |history| ==> !accepts(history[i]) {
      assert Latest(h, accepts, v);
    } else {
      var i :| 0 <= i < |history| && accepts(history[i]) && v == history[i].payload
               && forall j :: i < j < |history| ==> !accepts(history[j]);
      assert h[i] == history[i];
    }
  }

  /** Routing one more frame keeps the store equal to the latest accepted values. */
  lemma RouteKeepsLatest(history: seq<Frame>, p: Pending, req: Frame, env: Env)
    requires LatestPending(history, p)
    ensures LatestPending(history + [req], Route(p, req, env).pending)
  {
    LatestSnoc(history, AcceptsSsid, p.ssid, req);
    LatestSnoc(history, AcceptsPasswd, p.passwd, req);
  }

  /** A CONNECT is refused with NO_SSID exactly when no SSID was ever accepted; the job it otherwise
      starts carries the latest accepted SSID and password and the request's sequence number. */
  lemma ConnectUsesLatest(history: seq<Frame>, p: Pending, req: Frame, env: Env)
    requires LatestPending(history, p) && IsConnect(req)
    ensures var a := Route(p, req, env).action;
            && (forall r :: MayReply(a, r) ==>
                  (r.payload == [ERR_NO_SSID] <==> forall i :: 0 <= i < |history| ==> !AcceptsSsid(history[i])))
            && (a.Spawn? ==> a.job.ConnectJob? && a.job.seqNo == req.seqNo && a.job.ssid != []
                             && Latest(history, AcceptsSsid, a.job.ssid)
                             && Latest(history, AcceptsPasswd, a.job.passwd))
  {
    assert p.ssid == [] <==> forall i :: 0 <= i < |history| ==> !AcceptsSsid(history[i]);
  }

  lemma JobComesFromItsCommand(p: Pending, req: Frame, env: Env)
    requires Route(p, req, env).action.Spawn?
    ensures if Route(p, req, env).action.job.ConnectJob? then IsConnect(req) else IsScan(req)
    ensures Route(p, req, env).action.job.seqNo == req.seqNo
  {
  }

  // ---------- what a worker pushes ----------

  datatype JobResult =
    | ConnectDone(status: WifiStatus)
    | ScanDone(entries: seq<ScanPush.Entry>)

  predicate Fits(job: Job, result: JobResult) {
    job.ConnectJob? <==> result.ConnectDone?
  }

  ghost predicate WellFormed(result: JobResult) {
    result.ScanDone? ==> ScanPush.AllValid(result.entries)
  }

  function Push(seqNo: byte, commandId: byte, payload: seq<byte>): Frame {
    Frame(0, TYPE_REQ, seqNo, CMDSET_NETWORK, commandId, payload)
  }

  ghost function PushAll(seqNo: byte, payloads: seq<seq<byte>>): seq<Frame> {
    seq(|payloads|, i requires 0 <= i < |payloads| => Push(seqNo, CMD_PUSH_SCAN_RESULT, payloads[i]))
  }

  /** The frames a finished worker sends, in order. */
  ghost function Pushes(job: Job, result: JobResult): seq<Frame>
    requires Fits(job, result) && WellFormed(result)
  {
    match result
    case ConnectDone(st) => [Push(job.seqNo, CMD_PUSH_RESULT, [ErrCode(st)])]
    case ScanDone(entries) => PushAll(job.seqNo, ScanPush.Payloads(entries, 0))
  }

  lemma PushesValid(job: Job, result: JobResult)
    requires Fits(job, result) && WellFormed(result)
    ensures AllValid(Pushes(job, result))
    ensures forall i :: 0 <= i < |Pushes(job, result)| ==>
              var f := Pushes(job, result)[i]; f.seqNo == job.seqNo && f.crc == 0 && f.kind == TYPE_REQ
  {
    if result.ScanDone? {
      forall i | 0 <= i < |Pushes(job, result)|
        ensures Pushes(job, result)[i].Valid()
      {
        ScanPush.PayloadFits(result.entries, 0, i);
      }
    }
  }
}
