/** The dispatcher as imperative code: the process-wide credential buffers, the frame handler and the
    buffer walker of system_service/proto_dispatch.c, proved against `Route` and `Walk`. */
module Dispatcher {
  import opened Bytes
  import opened Protocol
  import opened ClientObject
  import opened Dispatch

  /** A client after one reply of which `k` bytes got out. */
  function Replied(c: Client, f: Frame, k: nat): Client
    requires f.Representable()
  {
    c.Send(Encode(f), Min(k, f.Size()))
  }

  ghost predicate Sendable(a: Action) {
    match a
    case Silent => true
    case Reply(f) => f.Valid()
    case Spawn(_, onSpawn, onFail) => onSpawn.Valid() && onFail.Valid()
  }

  /** A client after the dispatcher carried out `a`. */
  function Serve(c: Client, a: Action, spawned: bool, k: nat): Client
    requires Sendable(a)
  {
    match a
    case Silent => c
    case Reply(f) => Replied(c, f, k)
    case Spawn(_, onSpawn, onFail) =>
      if spawned then Replied(c.Retain(), onSpawn, k) else Replied(c.Retain().Release(), onFail, k)
  }

  lemma RouteSendable(p: Pending, req: Frame, env: Env)
    ensures Sendable(Route(p, req, env).action)
  {
  }

  function JobOf(a: Action, spawned: bool): Option<Job> {
    if a.Spawn? && spawned then Some(a.job) else None
  }

  /** Encodes a frame into a stack buffer and hands it to the sink; a payload over 256 bytes is not sent. */
  method SendProtoFrame(sink: UnixClient, kind: byte, seqNo: byte, commandSet: byte, commandId: byte,
                        payload: array<byte>, plen: word) returns (ghost k: nat)
    requires plen <= payload.Length && sink.frees == 0
    modifies sink`wire, sink`calls
    ensures sink.State()
            == if plen <= PAYLOAD_MAX
               then Replied(old(sink.State()), Frame(0, kind, seqNo, commandSet, commandId, payload[..plen]), k)
               else old(sink.State())
    ensures plen <= PAYLOAD_MAX && sink.fd >= 0 && k < HDR_LEN + plen ==>
              old(sink.calls) < sink.calls && sink.writes(sink.calls - 1) <= 0
  {
    var buf := new byte[HDR_LEN + PAYLOAD_MAX];
    k := 0;
    var r := ProtoEncode(buf, HDR_LEN + PAYLOAD_MAX, kind, seqNo, commandSet, commandId, payload, plen);
    if r.Written? {
      k := sink.Send(buf, r.bytes);
    }
  }

  method SendResponse(sink: UnixClient, f: FrameView, ghost req: Frame, errcode: byte) returns (ghost k: nat)
    requires sink.frees == 0
    requires f.seqNo == req.seqNo && f.commandSet == req.commandSet && f.commandId == req.commandId
    modifies sink`wire, sink`calls
    ensures sink.State() == Replied(old(sink.State()), Response(req, [errcode]), k)
  {
    var payload := new byte[1] [errcode];
    assert payload[..1] == [errcode];
    k := SendProtoFrame(sink, TYPE_RESP, f.seqNo, f.commandSet, f.commandId, payload, 1);
  }

  /** Refuses, by sending nothing, data that does not fit behind the error code. */
  method SendResponseData(sink: UnixClient, f: FrameView, ghost req: Frame, errcode: byte, data: seq<byte>)
    returns (ghost k: nat)
    requires sink.frees == 0
    requires f.seqNo == req.seqNo && f.commandSet == req.commandSet && f.commandId == req.commandId
    modifies sink`wire, sink`calls
    ensures sink.State() == if |data| + 1 <= PAYLOAD_MAX
                            then Replied(old(sink.State()), Response(req, [errcode] + data), k)
                            else old(sink.State())
  {
    var n := |data|;
    k := 0;
    if n + 1 > PAYLOAD_MAX {
      return;
    }
    var payload := new byte[PAYLOAD_MAX];
    payload[0] := errcode;
    forall i | 0 <= i < n {
      payload[1 + i] := data[i];
    }
    assert payload[..n + 1] == [errcode] + data;
    k := SendProtoFrame(sink, TYPE_RESP, f.seqNo, f.commandSet, f.commandId, payload, n + 1);
  }

  /** The pending store, the client and the workers started so far. */
  datatype Served = Served(pending: Pending, client: Client, jobs: seq<Job>)

  function WithJob(jobs: seq<Job>, job: Option<Job>): seq<Job> {
    if job.Some? then jobs + [job.value] else jobs
  }

  /** The same after handling one more frame. */
  ghost function ServeOne(x: Served, f: Frame, env: Env, spawned: bool, k: nat): Served {
    var r := Route(x.pending, f, env);
    RouteSendable(x.pending, f, env);
    Served(r.pending, Serve(x.client, r.action, spawned, k), WithJob(x.jobs, JobOf(r.action, spawned)))
  }

  /** The same after handling `fs` in order.  The definition goes through two further names, so that what a
      frame does is unfolded only where a proof asks for it. */
  ghost function ServeAll(x: Served, fs: seq<Frame>, envs: nat -> Env, spawned: nat -> bool, ks: seq<nat>): Served
    requires |ks| == |fs|
    decreases |fs|, 2
  {
    if fs == [] then x else ServeSome(x, fs, envs, spawned, ks)
  }

  ghost function ServeSome(x: Served, fs: seq<Frame>, envs: nat -> Env, spawned: nat -> bool, ks: seq<nat>): Served
    requires |ks| == |fs| && fs != []
    decreases |fs|, 1
  {
    ServeLast(x, fs, envs, spawned, ks)
  }

  ghost function ServeLast(x: Served, fs: seq<Frame>, envs: nat -> Env, spawned: nat -> bool, ks: seq<nat>): Served
    requires |ks| == |fs| && fs != []
    decreases |fs|, 0
  {
    var n := |fs| - 1;
    ServeOne(ServeAll(x, fs[..n], envs, spawned, ks[..n]), fs[n], envs(n), spawned(n), ks[n])
  }

  lemma ServeAllSnoc(x: Served, fs: seq<Frame>, f: Frame, envs: nat -> Env, spawned: nat -> bool,
                     ks: seq<nat>, k: nat)
    requires |ks| == |fs|
    ensures ServeAll(x, fs + [f], envs, spawned, ks + [k])
            == ServeOne(ServeAll(x, fs, envs, spawned, ks), f, envs(|fs|), spawned(|fs|), k)
  {
    assert (fs + [f])[..|fs|] == fs && (ks + [k])[..|fs|] == ks;
    assert ServeAll(x, fs + [f], envs, spawned, ks + [k]) == ServeSome(x, fs + [f], envs, spawned, ks + [k]);
    assert ServeSome(x, fs + [f], envs, spawned, ks + [k]) == ServeLast(x, fs + [f], envs, spawned, ks + [k]);
  }

  /** The frames handled so far and those of `buf` from position `off` on, again through two further names. */
  ghost function Ahead(buf: seq<byte>, off: nat, done: seq<Frame>): seq<Frame>
    requires off <= |buf|
    decreases |buf| - off, 2
  {
    if off == |buf| then done else AheadHere(buf, off, done)
  }

  ghost function AheadHere(buf: seq<byte>, off: nat, done: seq<Frame>): seq<Frame>
    requires off < |buf|
    decreases |buf| - off, 1
  {
    AheadThen(buf, off, done)
  }

  ghost function AheadThen(buf: seq<byte>, off: nat, done: seq<Frame>): seq<Frame>
    requires off < |buf|
    decreases |buf| - off, 0
  {
    match Decode(buf[off..])
    case Err(_) => done
    case Ok(f) => Ahead(buf, off + f.Size(), done + [f])
  }

  lemma AheadNext(buf: seq<byte>, off: nat, done: seq<Frame>)
    requires off < |buf|
    ensures match Decode(buf[off..])
            case Err(_) => Ahead(buf, off, done) == done
            case Ok(f) => off + f.Size() <= |buf| && Ahead(buf, off, done) == Ahead(buf, off + f.Size(), done + [f])
  {
    assert Ahead(buf, off, done) == AheadHere(buf, off, done);
    assert AheadHere(buf, off, done) == AheadThen(buf, off, done);
  }

  lemma {:induction false} AheadWalks(buf: seq<byte>, off: nat, done: seq<Frame>)
    requires off <= |buf|
    ensures Ahead(buf, off, done) == done + Walk(buf[off..]).frames
    decreases |buf| - off
  {
    if off == |buf| {
      assert buf[off..] == [];
    } else {
      AheadNext(buf, off, done);
      if Decode(buf[off..]).Ok? {
        var f := Decode(buf[off..]).frame;
        AheadWalks(buf, off + f.Size(), done + [f]);
        assert buf[off..][f.Size()..] == buf[off + f.Size()..];
      }
    }
  }

  lemma AheadStart(buf: seq<byte>)
    ensures Ahead(buf, 0, []) == Walk(buf).frames
  {
    AheadWalks(buf, 0, []);
    assert buf[0..] == buf;
    assert [] + Walk(buf).frames == Walk(buf).frames;
  }

  class CommandDispatcher {
    const ssid: array<byte>
    const passwd: array<byte>
    var ssidLen: nat
    var passwdLen: nat

    ghost predicate Valid()
      reads this
    {
      && ssid.Length == SSID_MAX + 1 && passwd.Length == PASSWD_MAX + 1 && ssid != passwd
      && ssidLen <= SSID_MAX && passwdLen <= PASSWD_MAX
    }

    ghost function Stored(): Pending
      requires Valid()
      reads this, ssid, passwd
    {
      Pending(ssid[..ssidLen], passwd[..passwdLen])
    }

    /** All that handling frames changes. */
    ghost function Now(sink: UnixClient, jobs: seq<Job>): Served
      requires Valid()
      reads this, ssid, passwd, sink
    {
      Served(Stored(), sink.State(), jobs)
    }

    constructor ()
      ensures Valid() && Stored() == NOTHING_PENDING && fresh(ssid) && fresh(passwd)
    {
      ssid := new byte[SSID_MAX + 1];
      passwd := new byte[PASSWD_MAX + 1];
      ssidLen, passwdLen := 0, 0;
    }

    method HandleSsid(f: FrameView, data: array<byte>, ghost req: Frame) returns (errcode: byte)
      requires Valid() && f.Denotes(data, req) && data != ssid && data != passwd
      modifies this`ssidLen, ssid
      ensures Valid()
      ensures InRange(req.payload, SSID_MAX) ==>
                errcode == ERR_NONE && Stored() == old(Stored()).(ssid := req.payload)
      ensures !InRange(req.payload, SSID_MAX) ==> errcode == ERR_UNKNOWN && Stored() == old(Stored())
    {
      if f.msgLen == 0 || f.msgLen > SSID_MAX {
        return ERR_UNKNOWN;
      }
      var at := f.payloadAt.value;
      forall i | 0 <= i < f.msgLen {
        ssid[i] := data[at + i];
      }
      ssid[f.msgLen] := 0;
      ssidLen := f.msgLen;
      return ERR_NONE;
    }

    method HandlePasswd(f: FrameView, data: array<byte>, ghost req: Frame) returns (errcode: byte)
      requires Valid() && f.Denotes(data, req) && data != ssid && data != passwd
      modifies this`passwdLen, passwd
      ensures Valid()
      ensures InRange(req.payload, PASSWD_MAX) ==>
                errcode == ERR_NONE && Stored() == old(Stored()).(passwd := req.payload)
      ensures !InRange(req.payload, PASSWD_MAX) ==> errcode == ERR_UNKNOWN && Stored() == old(Stored())
    {
      if f.msgLen == 0 || f.msgLen > PASSWD_MAX {
        return ERR_UNKNOWN;
      }
      var at := f.payloadAt.value;
      forall i | 0 <= i < f.msgLen {
        passwd[i] := data[at + i];
      }
      passwd[f.msgLen] := 0;
      passwdLen := f.msgLen;
      return ERR_NONE;
    }

    /** Starts a worker: takes a sink reference for it and gives it back when the thread cannot start. */
    method StartWorker(sink: UnixClient, spawned: bool) returns (errcode: byte)
      requires sink.frees == 0 && sink.refcount > 0
      modifies sink
      ensures sink.State() == if spawned then old(sink.State()).Retain() else old(sink.State()).Retain().Release()
      ensures errcode == if spawned then ERR_IN_PROGRESS else ERR_UNKNOWN
      ensures sink.frees == 0 && sink.refcount > 0
    {
      sink.Retain();
      if !spawned {
        sink.Release();
        return ERR_UNKNOWN;
      }
      return ERR_IN_PROGRESS;
    }

    method HandleConnect(f: FrameView, sink: UnixClient, ghost req: Frame, env: Env, spawned: bool)
      returns (job: Option<Job>, ghost k: nat)
      requires Valid() && sink.frees == 0 && sink.refcount > 0
      requires f.seqNo == req.seqNo && f.commandSet == req.commandSet && f.commandId == req.commandId
      modifies sink
      ensures Sendable(RouteConnect(Stored(), req, env))
      ensures sink.State() == Serve(old(sink.State()), RouteConnect(Stored(), req, env), spawned, k)
      ensures job == JobOf(RouteConnect(Stored(), req, env), spawned)
    {
      job := None;
      if ssidLen == 0 {
        k := SendResponse(sink, f, req, ERR_NO_SSID);
      } else if !env.jobAllocated {
        k := SendResponse(sink, f, req, ERR_UNKNOWN);
      } else {
        var errcode := StartWorker(sink, spawned);
        if spawned {
          job := Some(ConnectJob(f.seqNo, ssid[..ssidLen], passwd[..passwdLen]));
        }
        k := SendResponse(sink, f, req, errcode);
      }
    }

    method HandleScan(f: FrameView, sink: UnixClient, ghost req: Frame, env: Env, spawned: bool)
      returns (job: Option<Job>, ghost k: nat)
      requires sink.frees == 0 && sink.refcount > 0
      requires f.seqNo == req.seqNo && f.commandSet == req.commandSet && f.commandId == req.commandId
      modifies sink
      ensures var a := if env.jobAllocated then SpawnFor(req, ScanJob(req.seqNo))
                       else Reply(Response(req, [ERR_UNKNOWN]));
              sink.State() == Serve(old(sink.State()), a, spawned, k) && job == JobOf(a, spawned)
    {
      job := None;
      if !env.jobAllocated {
        k := SendResponse(sink, f, req, ERR_UNKNOWN);
      } else {
        var errcode := StartWorker(sink, spawned);
        if spawned {
          job := Some(ScanJob(f.seqNo));
        }
        k := SendResponse(sink, f, req, errcode);
      }
    }

    /** Handles one decoded frame. */
    method HandleFrame(f: FrameView, data: array<byte>, sink: UnixClient, ghost req: Frame, env: Env,
                       spawned: bool)
      returns (job: Option<Job>, ghost k: nat)
      requires Valid() && f.Denotes(data, req) && data != ssid && data != passwd
      requires sink.frees == 0 && sink.refcount > 0
      modifies this`ssidLen, this`passwdLen, ssid, passwd, sink
      ensures Valid() && Stored() == Route(old(Stored()), req, env).pending
      ensures Sendable(Route(old(Stored()), req, env).action)
      ensures sink.State() == Serve(old(sink.State()), Route(old(Stored()), req, env).action, spawned, k)
      ensures job == JobOf(Route(old(Stored()), req, env).action, spawned)
      ensures sink.frees == 0 && sink.refcount > 0
    {
      RouteSendable(Stored(), req, env);
      job, k := None, 0;
      if f.kind != TYPE_REQ {
        return;
      }
      var cid := f.commandId;
      if f.commandSet == CMDSET_NETWORK && cid == CMD_SSID {
        var errcode := HandleSsid(f, data, req);
        k := SendResponse(sink, f, req, errcode);
      } else if f.commandSet == CMDSET_NETWORK && cid == CMD_PASSWD {
        var errcode := HandlePasswd(f, data, req);
        k := SendResponse(sink, f, req, errcode);
      } else if f.commandSet == CMDSET_NETWORK && cid == CMD_CONNECT {
        job, k := HandleConnect(f, sink, req, env, spawned);
      } else if f.commandSet == CMDSET_NETWORK && cid == CMD_SCAN_WIFI {
        job, k := HandleScan(f, sink, req, env, spawned);
      } else {
        k := HandleQuery(f, sink, req, env);
      }
    }

    /** The commands that only read state, and the refusals. */
    method HandleQuery(f: FrameView, sink: UnixClient, ghost req: Frame, env: Env) returns (ghost k: nat)
      requires Valid() && sink.frees == 0 && f.kind == req.kind == TYPE_REQ
      requires f.seqNo == req.seqNo && f.commandSet == req.commandSet && f.commandId == req.commandId
      requires f.commandSet == CMDSET_NETWORK ==>
                 f.commandId != CMD_SSID && f.commandId != CMD_PASSWD && f.commandId != CMD_CONNECT
                 && f.commandId != CMD_SCAN_WIFI
      modifies sink`wire, sink`calls
      ensures Route(Stored(), req, env).pending == Stored() && Route(Stored(), req, env).action.Reply?
      ensures Route(Stored(), req, env).action.frame.Valid()
      ensures sink.State() == Replied(old(sink.State()), Route(Stored(), req, env).action.frame, k)
    {
      var cid := f.commandId;
      if f.commandSet != CMDSET_NETWORK {
        k := SendResponse(sink, f, req, ERR_BAD_CMD);
      } else if cid == CMD_GET_WIFI_STATE {
        k := SendResponse(sink, f, req, if env.connected then WIFI_CONNECTED else WIFI_DISCONNECTED);
      } else if cid == CMD_STATUS {
        k := SendResponse(sink, f, req, ERR_NONE);
      } else if cid == CMD_GET_AP_SSID && env.ap.Some? && env.ap.value.ssid != [] {
        k := SendResponseData(sink, f, req, ERR_NONE, Cut(env.ap.value.ssid));
      } else if cid == CMD_GET_AP_PASSWD && env.ap.Some? {
        k := SendResponseData(sink, f, req, ERR_NONE, Cut(env.ap.value.passwd));
      } else if cid == CMD_GET_AP_SSID || cid == CMD_GET_AP_PASSWD {
        k := SendResponse(sink, f, req, ERR_UNKNOWN);
      } else if cid == CMD_SWITCH_TO_AP {
        k := SendResponse(sink, f, req, ErrCode(env.ensureAp));
      } else {
        k := SendResponse(sink, f, req, ERR_BAD_CMD);
      }
    }

    /** Decodes and handles the frame at `off`; `size` is 0 when no frame starts there. */
    method DispatchNext(data: array<byte>, off: nat, len: nat, sink: UnixClient, env: Env, spawned: bool,
                        jobs: seq<Job>, ghost was: Served)
      returns (size: nat, jobs': seq<Job>, ghost k: nat)
      requires Valid() && off <= len <= data.Length && data != ssid && data != passwd
      requires sink.frees == 0 && sink.refcount > 0 && Now(sink, jobs) == was
      modifies this`ssidLen, this`passwdLen, ssid, passwd, sink
      ensures Valid() && sink.frees == 0 && sink.refcount > 0
      ensures match Decode(data[off..len])
              case Err(_) => size == 0 && Now(sink, jobs') == was
              case Ok(req) => size == req.Size() && Now(sink, jobs') == ServeOne(was, req, env, spawned, k)
    {
      var f := new FrameView();
      var st := ProtoDecode(data, off, len - off, f);
      if st.Some? {
        return 0, jobs, 0;
      }
      ghost var req := Decode(data[off..len]).frame;
      var job;
      job, k := HandleFrame(f, data, sink, req, env, spawned);
      jobs' := WithJob(jobs, job);
      size := f.frameSize;
    }

    /** The same as one more frame of a walk over `buf`: `done` are the frames handled so far. */
    method DispatchMore(data: array<byte>, off: nat, len: nat, sink: UnixClient, envs: nat -> Env,
                        spawned: nat -> bool, i: nat, jobs: seq<Job>, ghost buf: seq<byte>, ghost start: Served,
                        ghost done: seq<Frame>, ghost ks: seq<nat>)
      returns (size: nat, jobs': seq<Job>, ghost done': seq<Frame>, ghost ks': seq<nat>)
      requires Valid() && off < len <= data.Length && data != ssid && data != passwd && data[..len] == buf
      requires sink.frees == 0 && sink.refcount > 0 && i == |done| == |ks|
      requires Now(sink, jobs) == ServeAll(start, done, envs, spawned, ks)
      modifies this`ssidLen, this`passwdLen, ssid, passwd, sink
      ensures Valid() && sink.frees == 0 && sink.refcount > 0 && data[..len] == buf
      ensures off + size <= len && |done'| == |ks'| == if size == 0 then i else i + 1
      ensures Now(sink, jobs') == ServeAll(start, done', envs, spawned, ks')
      ensures Ahead(buf, off, done) == if size == 0 then done' else Ahead(buf, off + size, done')
    {
      TakeDrop(data[..], off, len);
      ghost var found := Decode(data[off..len]);
      ghost var k;
      size, jobs', k := DispatchNext(data, off, len, sink, envs(i), spawned(i), jobs,
                                     ServeAll(start, done, envs, spawned, ks));
      done', ks' := done, ks;
      AheadNext(buf, off, done);
      if found.Ok? {
        ServeAllSnoc(start, done, found.frame, envs, spawned, ks, k);
        done', ks' := done + [found.frame], ks + [k];
      }
    }

    /** Walks a buffer: handles exactly its leading frames, in order, and stops. */
    method DispatchBuffer(data: array<byte>, len: nat, sink: UnixClient, envs: nat -> Env, spawned: nat -> bool)
      returns (jobs: seq<Job>, ghost ks: seq<nat>)
      requires Valid() && len <= data.Length && data != ssid && data != passwd
      requires sink.frees == 0 && sink.refcount > 0
      modifies this`ssidLen, this`passwdLen, ssid, passwd, sink
      ensures Valid() && |ks| == |Walk(data[..len]).frames|
      ensures Now(sink, jobs) == ServeAll(old(Now(sink, [])), Walk(data[..len]).frames, envs, spawned, ks)
    {
      var off, i := 0, 0;
      jobs, ks := [], [];
      ghost var buf := data[..len];
      ghost var start := Now(sink, []);
      ghost var done: seq<Frame> := [];
      ghost var all := Ahead(buf, 0, []);
      AheadStart(buf);
      while off < len
        invariant i == |done| == |ks|
        invariant Valid() && sink.frees == 0 && sink.refcount > 0
        invariant data[..len] == buf
        invariant off <= len && Ahead(buf, off, done) == all
        invariant Now(sink, jobs) == ServeAll(start, done, envs, spawned, ks)
      {
        var size;
        size, jobs, done, ks := DispatchMore(data, off, len, sink, envs, spawned, i, jobs, buf, start, done, ks);
        if size == 0 {
          return;
        }
        off := off + size;
        i := i + 1;
      }
    }
  }
}
