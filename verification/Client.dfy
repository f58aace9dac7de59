/** The reference-counted connection object of system_service/unix_ipc.c.

    Each function on `Client` is the effect of one critical section of the client lock (or of the
    `free` after it).  Misuse is recorded instead of excluded: touching a freed client counts a
    fault, and every close and free is counted. */
module ClientObject {
  import opened Bytes

  datatype Client = Client(open: bool, refs: int, wire: seq<byte>, closes: nat, frees: nat, faults: nat) {

    function Touch(): Client {
      if frees > 0 then this.(faults := faults + 1) else this
    }

    /** The send section: `k` of the bytes reach the socket, none when the descriptor is closed. */
    function Send(data: seq<byte>, k: nat): Client
      requires k <= |data|
    {
      var d := Touch();
      if d.open then d.(wire := d.wire + data[..k]) else d
    }

    function Retain(): Client {
      var d := Touch();
      d.(refs := d.refs + 1)
    }

    function CloseFd(): Client {
      if open then this.(open := false, closes := closes + 1) else this
    }

    /** The reader's own shutdown section. */
    function Shut(): Client {
      Touch().CloseFd()
    }

    /** The locked part of release; the caller frees afterwards when the count reached zero. */
    function Drop(): Client {
      var d := Touch();
      var e := d.(refs := d.refs - 1);
      if e.refs == 0 then e.CloseFd() else e
    }

    function Free(): Client {
      this.(frees := frees + 1)
    }

    function Release(): Client {
      var d := Drop();
      if d.refs == 0 then d.Free() else d
    }
  }

  const ACCEPTED := Client(true, 1, [], 0, 0, 0)

  /** How many of `n` bytes a write(2) takes that returns `result`: none after an error. */
  function Taken(result: int, n: nat): (k: nat)
    ensures k <= n
  {
    if result < 0 then 0 else Min(result, n)
  }

  /** How many of `len` bytes the calls from number `first` up to `last` take, each offered what is left. */
  function Written(writes: nat -> int, first: nat, last: nat, len: nat): (k: nat)
    requires first <= last
    ensures k <= len
  {
    if first == last then 0
    else
      var k := Written(writes, first, last - 1, len);
      k + Taken(writes(last - 1), len - k)
  }

  class UnixClient {
    /** What the write(2) calls on the descriptor return, in order.  A call interrupted by a signal is made again,
        so it is part of the next one. */
    const writes: nat -> int
    var calls: nat
    var fd: int
    var refcount: int
    ghost var wire: seq<byte>
    ghost var closes: nat
    ghost var frees: nat

    ghost function State(): Client
      reads this
    {
      Client(fd >= 0, refcount, wire, closes, frees, 0)
    }

    constructor (fd: nat, writes: nat -> int)
      ensures State() == ACCEPTED && calls == 0 && this.writes == writes
    {
      this.fd, refcount := fd, 1;
      this.writes, calls := writes, 0;
      wire, closes, frees := [], 0, 0;
    }

    /** Stops short only at a call that fails or takes nothing, and makes no call after it. */
    method Send(data: array<byte>, len: nat) returns (ghost k: nat)
      requires len <= data.Length && frees == 0
      modifies this`wire, this`calls
      ensures k <= len && State() == old(State()).Send(data[..len], k)
      ensures old(calls) <= calls && (fd < 0 ==> calls == old(calls) && k == 0)
      ensures fd >= 0 ==> k == Written(writes, old(calls), calls, len)
      ensures fd >= 0 && k < len ==> old(calls) < calls
      ensures forall j :: old(calls) <= j < calls ==> (writes(j) <= 0 <==> k < len && j == calls - 1)
    {
      var total := 0;
      if fd < 0 {
        return 0;
      }
      while total < len
        invariant 0 <= total <= len && old(calls) <= calls
        invariant wire == old(wire) + data[..total]
        invariant total == Written(writes, old(calls), calls, len)
        invariant forall j :: old(calls) <= j < calls ==> writes(j) > 0
      {
        var w := writes(calls);
        calls := calls + 1;
        if w < 0 {
          break;
        }
        if w == 0 {
          break;
        }
        var taken := Min(w, len - total);
        wire := wire + data[total..total + taken];
        total := total + taken;
      }
      k := total;
      assert data[..len][..total] == data[..total];
    }

    method Retain()
      requires frees == 0
      modifies this`refcount
      ensures State() == old(State()).Retain()
    {
      refcount := refcount + 1;
    }

    method Release()
      requires frees == 0
      modifies this
      ensures State() == old(State()).Release()
    {
      var freeNow := false;
      refcount := refcount - 1;
      if refcount == 0 {
        if fd >= 0 {
          fd, closes := -1, closes + 1;
        }
        freeNow := true;
      }
      if freeNow {
        frees := frees + 1;
      }
    }

    /** The end of client_thread: mark the descriptor dead, then drop the reader's reference. */
    method Finish()
      requires frees == 0
      modifies this
      ensures State() == old(State()).Shut().Release()
    {
      if fd >= 0 {
        fd, closes := -1, closes + 1;
      }
      Release();
    }
  }
}
