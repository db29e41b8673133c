/** The transport under the session: a TLS stream that delivers the bytes the
    daemon sends and logs what the session writes, and a network through
    which a new TCP connection and TLS client handshake are attempted.

    The daemon's side is scripted: a stream holds the segments it will still
    deliver, and the network holds the outcome of each future connect. */
module Transport {
  import opened Messages

  /** The size of the read buffer of `ReadMessage` (2 KB). */
  const ReadSize: nat := 2048

  /** The bytes one read into a buffer of `size` bytes yields: as much of the
      next segment as fits. An empty segment, or no segment, is the end of
      the stream and yields nothing. */
  function ReadStep(inbound: seq<seq<Byte>>, size: nat): seq<Byte>
  {
    if size == 0 || inbound == [] then []
    else if |inbound[0]| <= size then inbound[0]
    else inbound[0][..size]
  }

  /** What is left to deliver after that read: the part of the segment that
      did not fit stays at the front. At the end of the stream nothing
      changes, so every later read yields nothing too. */
  function AfterRead(inbound: seq<seq<Byte>>, size: nat): seq<seq<Byte>>
  {
    if size == 0 || inbound == [] || inbound[0] == [] then inbound
    else if |inbound[0]| <= size then inbound[1..]
    else [inbound[0][size..]] + inbound[1..]
  }

  /** The successive non-empty results of reads of `size` bytes, up to the
      first read that yields nothing. Every chunk holds between 1 and
      `size` bytes. */
  function Chunks(inbound: seq<seq<Byte>>, size: nat): (cs: seq<seq<Byte>>)
    ensures forall i :: 0 <= i < |cs| ==> 0 < |cs[i]| <= size
    decreases |inbound|, if inbound == [] then 0 else |inbound[0]|
  {
    var c := ReadStep(inbound, size);
    if c == [] then [] else [c] + Chunks(AfterRead(inbound, size), size)
  }

  /** A read continues the chunk sequence: when the chunks still to come are
      `cs[taken..]`, a read yields nothing exactly when none is left, and
      otherwise yields `cs[taken]` and leaves `cs[taken + 1..]`. */
  lemma ReadAdvances(inbound: seq<seq<Byte>>, size: nat, cs: seq<seq<Byte>>, taken: nat)
    requires taken <= |cs| && Chunks(inbound, size) == cs[taken..]
    ensures ReadStep(inbound, size) == [] <==> taken == |cs|
    ensures taken < |cs| ==>
      cs[taken] == ReadStep(inbound, size) && Chunks(AfterRead(inbound, size), size) == cs[taken + 1..]
  {
    if ReadStep(inbound, size) != [] {
      assert Chunks(inbound, size) == [ReadStep(inbound, size)] + Chunks(AfterRead(inbound, size), size);
      assert cs[taken..][1..] == cs[taken + 1..];
    }
  }

  /** The bytes of the stream up to its end, in the order they are sent. */
  function StreamBytes(inbound: seq<seq<Byte>>): seq<Byte>
  {
    if inbound == [] || inbound[0] == [] then [] else inbound[0] + StreamBytes(inbound[1..])
  }

  /** The bytes of the chunks are those of the first read followed by those
      of the chunks after it. */
  lemma ChunksStep(inbound: seq<seq<Byte>>, size: nat)
    requires size > 0 && inbound != [] && inbound[0] != []
    ensures Concat(Chunks(inbound, size))
         == ReadStep(inbound, size) + Concat(Chunks(AfterRead(inbound, size), size))
  {
    var c, rest := ReadStep(inbound, size), Chunks(AfterRead(inbound, size), size);
    assert Chunks(inbound, size) == [c] + rest;
    ConcatAppend([c], rest);
    assert Concat([c]) == c + Concat([]);
  }

  /** The bytes of the stream are those of the first read followed by those
      still to be delivered after it. */
  lemma StreamStep(inbound: seq<seq<Byte>>, size: nat)
    requires size > 0 && inbound != [] && inbound[0] != []
    ensures StreamBytes(inbound) == ReadStep(inbound, size) + StreamBytes(AfterRead(inbound, size))
  {
    var a, rest := inbound[0], inbound[1..];
    if |a| > size {
      SplitSegment(a, rest, size);
    }
  }

  /** A segment longer than the buffer is delivered as its first `size`
      bytes followed by the remainder, which stays at the front. */
  lemma SplitSegment(a: seq<Byte>, rest: seq<seq<Byte>>, size: nat)
    requires 0 < size < |a|
    ensures StreamBytes([a] + rest) == a[..size] + StreamBytes([a[size..]] + rest)
  {
    var whole, after := [a] + rest, [a[size..]] + rest;
    assert whole[0] == a && whole[1..] == rest;
    assert after[0] == a[size..] && after[1..] == rest;
    var tail := StreamBytes(rest);
    assert StreamBytes(whole) == a + tail;
    assert StreamBytes(after) == a[size..] + tail;
    assert a == a[..size] + a[size..];
  }

  /** Reading in chunks neither drops nor reorders bytes: the chunks, put
      together, are exactly the bytes of the stream. */
  lemma {:induction false} ChunksPreserveBytes(inbound: seq<seq<Byte>>, size: nat)
    requires size > 0
    ensures Concat(Chunks(inbound, size)) == StreamBytes(inbound)
    decreases |inbound|, if inbound == [] then 0 else |inbound[0]|
  {
    if inbound != [] && inbound[0] != [] {
      ChunksPreserveBytes(AfterRead(inbound, size), size);
      ChunksStep(inbound, size);
      StreamStep(inbound, size);
    }
  }

  /** An established TLS stream (`SslStream`). `canRead` and
      `isAuthenticated` are the stream's `CanRead` and `IsAuthenticated`
      flags; `inbound` holds what the daemon will still deliver and `sent` is
      the append-only log of what was written. */
  class Channel {
    var canRead: bool
    var isAuthenticated: bool
    var inbound: seq<seq<Byte>>
    var sent: seq<Message>

    constructor (canRead: bool, isAuthenticated: bool, inbound: seq<seq<Byte>>)
      ensures this.canRead == canRead && this.isAuthenticated == isAuthenticated
      ensures this.inbound == inbound && sent == []
    {
      this.canRead := canRead;
      this.isAuthenticated := isAuthenticated;
      this.inbound := inbound;
      sent := [];
    }

    /** A stream just opened by a successful handshake, before any write. */
    ghost predicate Opened(inbound0: seq<seq<Byte>>)
      reads this
    {
      canRead && isAuthenticated && inbound == inbound0 && sent == []
    }

    /** `Read(buffer, 0, buffer.Length)`: copies the next bytes into the front
        of the buffer and returns how many; 0 means the stream has ended. */
    method Read(buffer: array<Byte>) returns (n: nat)
      modifies this`inbound, buffer
      ensures n <= buffer.Length
      ensures buffer[..n] == ReadStep(old(inbound), buffer.Length)
      ensures inbound == AfterRead(old(inbound), buffer.Length)
    {
      var c := ReadStep(inbound, buffer.Length);
      n := |c|;
      forall i | 0 <= i < n {
        buffer[i] := c[i];
      }
      assert buffer[..n] == c;
      inbound := AfterRead(inbound, buffer.Length);
    }

    /** `Write`: appends one message to the log. */
    method Write(m: Message)
      modifies this`sent
      ensures sent == old(sent) + [m]
    {
      sent := sent + [m];
    }
  }

  /** The host and port a TCP connection is opened to. */
  datatype Endpoint = Endpoint(host: string, port: int)

  /** What one connect attempt meets: no TCP connection, a failed TLS
      handshake, or an established stream that will deliver `inbound`. */
  datatype ConnectPlan =
    | Refused
    | HandshakeRejected
    | Accepted(inbound: seq<seq<Byte>>)

  /** The outcome of the next connect attempt; with nothing scripted the
      connection is refused. */
  function NextPlan(plans: seq<ConnectPlan>): ConnectPlan
  {
    if plans == [] then Refused else plans[0]
  }

  /** The outcomes left after one attempt. */
  function LaterPlans(plans: seq<ConnectPlan>): seq<ConnectPlan>
  {
    if plans == [] then [] else plans[1..]
  }

  /** The exception a failed connect attempt raises. */
  function PlanFailure(plan: ConnectPlan): Error
    requires !plan.Accepted?
  {
    if plan.Refused? then ConnectFailed else HandshakeFailed
  }

  /** The network: the outcomes of future connect attempts and the log of the
      endpoints dialled so far (its length is the number of connects). */
  class Network {
    var plans: seq<ConnectPlan>
    var dials: seq<Endpoint>

    constructor (plans: seq<ConnectPlan>)
      ensures this.plans == plans && dials == []
    {
      this.plans := plans;
      dials := [];
    }

    /** Exactly one connect attempt to `at` happened since the log was
        `dials0` and the script `plans0`. */
    ghost predicate DialledOnce(dials0: seq<Endpoint>, plans0: seq<ConnectPlan>, at: Endpoint)
      reads this
    {
      dials == dials0 + [at] && plans == LaterPlans(plans0)
    }

    /** `new TcpClient(host, port)` followed by `new SslStream(...)` and
        `AuthenticateAsClient(...)`: a fresh, readable, authenticated stream,
        or the exception of the step that failed. */
    method Connect(at: Endpoint) returns (r: Result<Channel>)
      modifies this
      ensures DialledOnce(old(dials), old(plans), at)
      ensures NextPlan(old(plans)).Accepted? ==>
        r.Ok? && fresh(r.value) && r.value.Opened(NextPlan(old(plans)).inbound)
      ensures NextPlan(old(plans)).Refused? ==> r == Err(ConnectFailed)
      ensures NextPlan(old(plans)).HandshakeRejected? ==> r == Err(HandshakeFailed)
    {
      var plan := NextPlan(plans);
      plans := LaterPlans(plans);
      dials := dials + [at];
      match plan
      case Accepted(inb) =>
        var ch := new Channel(true, true, inb);
        r := Ok(ch);
      case _ =>
        r := Err(PlanFailure(plan));
    }
  }
}
