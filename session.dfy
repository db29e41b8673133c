/** The OMP session (`OpenVASSession`): one cached TLS stream to the scanner
    daemon, the stored credentials, and the operations that open the stream,
    authenticate, run a command and dispose of the stream. */
module Session {
  import opened Messages
  import opened Transport
  import opened Framing

  /** The port the daemon listens on unless another is given. */
  const DefaultPort: int := 9390

  /** The `status` value a response carries on success. */
  const SuccessStatus: string := "200"

  /** What `Authenticate` makes of the response it read: the document when its
      root's `status` is "200", `AuthenticationFailed` for any other status, a
      `NullReference` when there was no document (`null`) or no `status`
      attribute, and the parser's exception unchanged. */
  function CheckAuthResponse(res: ReadResult): Result<Document>
  {
    match res
    case EndOfStream => Err(NullReference)
    case Failed(e) => Err(ParseFailed(e))
    case Message(d) =>
      if d.status.None? then Err(NullReference)
      else if d.status.value != SuccessStatus then Err(AuthenticationFailed)
      else Ok(d)
  }

  /** What `ExecuteCommand` makes of the response it read: the document, a
      `null` returned normally when the stream ended first, or the parser's
      exception rethrown. */
  function CommandResponse(res: ReadResult): Result<Option<Document>>
  {
    match res
    case Message(d) => Ok(Some(d))
    case EndOfStream => Ok(None)
    case Failed(e) => Err(ParseFailed(e))
  }

  /** The verdict of a login over the chunks the daemon delivers, in terms
      of the first buffer that does not fail with `XmlException`: it is
      accepted exactly when that buffer parses to a document with status
      "200", and then that document is returned; a document with another
      status is `AuthenticationFailed`; a stream that ends with every buffer
      failing, or a document without `status`, dereferences null; and any
      other parser exception passes through with its reason. */
  lemma AuthenticationVerdict(parse: seq<Byte> -> ParseOutcome, chunks: seq<seq<Byte>>)
    ensures var f := Frame(parse, chunks);
      var r := CheckAuthResponse(f.result);
      var p := parse(Concat(chunks[..f.taken]));
      var decided := Decisive(parse, [], chunks, f.taken);
      && (r.Ok? <==> decided && p.Parsed? && p.doc.status == Some(SuccessStatus))
      && (r.Ok? ==> r.value == p.doc)
      && (r == Err(AuthenticationFailed) <==>
            decided && p.Parsed? && p.doc.status.Some? && p.doc.status.value != SuccessStatus)
      && (r == Err(NullReference) <==>
            PendingUpTo(parse, [], chunks, |chunks|) || (decided && p.Parsed? && p.doc.status.None?))
      && (r.Err? && r.error.ParseFailed? <==> decided && p.OtherError?)
      && (decided && p.OtherError? ==> r == Err(ParseFailed(p.reason)))
  {
    var f := Frame(parse, chunks);
    FrameFromChoosesFirstDecisivePrefix(parse, [], chunks);
    if 1 <= f.taken <= |chunks| {
      assert [] + Concat(chunks[..f.taken]) == Concat(chunks[..f.taken]);
    }
  }

  /** The result of a command over the chunks the daemon delivers: `null`,
      returned normally, exactly when every buffer fails with
      `XmlException`; otherwise whatever the first other parse yields, a
      document returned whatever its status, or the parser's exception. */
  lemma CommandVerdict(parse: seq<Byte> -> ParseOutcome, chunks: seq<seq<Byte>>)
    ensures var f := Frame(parse, chunks);
      var r := CommandResponse(f.result);
      var p := parse(Concat(chunks[..f.taken]));
      var decided := Decisive(parse, [], chunks, f.taken);
      && (r == Ok(None) <==> PendingUpTo(parse, [], chunks, |chunks|))
      && (r.Ok? && r.value.Some? <==> decided && p.Parsed?)
      && (decided && p.Parsed? ==> r == Ok(Some(p.doc)))
      && (r.Err? <==> decided && p.OtherError?)
      && (decided && p.OtherError? ==> r == Err(ParseFailed(p.reason)))
  {
    var f := Frame(parse, chunks);
    FrameFromChoosesFirstDecisivePrefix(parse, [], chunks);
    if 1 <= f.taken <= |chunks| {
      assert [] + Concat(chunks[..f.taken]) == Concat(chunks[..f.taken]);
    }
  }

  class OpenVasSession {
    var stream: Channel?
    var username: Option<string>
    var password: Option<string>
    var serverAddress: string
    var serverPort: int
    /** The network connections are opened through. */
    const net: Network
    /** `XDocument.Parse` applied to the ASCII text of a byte buffer. */
    const parser: seq<Byte> -> ParseOutcome

    /** `OpenVASSession(host, port)`: no stream and no credentials yet. */
    constructor (host: string, port: int, net: Network, parser: seq<Byte> -> ParseOutcome)
      ensures stream == null && username == None && password == None
      ensures serverAddress == host && serverPort == port
      ensures this.net == net && this.parser == parser
    {
      stream := null;
      username := None;
      password := None;
      serverAddress := host;
      serverPort := port;
      this.net := net;
      this.parser := parser;
    }

    /** The endpoint every connect goes to. */
    ghost function Server(): Endpoint
      reads this
    {
      Endpoint(serverAddress, serverPort)
    }

    /** There is a stream and it can be read: the guard under which
        `Authenticate`, `ExecuteCommand` and `GetStream` reuse it. */
    ghost predicate Ready()
      reads this, stream
    {
      stream != null && stream.canRead
    }

    /** A readable stream is, or the next connect will make, available. */
    ghost predicate Available()
      reads this, stream, net
    {
      Ready() || NextPlan(net.plans).Accepted?
    }

    /** What the stream an operation will use still holds to deliver: the
        current one's, or the next connection's. */
    ghost function PendingInbound(): seq<seq<Byte>>
      reads this, stream, net
    {
      if Ready() then stream.inbound
      else match NextPlan(net.plans)
        case Accepted(inb) => inb
        case _ => []
    }

    /** What the stream an operation will use has logged so far. */
    ghost function PendingSent(): seq<Message>
      reads this, stream
    {
      if Ready() then stream.sent else []
    }

    /** The `Stream` setter. */
    method SetStream(s: Channel?)
      modifies this`stream
      ensures stream == s
    {
      stream := s;
    }

    /** `GetStream`: keeps a readable stream; otherwise connects, and installs
        the new stream only once the handshake has succeeded. */
    method GetStream() returns (o: Outcome)
      modifies this`stream, net
      ensures old(Ready()) ==> o == Pass && stream == old(stream) && unchanged(net)
      ensures !old(Ready()) ==> net.DialledOnce(old(net.dials), old(net.plans), Server())
      ensures !old(Ready()) && NextPlan(old(net.plans)).Accepted? ==>
        o == Pass && stream != null && fresh(stream) && stream.Opened(NextPlan(old(net.plans)).inbound)
      ensures !old(Ready()) && !NextPlan(old(net.plans)).Accepted? ==>
        o == Fail(PlanFailure(NextPlan(old(net.plans)))) && stream == old(stream)
      ensures o.Pass? ==> Ready()
    {
      if stream == null || !stream.canRead {
        var c := net.Connect(Endpoint(serverAddress, serverPort));
        match c
        case Ok(ch) =>
          stream := ch;
          o := Pass;
        case Err(e) =>
          o := Fail(e);
      } else {
        o := Pass;
      }
    }

    /** The `Stream` getter: connects only when there is no stream or it has
        not completed a handshake (note: it tests `IsAuthenticated`, while
        `GetStream` tests `CanRead`), and returns the field. */
    method Stream() returns (r: Result<Channel>)
      modifies this`stream, net
      ensures old(stream) != null && (old(stream.isAuthenticated) || old(stream.canRead)) ==>
        r.Ok? && r.value == old(stream) && stream == old(stream) && unchanged(net)
      ensures old(stream) == null || (!old(stream.isAuthenticated) && !old(stream.canRead)) ==>
        net.DialledOnce(old(net.dials), old(net.plans), Server())
        && (NextPlan(old(net.plans)).Accepted? ==>
              r.Ok? && r.value == stream && fresh(stream) && stream.Opened(NextPlan(old(net.plans)).inbound))
        && (!NextPlan(old(net.plans)).Accepted? ==>
              r == Err(PlanFailure(NextPlan(old(net.plans)))) && stream == old(stream))
    {
      if stream == null || !stream.isAuthenticated {
        var o := GetStream();
        if o.Fail? {
          return Err(o.error);
        }
      }
      return Ok(stream);
    }

    /** `Authenticate(username, password)`: makes sure a readable stream is in
        place, stores the credentials, writes the authenticate request, reads
        one response and accepts it only with status "200". The credentials
        are stored before the request is sent, so they stay stored when the
        daemon rejects them; only a failed connect leaves them as they were.
        The calls to the `Stream` getter inside this operation return the
        readable stream just ensured (see `Stream`), so the field is used
        directly. */
    method Authenticate(user: string, pass: string) returns (r: Result<Document>)
      modifies this`stream, this`username, this`password, net, stream
      ensures old(Ready()) ==> stream == old(stream) && unchanged(net)
      ensures !old(Ready()) ==> net.DialledOnce(old(net.dials), old(net.plans), Server())
      ensures !old(Available()) ==>
        r == Err(PlanFailure(NextPlan(old(net.plans))))
        && stream == old(stream) && username == old(username) && password == old(password)
      ensures old(stream) != null && !old(stream.canRead) ==> unchanged(old(stream))
      ensures old(Available()) ==>
        username == Some(user) && password == Some(pass)
        && Ready()
        && (old(Ready()) ==> stream.isAuthenticated == old(stream.isAuthenticated))
        && (!old(Ready()) ==> fresh(stream) && stream.isAuthenticated)
        && Exchanged(stream, old(PendingInbound()), old(PendingSent()), AuthRequest(user, pass), parser)
        && r == CheckAuthResponse(Frame(parser, Chunks(old(PendingInbound()), ReadSize)).result)
    {
      if stream == null || !stream.canRead {
        var o := GetStream();
        if o.Fail? {
          return Err(o.error);
        }
      }
      username := Some(user);
      password := Some(pass);
      var ch := stream;
      ch.Write(AuthRequest(user, pass));
      var response := ReadMessage(ch, parser);
      r := CheckAuthResponse(response);
    }

    /** `ExecuteCommand(doc, requiresAuthentication)`. With authentication
        required it fails before any I/O when a credential is missing and
        otherwise re-runs `Authenticate` with the stored credentials. It then
        makes sure a readable stream is in place, writes the command, reads
        one response and drops the stream, both when the read returns and
        when it throws. A failure before the write (in `Authenticate` or
        `GetStream`) leaves the stream as that step left it. `used` is the
        stream the command went over, `null` when it was not sent. */
    method ExecuteCommand(doc: Document, requiresAuthentication: bool)
      returns (r: Result<Option<Document>>, ghost used: Channel?)
      modifies this`stream, this`username, this`password, net, stream
      ensures username == old(username) && password == old(password)
      ensures requiresAuthentication && (old(username).None? || old(password).None?) ==>
        r == Err(MissingCredentials) && used == null
        && stream == old(stream) && unchanged(net) && (old(stream) != null ==> unchanged(old(stream)))
      ensures used != null ==> stream == null
      ensures used != null && old(Ready()) ==> used == old(stream)
      ensures used != null && !old(Ready()) ==> fresh(used)
      ensures used != null ==>
        used.canRead
        && (old(Ready()) ==> used.isAuthenticated == old(stream.isAuthenticated))
        && (!old(Ready()) ==> used.isAuthenticated)
      ensures old(stream) != null && !old(stream.canRead) ==> unchanged(old(stream))
      ensures old(Ready()) ==> unchanged(net)
      ensures !old(Ready()) && (!requiresAuthentication || (old(username).Some? && old(password).Some?)) ==>
        net.DialledOnce(old(net.dials), old(net.plans), Server())
      ensures !old(Available()) && (!requiresAuthentication || (old(username).Some? && old(password).Some?)) ==>
        r == Err(PlanFailure(NextPlan(old(net.plans)))) && used == null && stream == old(stream)
      ensures old(Available()) && !requiresAuthentication ==>
        used != null
        && Exchanged(used, old(PendingInbound()), old(PendingSent()), Command(doc), parser)
        && r == CommandResponse(Frame(parser, Chunks(old(PendingInbound()), ReadSize)).result)
      ensures old(Available()) && requiresAuthentication && old(username).Some? && old(password).Some? ==>
        var auth := AuthRequest(old(username).value, old(password).value);
        var cs := Chunks(old(PendingInbound()), ReadSize);
        var fa := Frame(parser, cs);
        var rest := cs[fa.taken..];
        var fc := Frame(parser, rest);
        && (CheckAuthResponse(fa.result).Err? ==>
              r == Err(CheckAuthResponse(fa.result).error) && used == null
              && Ready() && (old(Ready()) ==> stream == old(stream)) && (!old(Ready()) ==> fresh(stream))
              && (old(Ready()) ==> stream.isAuthenticated == old(stream.isAuthenticated))
              && (!old(Ready()) ==> stream.isAuthenticated)
              && Exchanged(stream, old(PendingInbound()), old(PendingSent()), auth, parser))
        && (CheckAuthResponse(fa.result).Ok? ==>
              used != null && used.sent == old(PendingSent()) + [auth, Command(doc)]
              && r == CommandResponse(fc.result)
              && Chunks(used.inbound, ReadSize) == rest[fc.taken..])
    {
      used := null;
      if requiresAuthentication {
        if username.None? || password.None? {
          return Err(MissingCredentials), null;
        }
        var a := Authenticate(username.value, password.value);
        if a.Err? {
          return Err(a.error), null;
        }
      }
      if stream == null || !stream.canRead {
        var o := GetStream();
        if o.Fail? {
          return Err(o.error), null;
        }
      }
      r, used := SendCommand(doc);
    }

    /** The `try` block of `ExecuteCommand` with its `catch`: writes the
        command on the readable stream in place, reads one response, and
        drops the stream whether the read returns or throws. */
    method SendCommand(doc: Document) returns (r: Result<Option<Document>>, ghost used: Channel)
      requires Ready()
      modifies this`stream, stream
      ensures used == old(stream) && stream == null
      ensures used.canRead == old(stream.canRead) && used.isAuthenticated == old(stream.isAuthenticated)
      ensures Exchanged(used, old(stream.inbound), old(stream.sent), Command(doc), parser)
      ensures r == CommandResponse(Frame(parser, Chunks(old(stream.inbound), ReadSize)).result)
    {
      var ch := stream;
      used := ch;
      ch.Write(Command(doc));
      var response := ReadMessage(ch, parser);
      stream := null;
      r := CommandResponse(response);
    }

    /** `Dispose`: drops the stream (flushing it first, which the model does
        not see); the credentials stay. Disposing twice is disposing once. */
    method Dispose()
      modifies this`stream
      ensures stream == null
    {
      if stream != null {
        stream := null;
      }
    }

    /** `OpenVASSession(username, password, host, port)`: a new session that
        authenticates at once. The object is only returned when
        `Authenticate` succeeded; otherwise its exception is. */
    static method Open(user: string, pass: string, host: string, port: int,
                       net: Network, parser: seq<Byte> -> ParseOutcome)
      returns (r: Result<OpenVasSession>)
      modifies net
      ensures net.DialledOnce(old(net.dials), old(net.plans), Endpoint(host, port))
      ensures !NextPlan(old(net.plans)).Accepted? ==> r == Err(PlanFailure(NextPlan(old(net.plans))))
      ensures NextPlan(old(net.plans)).Accepted? ==>
        var inb := NextPlan(old(net.plans)).inbound;
        var verdict := CheckAuthResponse(Frame(parser, Chunks(inb, ReadSize)).result);
        && (verdict.Err? ==> r == Err(verdict.error))
        && (verdict.Ok? ==>
              r.Ok? && fresh(r.value) && r.value.net == net && r.value.parser == parser
              && r.value.serverAddress == host && r.value.serverPort == port
              && r.value.username == Some(user) && r.value.password == Some(pass)
              && r.value.stream != null && fresh(r.value.stream) && r.value.stream.canRead
              && Exchanged(r.value.stream, inb, [], AuthRequest(user, pass), parser))
    {
      var s := new OpenVasSession(host, port, net, parser);
      var a := s.Authenticate(user, pass);
      if a.Err? {
        return Err(a.error);
      }
      return Ok(s);
    }
  }
}
