# OpenVAS OMP session, modelled in Dafny

This is a model of `OpenVASSession`, a client for the OpenVAS Management Protocol (OMP). A session
keeps one cached TLS stream to the scanner daemon and the stored user name and password. It opens the
stream when it needs one, authenticates by sending an `authenticate` document, and runs
caller-supplied command documents. Each response is one XML document. The protocol gives no length
prefix and no delimiter, so a response's end is found by repeated parsing: the reader reads chunks of
at most 2048 bytes, adds each to a buffer, and tries to parse the whole buffer after every chunk.

The model has five modules:

- `Messages` (`messages.dfy`): bytes, documents (reduced to the root name and the root's `status`),
  the two outgoing messages (`AuthRequest`, `Command`), the parser's outcomes (`Parsed`, `XmlError`
  for an `XmlException`, `OtherError` for any other exception) and the session's errors.
- `Transport` (`transport.dfy`): `Channel` stands for the `SslStream`. It has the `CanRead` and
  `IsAuthenticated` flags, the segments the daemon has yet to deliver, and the append-only log of
  what was written. `Network` stands for TCP connect plus the TLS handshake. It holds the scripted
  outcome of each future connect attempt and logs every endpoint dialled. `Chunks` is the sequence of
  results that successive 2048-byte reads yield.
- `Framing` (`framing.dfy`): `ReadMessage` is the imperative read loop. It is proved equal to the
  function `Frame`, and lemmas characterise `Frame` as "the first decisive prefix".
- `Session` (`session.dfy`): the class `OpenVasSession` with `GetStream`, the `Stream` getter and
  setter, `Authenticate`, `ExecuteCommand`, `Dispose`, and both constructors.
- `Scenarios` (`scenarios.dfy`): two concrete cases, proved from the contracts. One is an administrator login whose response
  arrives in two pieces. The other is two commands in a row, each on its own connection.

The network, the TLS library and the XML parser are collaborators the model does not define:

- The parser is a function value `parser: seq<Byte> -> ParseOutcome`, fixed per session.
- The daemon's replies are scripted as the inbound segments of each accepted connection. A read
  yields as much of the next segment as fits in the buffer. An empty segment, or no segment left,
  ends the stream.

## Model

| member | source | states |
|---|---|---|
| `Transport.Chunks` | ch8_automating_openvas/OpenVASSession.cs:143-148 | every chunk a read delivers before the stream ends holds between 1 and 2048 bytes, the size of the read buffer |
| `Transport.ChunksPreserveBytes` | ch8_automating_openvas/OpenVASSession.cs:145-148 | the chunks, concatenated, are exactly the stream's bytes in order: reading in chunks drops and reorders nothing |
| `Transport.ReadAdvances` | ch8_automating_openvas/OpenVASSession.cs:145 | a read returns 0 bytes exactly when no chunk is left; otherwise it returns the next chunk and leaves the ones after it |
| `Transport.Channel.Read` | ch8_automating_openvas/OpenVASSession.cs:145 | `Read(buffer, 0, 2048)` copies the next chunk to the front of the buffer, returns its length, and keeps the rest of the segment for the next read |
| `Transport.Channel.Write` | ch8_automating_openvas/OpenVASSession.cs:72 | a write appends the message to the stream's log and changes nothing else; the same method is also the command write at line 102 |
| `Transport.Network.Connect` | ch8_automating_openvas/OpenVASSession.cs:121-128 | each attempt dials the endpoint once, then either yields a fresh stream (readable, handshake done, nothing sent) or raises the exception of the step that failed: `ConnectFailed` for a refused TCP connect, `HandshakeFailed` for a failed TLS handshake |
| `Framing.FrameFrom` | ch8_automating_openvas/OpenVASSession.cs:145-163 | the loop never takes more chunks than exist; it reports the end of the stream only after taking all of them, and decides otherwise after at least one |
| `Framing.FrameFromChoosesFirstDecisivePrefix` | ch8_automating_openvas/OpenVASSession.cs:143-163 | the result is `null` exactly when every accumulated buffer failed with `XmlException`; otherwise the loop stops at the first chunk whose buffer parses to something else, and returns that parse's document, or rethrows its exception with the same reason |
| `Framing.FrameFromAtDecisive` | ch8_automating_openvas/OpenVASSession.cs:150-158 | conversely, the first non-`XmlException` buffer fixes the result and the number of chunks taken |
| `Framing.FrameFromAtEnd` | ch8_automating_openvas/OpenVASSession.cs:145-163 | when every buffer fails with `XmlException`, all chunks are read and `null` is returned |
| `Framing.FragmentedMessage` | ch8_automating_openvas/OpenVASSession.cs:145-156 | a document spread over N chunks, which parses only when the last chunk is in, is returned after exactly N reads |
| `Framing.FramedBytesAreStreamPrefix` | ch8_automating_openvas/OpenVASSession.cs:148-151 | after any number of chunks, the buffer is the leading bytes of the stream and the chunks still to come are the rest of it, so every buffer handed to the parser is a prefix of the stream; at the stream's end the buffer holds the whole stream |
| `Framing.ReadMessage` | ch8_automating_openvas/OpenVASSession.cs:138-164 | the loop returns `Frame` over the chunks the stream delivers, and afterwards the stream still holds exactly the chunks after the decisive one: no further read is issued |
| `Session.AuthenticationVerdict` | ch8_automating_openvas/OpenVASSession.cs:72-82 | the login succeeds exactly when the first buffer that does not fail with `XmlException` parses to a document with status "200", and returns that document. Another status raises `AuthenticationFailed`. A stream that ends with every buffer failing, or a document without `status`, dereferences null. Any other parser exception passes through with its reason |
| `Session.CommandVerdict` | ch8_automating_openvas/OpenVASSession.cs:106-115 | a command's result is `null`, returned normally, exactly when every buffer fails with `XmlException`. Otherwise it is the first other parse's document, whatever its status, or that parse's exception rethrown |
| `Session.OpenVasSession.constructor` | ch8_automating_openvas/OpenVASSession.cs:17-23 | a new session has the given address and port, no stream, and no credentials |
| `Session.OpenVasSession.Open` | ch8_automating_openvas/OpenVASSession.cs:25-30 | the credentialed constructor dials once and authenticates. It yields the session only when the login succeeds: credentials stored, one request on the fresh stream. Otherwise it raises the login's exception |
| `Session.OpenVasSession.SetStream` | ch8_automating_openvas/OpenVASSession.cs:48-50 | the setter installs the given stream; `null` is allowed |
| `Session.OpenVasSession.Stream` | ch8_automating_openvas/OpenVASSession.cs:40-46 | the getter connects only when there is no stream, or the stream is neither authenticated nor readable; otherwise it returns the stream unchanged and does no I/O |
| `Session.OpenVasSession.GetStream` | ch8_automating_openvas/OpenVASSession.cs:118-136 | a readable stream is kept with no I/O. Otherwise one connect is made, and the stream is replaced only on success: a failure leaves it as it was |
| `Session.OpenVasSession.Authenticate` | ch8_automating_openvas/OpenVASSession.cs:54-83 | it reuses the readable stream or connects. It stores the credentials before sending, so they stay stored when the status is not "200". The request goes on the stream and exactly one response is read, and its verdict is the one `AuthenticationVerdict` describes. A kept stream keeps its `IsAuthenticated`. A failed connect changes no credentials and leaves an unreadable old stream untouched |
| `Session.OpenVasSession.ExecuteCommand` | ch8_automating_openvas/OpenVASSession.cs:85-116 | missing credentials fail before any connect, write or read. Credentials are never changed. A sent command leaves the stream null. With authentication the request and the command go over the same stream, in that order. An earlier failure leaves the stream where `Authenticate` or `GetStream` left it: after a rejected login, the readable stream keeps its `IsAuthenticated` (a fresh one has it set), and an unreadable old stream is untouched. The command goes over a readable stream that keeps its `IsAuthenticated`. The response's verdict is the one `CommandVerdict` describes. At most one connect per call |
| `Session.OpenVasSession.SendCommand` | ch8_automating_openvas/OpenVASSession.cs:99-115 | the `try` block and its `catch`: it writes the command, reads one response, and leaves the stream null whether the read returns or throws. The stream's `CanRead` and `IsAuthenticated` flags stay as they were |
| `Session.OpenVasSession.Dispose` | ch8_automating_openvas/OpenVASSession.cs:171-177 | the stream is null afterwards, whatever it was, so disposing again changes nothing; the credentials are untouched |
| `Scenarios.AdminLogin` | ch8_automating_openvas/OpenVASSession.cs:54-83 | logging in as admin/admin at 10.0.0.5:9390 against a "200" response split over two segments returns that document, stores the credentials, and dials once |
| `Scenarios.CommandsDoNotShareConnections` | ch8_automating_openvas/OpenVASSession.cs:96-115 | two commands on a session without a stream dial twice, go over two distinct new streams, each returning what its own connection's reply frames to, and leave no stream |

## Behaviour kept as the code has it

Some of the code's behaviour is easy to misread; the model keeps it as written:

- A stream that ends before any buffer parses does not raise a framing error. `ReadMessage` returns
  `null`, and `ExecuteCommand` hands that `null` back as a normal result (`CommandVerdict`).
  `Authenticate` then dereferences it, which the model writes as `NullReference`.
- `Authenticate` stores the credentials before it sends the request. A rejected login therefore
  leaves them stored.
- `ExecuteCommand` drops the stream only once the command's write and read have begun. A failure in
  its `Authenticate` or `GetStream` step leaves the stream in place, possibly a fresh,
  still-readable one.
- The `Stream` getter tests `IsAuthenticated`, while `GetStream` and its callers test `CanRead`.

## Left out

- TCP connect and the TLS handshake are the one abstract step `Network.Connect`, which succeeds or
  fails as scripted. Not modelled: the fixed "OpenVAS" target name, the TLS version, the
  client-certificate callback, and `ValidateServerCertificate`, which accepts every certificate.
- XML parsing and serialisation are not modelled. The parser is the function `parser`. The
  authenticate element is the message `AuthRequest(user, pass)`, and `doc.ToString()` is the message
  `Command(doc)`.
- ASCII encoding is not modelled, and neither is the byte count `xml.Length` passed to `Write`:
  messages are logged as values.
- `IPAddress.Parse` is not modelled. The address is kept as a string, and a malformed address is
  never rejected.
- The `Flush` calls are not modelled; they change nothing the model observes.
- Read and write I/O exceptions are not modelled: a stream delivers its scripted segments and every
  write succeeds. `ExecuteCommand`'s `catch` is therefore reached only through a parser exception.
- Transport resources are not modelled: the `TcpClient` left open after a failed handshake, and
  streams dropped without being closed.
- A stream that stays open without sending is not modelled. In the code, `Read` then blocks for ever,
  because no read or connect timeout is set: for example when the daemon sends part of a document that
  never parses and then goes quiet. The model's scripts always end, so every read returns and
  `ReadMessage` always terminates, with `null` in that case.
- The daemon is scripted up front, so its replies do not depend on what the session sent.
- The calls to the `Stream` getter inside `Authenticate` and `ExecuteCommand` are not modelled as
  calls. At those points a readable stream is in place, so the getter returns it unchanged (see
  `Stream`'s contract), and the model reads the field directly.
- The session's `Username`, `Password`, `ServerIPAddress` and `ServerPort` setters are plain field
  assignments on the class.
- The exact-type test on `XmlException` is left to the parser, which reports an exception of any
  other type, subclasses included, as `OtherError`.
- `null` arguments are not modelled: a document and a string are never `null`. In the code,
  `ExecuteCommand(null, …)` throws a `NullReferenceException` at `doc.ToString()`. That happens after
  the `Authenticate` and `GetStream` steps and outside the `try`, so the stream stays set.
  `Authenticate(null, …)` stores a `null` user name and sends an empty `<username/>`.
- Default arguments are not modelled: the model's callers always pass the port (the code's default is
  9390, the constant `DefaultPort`) and `requiresAuthentication` (the code's default is `false`).
