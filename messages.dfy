/** Values exchanged between an OMP session and the scanner daemon: bytes,
    parsed documents, the two kinds of outgoing message, the outcomes of the
    XML parser and the errors the session raises. */
module Messages {

  /** One octet on the wire. */
  newtype Byte = b: int | 0 <= b < 256

  datatype Option<T> = None | Some(value: T)

  /** A value, or the exception that replaced it. */
  datatype Result<T> = Ok(value: T) | Err(error: Error)

  /** Completion without a value, or the exception that ended it. */
  datatype Outcome = Pass | Fail(error: Error)

  /** A parsed XML document, reduced to what the session looks at: the name
      of its root element and the root's `status` attribute, if any. */
  datatype Document = Document(root: string, status: Option<string>)

  /** What the session writes on a stream: the authenticate request it builds
      itself from the credentials, or a command document a caller supplied. */
  datatype Message =
    | AuthRequest(username: string, password: string)
    | Command(request: Document)

  /** What parsing an accumulated buffer as one XML document yields: a
      document, an `XmlException` (the buffer is not, or not yet, a whole
      document), or an exception of any other type. */
  datatype ParseOutcome =
    | Parsed(doc: Document)
    | XmlError
    | OtherError(reason: string)

  /** The exceptions that leave the session. */
  datatype Error =
    | ConnectFailed          // the TCP connection could not be opened
    | HandshakeFailed        // the TLS client handshake failed
    | ParseFailed(reason: string)  // the parser threw something other than XmlException
    | NullReference          // a null response, or a response root without `status`
    | AuthenticationFailed   // the authenticate response's status was not "200"
    | MissingCredentials     // an authenticated command without stored credentials

  /** The bytes of a sequence of chunks, in order. */
  function Concat(chunks: seq<seq<Byte>>): seq<Byte>
  {
    if chunks == [] then [] else chunks[0] + Concat(chunks[1..])
  }

  /** Concatenating chunk sequences concatenates their bytes. */
  lemma {:induction false} ConcatAppend(s: seq<seq<Byte>>, t: seq<seq<Byte>>)
    ensures Concat(s + t) == Concat(s) + Concat(t)
  {
    if s == [] {
      assert s + t == t;
    } else {
      assert (s + t)[1..] == s[1..] + t;
      ConcatAppend(s[1..], t);
    }
  }

  /** The bytes of the first k chunks followed by the bytes of the others are
      the bytes of all of them, and the bytes of k + 1 chunks extend those of k
      by the next chunk. */
  lemma ConcatPrefix(s: seq<seq<Byte>>, k: nat)
    requires k <= |s|
    ensures Concat(s[..k]) + Concat(s[k..]) == Concat(s)
    ensures k < |s| ==> Concat(s[..k + 1]) == Concat(s[..k]) + s[k]
  {
    assert s == s[..k] + s[k..];
    ConcatAppend(s[..k], s[k..]);
    if k < |s| {
      assert s[..k + 1] == s[..k] + [s[k]];
      ConcatAppend(s[..k], [s[k]]);
      assert Concat([s[k]]) == s[k] + Concat([]);
    }
  }
}
