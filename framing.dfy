/** Message framing by repeated parsing. The protocol puts neither a length
    prefix nor a delimiter around a document, so the reader accumulates the
    chunks it reads and, after each one, tries to parse everything
    accumulated so far as one document. */
module Framing {
  import opened Messages
  import opened Transport

  /** What reading one message ends with: a document, `null` because the
      stream ended first, or the parser's exception (not an `XmlException`)
      rethrown. */
  datatype ReadResult =
    | Message(doc: Document)
    | EndOfStream
    | Failed(reason: string)

  /** A read result together with the number of chunks taken to reach it. */
  datatype Framed = Framed(result: ReadResult, taken: nat)

  /** The read result a parse outcome other than `XmlException` decides. */
  function Settle(p: ParseOutcome): ReadResult
    requires !p.XmlError?
  {
    match p
    case Parsed(d) => Message(d)
    case OtherError(e) => Failed(e)
  }

  /** The framing loop over the chunks still to be read, with `acc` the bytes
      accumulated before them. */
  function FrameFrom(parse: seq<Byte> -> ParseOutcome, acc: seq<Byte>, chunks: seq<seq<Byte>>): (f: Framed)
    ensures f.taken <= |chunks|
    ensures f.result.EndOfStream? ==> f.taken == |chunks|
    ensures !f.result.EndOfStream? ==> 1 <= f.taken
    decreases |chunks|
  {
    if chunks == [] then Framed(EndOfStream, 0)
    else
      var buffer := acc + chunks[0];
      match parse(buffer)
      case XmlError =>
        var rest := FrameFrom(parse, buffer, chunks[1..]);
        Framed(rest.result, rest.taken + 1)
      case Parsed(d) => Framed(Message(d), 1)
      case OtherError(e) => Framed(Failed(e), 1)
  }

  /** The framing loop from an empty buffer. */
  function Frame(parse: seq<Byte> -> ParseOutcome, chunks: seq<seq<Byte>>): Framed
  {
    FrameFrom(parse, [], chunks)
  }

  /** Every buffer the loop forms from the first j chunks (after `acc`)
      fails to parse with `XmlException`. */
  ghost predicate PendingUpTo(parse: seq<Byte> -> ParseOutcome, acc: seq<Byte>, chunks: seq<seq<Byte>>, j: nat)
    requires j <= |chunks|
  {
    forall i :: 1 <= i <= j ==> parse(acc + Concat(chunks[..i])).XmlError?
  }

  /** The k-th chunk is the first after which the buffer parses to something
      other than `XmlException`. */
  ghost predicate Decisive(parse: seq<Byte> -> ParseOutcome, acc: seq<Byte>, chunks: seq<seq<Byte>>, k: nat)
  {
    1 <= k <= |chunks| && PendingUpTo(parse, acc, chunks, k - 1)
    && !parse(acc + Concat(chunks[..k])).XmlError?
  }

  /** The buffer after i chunks is the buffer after the first chunk followed
      by the next i - 1 chunks. */
  lemma ShiftPrefix(acc: seq<Byte>, chunks: seq<seq<Byte>>, i: nat)
    requires 1 <= i <= |chunks|
    ensures acc + Concat(chunks[..i]) == (acc + chunks[0]) + Concat(chunks[1..][..i - 1])
  {
    assert chunks[..i] == [chunks[0]] + chunks[1..][..i - 1];
    ConcatAppend([chunks[0]], chunks[1..][..i - 1]);
    assert Concat([chunks[0]]) == chunks[0] + Concat([]);
  }

  /** Pending after j chunks means pending after the first chunk and then
      pending, from that buffer, after the next j - 1. */
  lemma PendingShift(parse: seq<Byte> -> ParseOutcome, acc: seq<Byte>, chunks: seq<seq<Byte>>, j: nat)
    requires 1 <= j <= |chunks|
    ensures PendingUpTo(parse, acc, chunks, j)
        <==> parse(acc + chunks[0]).XmlError? && PendingUpTo(parse, acc + chunks[0], chunks[1..], j - 1)
  {
    var buffer := acc + chunks[0];
    forall i | 1 <= i <= j
      ensures acc + Concat(chunks[..i]) == buffer + Concat(chunks[1..][..i - 1])
    {
      ShiftPrefix(acc, chunks, i);
    }
    assert buffer + Concat(chunks[1..][..0]) == buffer;
    assert acc + Concat(chunks[..1]) == buffer;
    if PendingUpTo(parse, acc, chunks, j) {
      assert parse(buffer).XmlError?;
      forall i | 1 <= i <= j - 1
        ensures parse(buffer + Concat(chunks[1..][..i])).XmlError?
      {
        assert parse(acc + Concat(chunks[..i + 1])).XmlError?;
      }
      assert PendingUpTo(parse, buffer, chunks[1..], j - 1);
    }
    if parse(buffer).XmlError? && PendingUpTo(parse, buffer, chunks[1..], j - 1) {
      forall i | 1 <= i <= j
        ensures parse(acc + Concat(chunks[..i])).XmlError?
      {
        if i > 1 {
          assert parse(buffer + Concat(chunks[1..][..i - 1])).XmlError?;
        }
      }
      assert PendingUpTo(parse, acc, chunks, j);
    }
  }

  /** The framing loop decides at the first chunk after which the buffer
      parses to something other than `XmlException`, and returns what that
      parse decided (the document, or the exception's reason); it reports the
      end of the stream exactly when every buffer it formed failed with
      `XmlException`. */
  lemma {:induction false} FrameFromChoosesFirstDecisivePrefix(
    parse: seq<Byte> -> ParseOutcome, acc: seq<Byte>, chunks: seq<seq<Byte>>)
    ensures var f := FrameFrom(parse, acc, chunks);
      && (f.result.EndOfStream? <==> PendingUpTo(parse, acc, chunks, |chunks|))
      && (!f.result.EndOfStream? ==>
            var p := parse(acc + Concat(chunks[..f.taken]));
            && Decisive(parse, acc, chunks, f.taken)
            && (f.result.Message? <==> p.Parsed?)
            && (p.Parsed? ==> f.result == Message(p.doc))
            && (p.OtherError? ==> f.result == Failed(p.reason)))
    decreases |chunks|
  {
    if chunks != [] {
      var buffer := acc + chunks[0];
      var f := FrameFrom(parse, acc, chunks);
      ShiftPrefix(acc, chunks, 1);
      assert acc + Concat(chunks[..1]) == buffer;
      PendingShift(parse, acc, chunks, |chunks|);
      if parse(buffer).XmlError? {
        FrameFromChoosesFirstDecisivePrefix(parse, buffer, chunks[1..]);
        var g := FrameFrom(parse, buffer, chunks[1..]);
        assert f == Framed(g.result, g.taken + 1);
        if !g.result.EndOfStream? {
          PendingShift(parse, acc, chunks, f.taken - 1 + 1);
          if f.taken > 1 {
            PendingShift(parse, acc, chunks, f.taken - 1);
          }
          ShiftPrefix(acc, chunks, f.taken);
        }
      }
    }
  }

  /** Conversely, a decisive chunk fixes the outcome of the loop: it stops
      there, after exactly k chunks. */
  lemma FrameFromAtDecisive(parse: seq<Byte> -> ParseOutcome, acc: seq<Byte>, chunks: seq<seq<Byte>>, k: nat)
    requires Decisive(parse, acc, chunks, k)
    ensures FrameFrom(parse, acc, chunks) == Framed(Settle(parse(acc + Concat(chunks[..k]))), k)
  {
    FrameFromChoosesFirstDecisivePrefix(parse, acc, chunks);
  }

  /** And when every buffer fails with `XmlException`, the loop reads all the
      chunks and reports the end of the stream. */
  lemma FrameFromAtEnd(parse: seq<Byte> -> ParseOutcome, acc: seq<Byte>, chunks: seq<seq<Byte>>)
    requires PendingUpTo(parse, acc, chunks, |chunks|)
    ensures FrameFrom(parse, acc, chunks) == Framed(EndOfStream, |chunks|)
  {
    FrameFromChoosesFirstDecisivePrefix(parse, acc, chunks);
  }

  /** A message that arrives in N chunks and parses only once the last one
      is in is returned after exactly N reads. */
  lemma FragmentedMessage(parse: seq<Byte> -> ParseOutcome, chunks: seq<seq<Byte>>, d: Document)
    requires |chunks| >= 1
    requires PendingUpTo(parse, [], chunks, |chunks| - 1)
    requires parse(Concat(chunks)) == Parsed(d)
    ensures Frame(parse, chunks) == Framed(Message(d), |chunks|)
  {
    assert chunks[..|chunks|] == chunks;
    assert [] + Concat(chunks) == Concat(chunks);
    FrameFromAtDecisive(parse, [], chunks, |chunks|);
  }

  /** What the loop hands to the parser are always leading bytes of the
      stream: after any number i of chunks, the bytes of the chunks taken
      followed by those of the chunks still to come are the whole stream, and
      at the end of the stream the loop has taken everything. */
  lemma FramedBytesAreStreamPrefix(parse: seq<Byte> -> ParseOutcome, inbound: seq<seq<Byte>>)
    ensures var cs := Chunks(inbound, ReadSize);
      forall i :: 0 <= i <= |cs| ==> Concat(cs[..i]) + Concat(cs[i..]) == StreamBytes(inbound)
    ensures var cs := Chunks(inbound, ReadSize); var f := Frame(parse, cs);
      f.result.EndOfStream? ==> Concat(cs[..f.taken]) == StreamBytes(inbound)
  {
    var cs := Chunks(inbound, ReadSize);
    var f := Frame(parse, cs);
    ChunksPreserveBytes(inbound, ReadSize);
    forall i | 0 <= i <= |cs|
      ensures Concat(cs[..i]) + Concat(cs[i..]) == StreamBytes(inbound)
    {
      ConcatPrefix(cs, i);
    }
    assert cs[|cs|..] == [];
  }

  /** A channel that held `inbound0` and had logged `sent0` has since logged
      `m` and had exactly one message read from it: the chunks still to be
      read are those the framing loop left. */
  ghost predicate Exchanged(ch: Channel, inbound0: seq<seq<Byte>>, sent0: seq<Message>, m: Message,
                            parse: seq<Byte> -> ParseOutcome)
    reads ch
  {
    var cs := Chunks(inbound0, ReadSize);
    ch.sent == sent0 + [m] && Chunks(ch.inbound, ReadSize) == cs[Frame(parse, cs).taken..]
  }

  /** `ReadMessage`: reads chunks of at most 2 KB into an accumulating buffer
      and, after each, parses the whole buffer; an `XmlException` means "read
      on", any other exception ends the read, and a read of 0 bytes ends it
      with `null`. The result is the framing loop's over the chunks the stream
      delivers, and no chunk after the decisive one is read. */
  method ReadMessage(ch: Channel, parse: seq<Byte> -> ParseOutcome) returns (r: ReadResult)
    modifies ch`inbound
    ensures var cs := Chunks(old(ch.inbound), ReadSize); var f := Frame(parse, cs);
      r == f.result && Chunks(ch.inbound, ReadSize) == cs[f.taken..]
  {
    var buffer := new Byte[ReadSize];
    var accumulated: seq<Byte> := [];
    ghost var cs := Chunks(ch.inbound, ReadSize);
    ghost var taken: nat := 0;
    while true
      invariant taken <= |cs|
      invariant Chunks(ch.inbound, ReadSize) == cs[taken..]
      invariant accumulated == Concat(cs[..taken])
      invariant PendingUpTo(parse, [], cs, taken)
      decreases |cs| - taken
    {
      ghost var before := ch.inbound;
      var n := ch.Read(buffer);
      ReadAdvances(before, ReadSize, cs, taken);
      if n == 0 {
        FrameFromAtEnd(parse, [], cs);
        return EndOfStream;
      }
      ConcatPrefix(cs, taken);
      accumulated := accumulated + buffer[..n];
      taken := taken + 1;
      var p := parse(accumulated);
      if !p.XmlError? {
        assert [] + Concat(cs[..taken]) == accumulated;
        FrameFromAtDecisive(parse, [], cs, taken);
        return Settle(p);
      }
      assert PendingUpTo(parse, [], cs, taken) by {
        assert [] + Concat(cs[..taken]) == accumulated;
      }
    }
  }
}
