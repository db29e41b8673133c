/** Two concrete cases of a session against a scripted daemon: the login of an
    administrator whose response arrives in two pieces, and two commands in a
    row, each of which gets a connection of its own. */
module Scenarios {
  import opened Messages
  import opened Transport
  import opened Framing
  import opened Session

  /** `admin`/`admin` against 10.0.0.5:9390, the daemon answering with an
      `authenticate_response` of status "200" split over two segments: the
      login succeeds with that document and the session keeps the user name. */
  method AdminLogin() returns (r: Result<Document>, s: OpenVasSession)
    ensures r == Ok(Document("authenticate_response", Some("200")))
    ensures s.username == Some("admin") && s.password == Some("admin")
    ensures s.net.dials == [Endpoint("10.0.0.5", DefaultPort)]
  {
    var reply: seq<Byte> := [60, 97, 47, 62];
    var accepted := Document("authenticate_response", Some("200"));
    var parse := (b: seq<Byte>) => if b == reply then Parsed(accepted) else XmlError;
    var segments := [reply[..2], reply[2..]];
    ghost var cs := Chunks(segments, ReadSize);
    assert ReadStep(segments, ReadSize) == reply[..2];
    assert AfterRead(segments, ReadSize) == [reply[2..]];
    assert ReadStep([reply[2..]], ReadSize) == reply[2..];
    assert AfterRead([reply[2..]], ReadSize) == [];
    assert Chunks([], ReadSize) == [];
    assert Chunks([reply[2..]], ReadSize) == [reply[2..]];
    assert cs == segments;
    assert Concat(cs[..1]) == reply[..2] by {
      assert cs[..1] == [reply[..2]];
      assert Concat([reply[..2]]) == reply[..2] + Concat([]);
    }
    assert reply[..2] != reply;
    assert Concat(cs) == reply by {
      assert Concat(cs[1..]) == reply[2..] + Concat([]);
    }
    assert [] + Concat(cs[..1]) == Concat(cs[..1]);
    FragmentedMessage(parse, cs, accepted);
    var net := new Network([Accepted(segments)]);
    s := new OpenVasSession("10.0.0.5", DefaultPort, net, parse);
    r := s.Authenticate("admin", "admin");
  }

  /** Two commands on a session without a stream, with two connections
      available: each goes over a new connection of its own, returns what its
      own connection's reply frames to, and the stream is dropped after
      each. */
  method CommandsDoNotShareConnections(s: OpenVasSession, a: Document, b: Document)
    returns (r1: Result<Option<Document>>, r2: Result<Option<Document>>, ghost c1: Channel?, ghost c2: Channel?)
    requires s.stream == null
    requires |s.net.plans| >= 2 && s.net.plans[0].Accepted? && s.net.plans[1].Accepted?
    modifies s, s.net
    ensures s.net.dials == old(s.net.dials) + [s.Server(), s.Server()]
    ensures c1 != null && c2 != null && c1 != c2
    ensures c1.sent == [Command(a)] && c2.sent == [Command(b)]
    ensures s.stream == null
    ensures r1 == CommandResponse(Frame(s.parser, Chunks(old(s.net.plans[0].inbound), ReadSize)).result)
    ensures r2 == CommandResponse(Frame(s.parser, Chunks(old(s.net.plans[1].inbound), ReadSize)).result)
  {
    r1, c1 := s.ExecuteCommand(a, false);
    r2, c2 := s.ExecuteCommand(b, false);
  }
}
