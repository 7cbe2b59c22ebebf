/** RPCN's length-framed packets over a socket that answers in arbitrary chunks: a 15-byte little-endian header
    (u8 kind, u16 command, u32 total size, u64 packet id), then the payload. */
module RpcnFraming {
  import opened Common

  type byte = x: int | 0 <= x < 256

  const HEADER_SIZE := 15
  const COMMUNICATION_ID_SIZE := 12
  const PKT_REQUEST := 0
  const PKT_REPLY := 1
  const PKT_NOTIF := 2
  const ERR_NO_ERROR := 0

  // -- Little-endian numbers ---------------------------------------------------------------------

  function Pow256(width: nat): nat { if width == 0 then 1 else 256 * Pow256(width - 1) }

  function Le(value: nat, width: nat): (bytes: seq<byte>)
    ensures |bytes| == width
  {
    if width == 0 then [] else [value % 256] + Le(value / 256, width - 1)
  }

  function UnLe(bytes: seq<byte>): nat {
    if bytes == [] then 0 else bytes[0] + 256 * UnLe(bytes[1..])
  }

  lemma {:induction false} UnLeOfLe(value: nat, width: nat)
    requires value < Pow256(width)
    ensures UnLe(Le(value, width)) == value
  {
    if width == 0 {
    } else {
      UnLeOfLe(value / 256, width - 1);
      assert Le(value, width)[1..] == Le(value / 256, width - 1);
    }
  }

  lemma {:induction false} LeOfUnLe(bytes: seq<byte>)
    ensures UnLe(bytes) < Pow256(|bytes|) && Le(UnLe(bytes), |bytes|) == bytes
  {
    if bytes == [] {
    } else {
      LeOfUnLe(bytes[1..]);
      assert UnLe(bytes) % 256 == bytes[0] && UnLe(bytes) / 256 == UnLe(bytes[1..]);
    }
  }

  lemma Widths()
    ensures Pow256(1) == 0x100 && Pow256(2) == 0x1_0000 && Pow256(4) == 0x1_0000_0000
    ensures Pow256(8) == 0x1_0000_0000_0000_0000
  {
    assert Pow256(2) == 256 * Pow256(1) && Pow256(3) == 256 * Pow256(2) && Pow256(4) == 256 * Pow256(3);
    assert Pow256(5) == 256 * Pow256(4) && Pow256(6) == 256 * Pow256(5);
    assert Pow256(7) == 256 * Pow256(6) && Pow256(8) == 256 * Pow256(7);
  }

  // -- Headers and packets ---------------------------------------------------------------------------

  datatype Header = Header(kind: nat, cmd: nat, size: nat, id: nat)
  {
    /** What the four fields can carry. */
    predicate Fits() {
      kind < 0x100 && cmd < 0x1_0000 && size < 0x1_0000_0000 && id < 0x1_0000_0000_0000_0000
    }
  }

  function PackHeader(h: Header): (bytes: seq<byte>)
    ensures |bytes| == HEADER_SIZE
  {
    Le(h.kind, 1) + Le(h.cmd, 2) + Le(h.size, 4) + Le(h.id, 8)
  }

  function UnpackHeader(bytes: seq<byte>): Header
    requires |bytes| == HEADER_SIZE
  {
    Header(UnLe(bytes[..1]), UnLe(bytes[1..3]), UnLe(bytes[3..7]), UnLe(bytes[7..15]))
  }

  /** Encoding and decoding a header undo each other, both ways. */
  lemma HeaderRoundTrips(h: Header, bytes: seq<byte>)
    requires |bytes| == HEADER_SIZE
    ensures h.Fits() ==> UnpackHeader(PackHeader(h)) == h
    ensures UnpackHeader(bytes).Fits() && PackHeader(UnpackHeader(bytes)) == bytes
  {
    Widths();
    if h.Fits() {
      var packed := PackHeader(h);
      assert packed[..1] == Le(h.kind, 1) && packed[1..3] == Le(h.cmd, 2);
      assert packed[3..7] == Le(h.size, 4);
      assert packed[7..15] == packed[7..] == Le(h.id, 8);
      UnLeOfLe(h.kind, 1);
      UnLeOfLe(h.cmd, 2);
      UnLeOfLe(h.size, 4);
      UnLeOfLe(h.id, 8);
    }
    LeOfUnLe(bytes[..1]);
    LeOfUnLe(bytes[1..3]);
    LeOfUnLe(bytes[3..7]);
    LeOfUnLe(bytes[7..15]);
    assert bytes == bytes[..1] + bytes[1..3] + bytes[3..7] + bytes[7..15];
  }

  /** The fields byte by byte, least significant first: kind, command, total size, packet id. */
  lemma HeaderBytes(bytes: seq<byte>)
    requires |bytes| == 15
    ensures var h := UnpackHeader(bytes);
            var b: seq<int> := bytes;
            && h.kind == b[0]
            && h.cmd == b[1] + 0x100 * b[2]
            && h.size == b[3] + 0x100 * b[4] + 0x1_0000 * b[5] + 0x100_0000 * b[6]
            && h.id == b[7] + 0x100 * b[8] + 0x1_0000 * b[9] + 0x100_0000 * b[10]
                       + 0x1_0000_0000 * (b[11] + 0x100 * b[12] + 0x1_0000 * b[13] + 0x100_0000 * b[14])
  {
    OneByte(bytes[0]);
    TwoBytes(bytes[1], bytes[2]);
    FourBytes(bytes[3..7], []);
    FourBytes(bytes[7..11], bytes[11..15]);
    FourBytes(bytes[11..15], []);
    assert bytes[..1] == [bytes[0]] && bytes[1..3] == [bytes[1], bytes[2]];
    assert bytes[3..7] + [] == bytes[3..7] && bytes[11..15] + [] == bytes[11..15];
    assert bytes[7..15] == bytes[7..11] + bytes[11..15];
  }

  lemma OneByte(b: byte)
    ensures UnLe([b]) == b
  {
    assert [b][1..] == [];
  }

  lemma TwoBytes(b: byte, c: byte)
    ensures UnLe([b, c]) == b + 0x100 * (c as int)
  {
    assert [b, c][1..] == [c];
    OneByte(c);
  }

  lemma FourBytes(bytes: seq<byte>, more: seq<byte>)
    requires |bytes| == 4
    ensures var b: seq<int> := bytes;
            UnLe(bytes + more) == b[0] + 0x100 * b[1] + 0x1_0000 * b[2] + 0x100_0000 * b[3] + 0x1_0000_0000 * UnLe(more)
  {
    var s3, s2, s1 := [bytes[3]] + more, [bytes[2], bytes[3]] + more, [bytes[1], bytes[2], bytes[3]] + more;
    assert (bytes + more)[1..] == s1 && s1[1..] == s2 && s2[1..] == s3 && s3[1..] == more;
    assert UnLe(s3) == bytes[3] as int + 256 * UnLe(more);
    assert UnLe(s2) == bytes[2] as int + 256 * UnLe(s3);
    assert UnLe(s1) == bytes[1] as int + 256 * UnLe(s2);
    assert UnLe(bytes + more) == bytes[0] as int + 256 * UnLe(s1);
  }

  datatype Packet = Packet(kind: nat, cmd: nat, id: nat, payload: seq<byte>)
  {
    function Head(): Header { Header(kind, cmd, HEADER_SIZE + |payload|, id) }

    function Encode(): seq<byte> { PackHeader(Head()) + payload }
  }

  function EncodeAll(packets: seq<Packet>): seq<byte> {
    if packets == [] then [] else packets[0].Encode() + EncodeAll(packets[1..])
  }

  /** The packet at the front of a stream and what follows it; none if the stream ends inside it. A size below the
      header's own counts as no payload. */
  function Front(stream: seq<byte>): Option<(Packet, seq<byte>)> {
    if |stream| < HEADER_SIZE then None else
      var h := UnpackHeader(stream[..HEADER_SIZE]);
      var end := if h.size > HEADER_SIZE then h.size else HEADER_SIZE;
      if |stream| < end then None
      else Some((Packet(h.kind, h.cmd, h.id, stream[HEADER_SIZE..end]), stream[end..]))
  }

  lemma FrontOfEncoded(p: Packet, tail: seq<byte>)
    requires p.Head().Fits()
    ensures Front(p.Encode() + tail) == Some((p, tail))
  {
    var stream := p.Encode() + tail;
    assert stream[..HEADER_SIZE] == PackHeader(p.Head());
    HeaderRoundTrips(p.Head(), stream[..HEADER_SIZE]);
    var end := HEADER_SIZE + |p.payload|;
    assert stream[HEADER_SIZE..end] == p.payload && stream[end..] == tail;
  }

  // -- Reading a reply ------------------------------------------------------------------------------------

  datatype Fault = ConnectionClosed | UnexpectedType(kind: int) | Refused(error: int) | BadCommunicationId | DoesNotFit

  datatype Reply = Reply(error: int, data: seq<byte>)

  /** The first byte of a reply is its error, the rest its data; an empty one is a success without data. */
  function ReplyOf(payload: seq<byte>): Reply {
    Reply(if payload == [] then 0 else payload[0], if |payload| > 1 then payload[1..] else [])
  }

  /** What reading a reply from a stream answers, and what it leaves unread. */
  function ParseReply(stream: seq<byte>): (Result<Reply, Fault>, seq<byte>)
    decreases |stream|
  {
    match Front(stream)
    case None => (Err(ConnectionClosed), [])
    case Some((p, rest)) =>
      if p.kind == PKT_NOTIF then ParseReply(rest)
      else if p.kind != PKT_REPLY then (Err(UnexpectedType(p.kind)), rest)
      else (Ok(ReplyOf(p.payload)), rest)
  }

  lemma NotificationIsSkipped(p: Packet, rest: seq<byte>)
    requires p.kind == PKT_NOTIF && p.Head().Fits()
    ensures ParseReply(p.Encode() + rest) == ParseReply(rest)
  {
    FrontOfEncoded(p, rest);
  }

  lemma ReplyIsRead(reply: Packet, tail: seq<byte>)
    requires reply.kind == PKT_REPLY && reply.Head().Fits()
    ensures ParseReply(reply.Encode() + tail) == (Ok(ReplyOf(reply.payload)), tail)
  {
    FrontOfEncoded(reply, tail);
  }

  /** Any run of notifications followed by a reply: the answer is that reply's own error and data, and the stream is
      left at the next packet boundary. */
  lemma {:induction false} NotificationsAreSkipped(notifications: seq<Packet>, reply: Packet, tail: seq<byte>)
    requires forall p | p in notifications :: p.kind == PKT_NOTIF && p.Head().Fits()
    requires reply.kind == PKT_REPLY && reply.Head().Fits()
    ensures ParseReply(EncodeAll(notifications) + (reply.Encode() + tail)) == (Ok(ReplyOf(reply.payload)), tail)
  {
    var rest := reply.Encode() + tail;
    if notifications == [] {
      ReplyIsRead(reply, tail);
      assert EncodeAll(notifications) + rest == rest;
    } else {
      var first, others := notifications[0], notifications[1..];
      NotificationsAreSkipped(others, reply, tail);
      NotificationIsSkipped(first, EncodeAll(others) + rest);
      Regroup(first.Encode(), EncodeAll(others), rest);
    }
  }

  /** A stream of notifications, one more packet, and whatever follows. */
  ghost predicate StreamOf(stream: seq<byte>, notifications: seq<Packet>, p: Packet, tail: seq<byte>) {
    && (forall n | n in notifications :: n.kind == 2 && n.Head().Fits())
    && p.kind != 2 && p.Head().Fits()
    && stream == EncodeAll(notifications) + (p.Encode() + tail)
  }

  /** Past the notifications, a reply's first byte is its error and the bytes after it its data; an empty reply is no
      error and no data; any other packet is an error that names its type. What follows is left unread. */
  lemma RepliesAreRead(stream: seq<byte>, notifications: seq<Packet>, p: Packet, tail: seq<byte>)
    requires StreamOf(stream, notifications, p, tail)
    ensures p.kind == 1 && p.payload == [] ==> ParseReply(stream) == (Ok(Reply(0, [])), tail)
    ensures forall e, data :: p.kind == 1 && p.payload == [e] + data ==>
              ParseReply(stream) == (Ok(Reply(e, data)), tail)
    ensures p.kind != 1 ==> ParseReply(stream) == (Err(UnexpectedType(p.kind)), tail)
  {
    if p.kind == 1 {
      NotificationsAreSkipped(notifications, p, tail);
      forall e: byte, data: seq<byte> | p.payload == [e] + data ensures ReplyOf(p.payload) == Reply(e, data) {
        assert p.payload[0] == e && p.payload[1..] == data;
      }
    } else {
      OthersAreRefused(notifications, p, tail);
    }
  }

  lemma {:induction false} OthersAreRefused(notifications: seq<Packet>, p: Packet, tail: seq<byte>)
    requires forall n | n in notifications :: n.kind == PKT_NOTIF && n.Head().Fits()
    requires p.kind != PKT_NOTIF && p.kind != PKT_REPLY && p.Head().Fits()
    ensures ParseReply(EncodeAll(notifications) + (p.Encode() + tail)) == (Err(UnexpectedType(p.kind)), tail)
  {
    var rest := p.Encode() + tail;
    if notifications == [] {
      FrontOfEncoded(p, tail);
      assert EncodeAll(notifications) + rest == rest;
    } else {
      OthersAreRefused(notifications[1..], p, tail);
      NotificationIsSkipped(notifications[0], EncodeAll(notifications[1..]) + rest);
      Regroup(notifications[0].Encode(), EncodeAll(notifications[1..]), rest);
    }
  }

  /** A packet that claims to be smaller than its own header has no payload and ends with its header. */
  lemma ShortSizeIsNoPayload(header: seq<byte>, tail: seq<byte>)
    requires |header| == 15 && UnpackHeader(header).size < 15
    ensures var h := UnpackHeader(header);
            Front(header + tail) == Some((Packet(h.kind, h.cmd, h.id, []), tail))
  {
    assert (header + tail)[..15] == header && (header + tail)[15..] == tail && (header + tail)[15..15] == [];
  }

  /** A stream that ends anywhere before the reply is complete is a closed connection, never an answer. */
  lemma {:induction false} CutStreamIsClosed(notifications: seq<Packet>, reply: Packet, cut: seq<byte>)
    requires forall p | p in notifications :: p.kind == PKT_NOTIF && p.Head().Fits()
    requires reply.Head().Fits() && cut < EncodeAll(notifications) + reply.Encode()
    ensures ParseReply(cut) == (Err(ConnectionClosed), [])
  {
    if notifications == [] {
      assert EncodeAll(notifications) + reply.Encode() == reply.Encode();
      CutPacketHasNoFront(reply, cut);
    } else {
      var first := notifications[0].Encode();
      var rest := EncodeAll(notifications[1..]) + reply.Encode();
      Regroup(first, EncodeAll(notifications[1..]), reply.Encode());
      if |cut| < |first| {
        assert cut < first by { assert cut == (first + rest)[..|cut|]; }
        CutPacketHasNoFront(notifications[0], cut);
      } else {
        var cutRest := cut[|first|..];
        assert cut == (first + rest)[..|cut|];
        assert cutRest == rest[..|cutRest|] && cut == first + cutRest;
        FrontOfEncoded(notifications[0], cutRest);
        CutStreamIsClosed(notifications[1..], reply, cutRest);
      }
    }
  }

  lemma CutPacketHasNoFront(p: Packet, cut: seq<byte>)
    requires p.Head().Fits() && cut < p.Encode()
    ensures Front(cut) == None
  {
    if |cut| >= HEADER_SIZE {
      assert cut[..HEADER_SIZE] == p.Encode()[..HEADER_SIZE] == PackHeader(p.Head());
      HeaderRoundTrips(p.Head(), cut[..HEADER_SIZE]);
    }
  }

  // -- The client -----------------------------------------------------------------------------------------

  /** The other end of the connection: everything it will ever send, and everything sent to it. */
  class Socket {
    var incoming: seq<byte>
    var sent: seq<byte>

    constructor (incoming: seq<byte>)
      ensures this.incoming == incoming && sent == []
    {
      this.incoming := incoming;
      sent := [];
    }

    /** Any non-empty chunk of at most n bytes, or nothing once the other end has closed. */
    method Recv(n: nat) returns (chunk: seq<byte>)
      requires n > 0
      modifies this`incoming
      ensures old(incoming) == chunk + incoming
      ensures |chunk| <= n && (chunk == [] <==> old(incoming) == [])
    {
      if incoming == [] {
        return [];
      }
      var limit := if n < |incoming| then n else |incoming|;
      var k :| 1 <= k <= limit;
      chunk, incoming := incoming[..k], incoming[k..];
    }
  }

  class RpcnClient {
    const sock: Socket
    var packetId: nat
    ghost var requests: seq<Packet>

    /** What was sent is the requests, encoded one after another, under ever higher packet ids. */
    ghost predicate Valid() reads this, sock {
      && sock.sent == EncodeAll(requests)
      && (forall p | p in requests :: p.kind == 0 && p.Head().Fits() && 0 < p.id <= packetId)
      && (forall i, j | 0 <= i < j < |requests| :: requests[i].id < requests[j].id)
    }

    constructor (sock: Socket)
      requires sock.sent == []
      ensures Valid() && this.sock == sock && requests == [] && packetId == 0
    {
      this.sock := sock;
      packetId, requests := 0, [];
    }

    method Send(cmd: nat, payload: seq<byte>) returns (fault: Option<Fault>)
      requires Valid()
      modifies this, sock`sent
      ensures Valid() && packetId == old(packetId) + 1
      ensures var p := Packet(0, cmd, packetId, payload);
              if p.Head().Fits() then fault == None && requests == old(requests) + [p]
              else fault == Some(DoesNotFit) && requests == old(requests) && sock.sent == old(sock.sent)
    {
      packetId := packetId + 1;
      var header := Header(PKT_REQUEST, cmd, HEADER_SIZE + |payload|, packetId);
      if !header.Fits() {
        return Some(DoesNotFit);
      }
      sock.sent := sock.sent + (PackHeader(header) + payload);
      requests := requests + [Packet(PKT_REQUEST, cmd, packetId, payload)];
      EncodeAppended(old(requests), Packet(PKT_REQUEST, cmd, packetId, payload));
      fault := None;
    }

    method RecvExact(n: nat) returns (answer: Result<seq<byte>, Fault>)
      modifies sock`incoming
      ensures |old(sock.incoming)| >= n ==>
                answer == Ok(old(sock.incoming)[..n]) && sock.incoming == old(sock.incoming)[n..]
      ensures |old(sock.incoming)| < n ==> answer == Err(ConnectionClosed) && sock.incoming == []
    {
      var buf: seq<byte> := [];
      while |buf| < n
        invariant |buf| <= n && old(sock.incoming) == buf + sock.incoming
        decreases n - |buf|
      {
        var chunk := sock.Recv(n - |buf|);
        if chunk == [] {
          return Err(ConnectionClosed);
        }
        buf := buf + chunk;
      }
      answer := Ok(buf);
    }

    /** Take packets off the stream up to the first that is no notification, and answer with it. */
    method RecvReply() returns (answer: Result<Reply, Fault>)
      modifies sock`incoming
      ensures (answer, sock.incoming) == ParseReply(old(sock.incoming))
      ensures forall notifications, p, tail | StreamOf(old(sock.incoming), notifications, p, tail) ::
                && sock.incoming == tail
                && answer == if p.kind != 1 then Err(UnexpectedType(p.kind))
                             else if p.payload == [] then Ok(Reply(0, []))
                             else Ok(Reply(p.payload[0], p.payload[1..]))
    {
      forall notifications, p, tail | StreamOf(sock.incoming, notifications, p, tail)
        ensures ParseReply(sock.incoming)
             == (if p.kind != 1 then Err(UnexpectedType(p.kind))
                 else if p.payload == [] then Ok(Reply(0, []))
                 else Ok(Reply(p.payload[0], p.payload[1..])), tail)
      {
        RepliesAreRead(sock.incoming, notifications, p, tail);
        if p.payload != [] {
          assert p.payload == [p.payload[0]] + p.payload[1..];
        }
      }
      while true
        invariant ParseReply(sock.incoming) == ParseReply(old(sock.incoming))
        decreases |sock.incoming|
      {
        ghost var stream := sock.incoming;
        var hdr := RecvExact(HEADER_SIZE);
        if hdr.Err? {
          return Err(hdr.error);
        }
        var header := UnpackHeader(hdr.value);
        var payload: seq<byte> := [];
        if header.size > HEADER_SIZE {
          var body := RecvExact(header.size - HEADER_SIZE);
          if body.Err? {
            return Err(body.error);
          }
          payload := body.value;
        }
        ghost var end := if header.size > HEADER_SIZE then header.size else HEADER_SIZE;
        assert payload == stream[HEADER_SIZE..end] && sock.incoming == stream[end..];
        if header.kind == PKT_NOTIF {
          continue;
        }
        if header.kind != PKT_REPLY {
          return Err(UnexpectedType(header.kind));
        }
        return Ok(ReplyOf(payload));
      }
    }

    /** One request and its reply: the data of a successful reply, or why there is none. */
    method RequestWithData(comId: seq<byte>, cmd: nat, data: seq<byte>) returns (answer: Result<seq<byte>, Fault>)
      requires Valid()
      modifies this, sock
      ensures Valid()
      ensures |comId| != 12 ==>
                answer == Err(BadCommunicationId) && requests == old(requests) && sock.incoming == old(sock.incoming)
      ensures var p := Packet(0, cmd, old(packetId) + 1, comId + data);
              |comId| == 12 && !p.Head().Fits() ==>
                answer == Err(DoesNotFit) && requests == old(requests) && sock.incoming == old(sock.incoming)
      ensures var p := Packet(0, cmd, old(packetId) + 1, comId + data);
              |comId| == 12 && p.Head().Fits() ==>
                && requests == old(requests) + [p]
                && var (reply, rest) := ParseReply(old(sock.incoming));
                   && sock.incoming == rest
                   && answer == if reply.Err? then Err(reply.error)
                                else if reply.value.error != ERR_NO_ERROR then Err(Refused(reply.value.error))
                                else Ok(reply.value.data)
      ensures |comId| == 12
              && Packet(0, cmd, old(packetId) + 1, comId + data).Head().Fits() ==>
                forall notifications, p, tail | StreamOf(old(sock.incoming), notifications, p, tail) ::
                  && sock.incoming == tail
                  && answer == if p.kind != 1 then Err(UnexpectedType(p.kind))
                               else if p.payload == [] then Ok([])
                               else if p.payload[0] == 0 then Ok(p.payload[1..])
                               else Err(Refused(p.payload[0]))
    {
      if |comId| != COMMUNICATION_ID_SIZE {
        return Err(BadCommunicationId);
      }
      var fault := Send(cmd, comId + data);
      if fault.Some? {
        return Err(fault.value);
      }
      var reply := RecvReply();
      if reply.Err? {
        return Err(reply.error);
      }
      if reply.value.error != ERR_NO_ERROR {
        return Err(Refused(reply.value.error));
      }
      answer := Ok(reply.value.data);
    }
  }

  lemma {:induction false} EncodeAppended(packets: seq<Packet>, p: Packet)
    ensures EncodeAll(packets + [p]) == EncodeAll(packets) + p.Encode()
  {
    if packets == [] {
      assert ([] + [p])[1..] == [] && p.Encode() + [] == p.Encode();
    } else {
      EncodeAppended(packets[1..], p);
      assert (packets + [p])[1..] == packets[1..] + [p];
      Regroup(packets[0].Encode(), EncodeAll(packets[1..]), p.Encode());
    }
  }

  /** The packets of a stream, read off its front one by one. */
  function DecodeAll(stream: seq<byte>): seq<Packet>
    decreases |stream|
  {
    match Front(stream)
    case None => []
    case Some((p, rest)) => [p] + DecodeAll(rest)
  }

  /** The other end reads back exactly the requests that were sent, so it sees their ids strictly increase. */
  lemma {:induction false} SentPacketsAreReadBack(packets: seq<Packet>)
    requires forall p | p in packets :: p.Head().Fits()
    ensures DecodeAll(EncodeAll(packets)) == packets
  {
    if packets == [] {
    } else {
      SentPacketsAreReadBack(packets[1..]);
      FrontOfEncoded(packets[0], EncodeAll(packets[1..]));
    }
  }

  // -- Inside a payload ----------------------------------------------------------------------------------------

  function PackData(raw: seq<byte>): seq<byte> { Le(|raw|, 4) + raw }

  /** The bytes a data packet announces, or as many of them as there are; none if it has no room for its length. */
  function UnpackData(data: seq<byte>): Option<seq<byte>> {
    if |data| < 4 then None else
      var end := 4 + UnLe(data[..4]);
      Some(data[4..if end < |data| then end else |data|])
  }

  /** A length-prefixed message is read back whole, whatever follows it; cut short, it is read without complaint. */
  lemma DataRoundTrips(raw: seq<byte>, extra: seq<byte>, kept: nat)
    requires |raw| < 0x1_0000_0000 && kept <= |raw|
    ensures UnpackData(PackData(raw) + extra) == Some(raw)
    ensures UnpackData(PackData(raw)[..4 + kept]) == Some(raw[..kept])
    ensures PackData(raw)[4..] == raw
    ensures |raw| < 0x100 ==> PackData(raw)[..4] == [|raw|, 0, 0, 0]
    ensures forall cut: seq<byte> :: UnpackData(cut) == None <==> |cut| < 4
  {
    Widths();
    UnLeOfLe(|raw|, 4);
    assert (PackData(raw) + extra)[..4] == Le(|raw|, 4) == PackData(raw)[..4 + kept][..4];
    assert (PackData(raw) + extra)[4..4 + |raw|] == raw;
    assert PackData(raw)[4..] == raw && PackData(raw)[..4] == Le(|raw|, 4);
    if |raw| < 0x100 { SmallLength(|raw|); }
    var cut := PackData(raw)[..4 + kept];
    assert cut[4..] == raw[..kept] && cut[4..|cut|] == cut[4..];
  }

  lemma SmallLength(n: nat)
    requires n < 0x100
    ensures Le(n, 4) == [n, 0, 0, 0]
  {
    assert Le(0, 1) == [0] + Le(0, 0) == [0];
    assert Le(0, 2) == [0] + Le(0, 1) == [0, 0];
    assert Le(0, 3) == [0] + Le(0, 2) == [0, 0, 0];
    assert Le(n, 4) == [n] + Le(0, 3);
  }

  function CString(s: seq<byte>): seq<byte> { s + [0] }

  /** The bytes up to the next zero and the position after it; none when there is no zero. */
  function ReadCString(data: seq<byte>, pos: nat): Option<(seq<byte>, nat)> {
    var end := NextZero(data, pos);
    if end == None then None else Some((data[pos..end.value], end.value + 1))
  }

  function NextZero(data: seq<byte>, pos: nat): (end: Option<nat>)
    ensures end.Some? ==>
              && pos <= end.value < |data| && data[end.value] == 0
              && forall i | pos <= i < end.value :: data[i] != 0
    ensures end == None ==> forall i | pos <= i < |data| :: data[i] != 0
    decreases |data| - pos
  {
    if pos >= |data| then None
    else if data[pos] == 0 then Some(pos)
    else NextZero(data, pos + 1)
  }

  /** Strings without a zero, each closed by one, are read back in order: how a login is written and answered. */
  lemma CStringsRoundTrip(before: seq<byte>, s: seq<byte>, rest: seq<byte>)
    requires 0 !in s
    ensures ReadCString(before + CString(s) + rest, |before|) == Some((s, |before| + |s| + 1))
    ensures forall data, pos: nat :: ReadCString(data, pos) == None <==> forall i | pos <= i < |data| :: data[i] != 0
  {
    var data := before + CString(s) + rest;
    assert data[|before| + |s|] == 0;
    var end := NextZero(data, |before|);
    assert forall i | |before| <= i < |before| + |s| :: data[i] == s[i - |before|] && data[i] in s;
    assert end.value == |before| + |s|;
    assert data[|before|..end.value] == s;
  }
}
