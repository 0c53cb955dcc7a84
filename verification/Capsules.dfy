/** Capsule framing (sections 3.2 and 3.5 of RFC 9297, varints of section 16 of RFC 9000) and
    the two ways a payload reaches the SOCKS relay: QUIC datagrams and datagram capsules. */
module Capsules {
  import opened Bytes
  import opened Results
  import opened SocksCodec
  import opened Streams

  const MAX_PAYLOAD: nat := 1500

  // ---------- variable-length integers ----------

  function VarintLength(first: byte): nat {
    if first < 64 then 1 else if first < 128 then 2 else if first < 192 then 4 else 8
  }

  function BigEndian(s: bytes): nat {
    if s == [] then 0 else 256 * BigEndian(s[..|s| - 1]) + s[|s| - 1]
  }

  datatype Varint = Varint(value: nat, length: nat)

  /** The integer at the front of s: the top two bits of the first byte give its length. */
  function ParseVarint(s: bytes): (r: Option<Varint>)
    ensures r.Some? ==> 1 <= r.value.length <= |s| && r.value.length <= 8
  {
    if s == [] || |s| < VarintLength(s[0]) then None
    else
      var n := VarintLength(s[0]);
      Some(Varint(BigEndian([s[0] % 64] + s[1..n]), n))
  }

  // ---------- capsules ----------

  datatype Capsule = Capsule(kind: nat, value: bytes)
  datatype Cut = Cut(capsule: Capsule, rest: bytes)

  /** The capsule at the front of a stream, if all of it is there. */
  function ParseCapsule(s: bytes): (r: Option<Cut>)
    ensures r.Some? ==> |r.value.rest| < |s|
  {
    match ParseVarint(s)
    case None => None
    case Some(kind) =>
      match ParseVarint(s[kind.length..])
      case None => None
      case Some(length) =>
        var body := s[kind.length + length.length..];
        if |body| < length.value then None
        else Some(Cut(Capsule(kind.value, body[..length.value]), body[length.value..]))
  }

  /** The complete capsules at the front of a stream. */
  function Decode(s: bytes): seq<Capsule>
    decreases |s|
  {
    match ParseCapsule(s)
    case None => []
    case Some(cut) => [cut.capsule] + Decode(cut.rest)
  }

  // ---------- what is forwarded ----------

  /** The payload of an HTTP datagram with context 0, if it is that. */
  function ContextZero(value: bytes): Option<bytes> {
    match ParseVarint(value)
    case None => None
    case Some(context) => if context.value != 0 then None else Some(value[context.length..])
  }

  /** The HTTP datagram in a capsule that is not skipped. */
  function SmallDatagram(c: Capsule): Option<bytes> {
    if c.kind != 0 || |c.value| > MAX_PAYLOAD + 1 then None else Some(c.value)
  }

  /** What the capsule loop forwards of one capsule. */
  function CapsulePayload(c: Capsule): (r: Option<bytes>)
    ensures r.Some? ==> |r.value| <= MAX_PAYLOAD
  {
    match SmallDatagram(c)
    case None => None
    case Some(value) => ContextZero(value)
  }

  /** What the datagram loop forwards of one datagram. */
  function DatagramPayload(datagram: bytes): (r: Option<bytes>)
    ensures r.Some? ==> |r.value| <= MAX_PAYLOAD
  {
    match ContextZero(datagram)
    case None => None
    case Some(payload) => if |payload| > MAX_PAYLOAD then None else Some(payload)
  }

  function Forwarded(cs: seq<Capsule>): seq<bytes> {
    if cs == [] then []
    else
      match CapsulePayload(cs[|cs| - 1])
      case None => Forwarded(cs[..|cs| - 1])
      case Some(p) => Forwarded(cs[..|cs| - 1]) + [p]
  }

  /** The two paths treat an HTTP datagram differently exactly if it spells context 0 in L bytes
      and is longer than the capsule path admits, yet by no more than L makes its payload too
      long: a spelling in one byte never does that. */
  lemma PathsAgreeExactly(value: bytes)
    ensures CapsulePayload(Capsule(0, value)) != DatagramPayload(value)
            <==> exists length :: ContextZeroIn(value, length) && MAX_PAYLOAD + 1 < |value| <= MAX_PAYLOAD + length
    ensures ContextZeroIn(value, 1) ==> CapsulePayload(Capsule(0, value)) == DatagramPayload(value)
  {
    var context := ParseVarint(value);
    assert forall length :: ContextZeroIn(value, length) <==> context == Some(Varint(0, length));
    if context.Some? && context.value.value == 0 {
      assert ContextZeroIn(value, context.value.length);
    }
  }

  /** The datagram begins with context 0 spelled in so many bytes. */
  predicate ContextZeroIn(value: bytes, length: nat) {
    ParseVarint(value) == Some(Varint(0, length))
  }

  /** Such a datagram: context 0 in two bytes before a full payload. */
  lemma PathsCanDiffer(payload: bytes)
    requires |payload| == MAX_PAYLOAD
    ensures DatagramPayload([64, 0] + payload) == Some(payload)
    ensures CapsulePayload(Capsule(0, [64, 0] + payload)) == None
  {
    var value := [64, 0] + payload;
    assert value[1..2] == [0] && value[2..] == payload;
    var two: bytes := [0, 0];
    assert [value[0] % 64] + value[1..2] == two;
    assert two[..1] == [0] && BigEndian(two[..1]) == 0 && BigEndian(two) == 0;
  }

  // ---------- writing capsules ----------

  /** quicvarint.Append for the lengths that occur here. */
  function PutVarint(n: nat): bytes
    requires n < 16384
  {
    if n < 64 then [n] else [64 + n / 256, n % 256]
  }

  lemma VarintRoundTrip(n: nat, rest: bytes)
    requires n < 16384
    ensures ParseVarint(PutVarint(n) + rest) == Some(Varint(n, |PutVarint(n)|))
  {
    var s := PutVarint(n) + rest;
    if n < 64 {
      var one: bytes := [n];
      assert [s[0] % 64] + s[1..1] == one;
      assert one[..0] == [] && BigEndian(one) == n;
    } else {
      var two: bytes := [n / 256, n % 256];
      assert s[0] == 64 + n / 256 && VarintLength(s[0]) == 2;
      assert [s[0] % 64] + s[1..2] == two;
      var one := two[..1];
      assert one[..0] == [] && BigEndian(one) == n / 256;
      assert BigEndian(two) == 256 * (n / 256) + n % 256;
    }
  }

  /** http3.WriteCapsule of a datagram capsule. */
  function WriteDatagramCapsule(value: bytes): bytes
    requires |value| < 16384
  {
    [0] + PutVarint(|value|) + value
  }

  /** A written capsule is read back, whatever follows it. */
  lemma CapsuleRoundTrip(value: bytes, rest: bytes)
    requires |value| < 16384
    ensures ParseCapsule(WriteDatagramCapsule(value) + rest) == Some(Cut(Capsule(0, value), rest))
  {
    var s := WriteDatagramCapsule(value) + rest;
    var l := PutVarint(|value|);
    assert PutVarint(0) == [0];
    assert s == PutVarint(0) + (l + (value + rest));
    VarintRoundTrip(0, l + (value + rest));
    assert s[1..] == l + (value + rest);
    VarintRoundTrip(|value|, value + rest);
    assert s[1 + |l|..] == value + rest;
  }

  // ---------- the SOCKS side ----------

  /** The UDP socket to the relay: datagrams written, in order. */
  class RelaySocket {
    var sent: seq<bytes>
    /** A write failed or was short. */
    var failed: bool

    constructor ()
      ensures sent == [] && !failed
    {
      sent, failed := [], false;
    }

    /** WriteToUDP: all of a frame, part of it, or an error. */
    method WriteTo(frame: bytes) returns (ok: bool)
      modifies this
      ensures ok ==> sent == old(sent) + [frame] && failed == old(failed)
      ensures !ok ==> failed && sent == old(sent)
    {
      ok := *;
      if ok {
        sent := sent + [frame];
      } else {
        failed := true;
      }
    }
  }

  datatype Stop = StreamEnded | SocketFailed | BadTarget | Cancelled

  /** The frames carrying some payloads to the target. */
  function Frames(t: IpText, target: Endpoint, payloads: seq<bytes>): seq<bytes>
    requires EncodeAddress(t, target.host).Some?
  {
    if payloads == [] then []
    else Frames(t, target, payloads[..|payloads| - 1]) + [EncodeFrame(t, target, payloads[|payloads| - 1]).value]
  }

  /** relayPayloadToSOCKS */
  method Relay(t: IpText, socket: RelaySocket, target: Endpoint, payload: bytes) returns (stop: Option<Stop>)
    modifies socket
    ensures stop.None? ==> EncodeAddress(t, target.host).Some? && socket.failed == old(socket.failed)
                           && socket.sent == old(socket.sent) + [EncodeFrame(t, target, payload).value]
    ensures stop.Some? ==> socket.sent == old(socket.sent)
    ensures stop.Some? ==> if EncodeAddress(t, target.host).None? then stop == Some(BadTarget) else stop == Some(SocketFailed) && socket.failed
  {
    var frame := EncodeFrame(t, target, payload);
    if frame.None? {
      return Some(BadTarget);
    }
    var ok := socket.WriteTo(frame.value);
    stop := if ok then None else Some(SocketFailed);
  }

  // ---------- the loops ----------

  /** quicvarint.Read: one byte, then as many more as it announces. */
  method ReadVarint(stream: Connection) returns (v: Option<nat>)
    modifies stream
    ensures stream.sent == old(stream.sent) && (old(stream.broken) ==> stream.broken)
    ensures v.Some? ==> ParseVarint(old(stream.unread)).Some?
                        && v.value == ParseVarint(old(stream.unread)).value.value
                        && stream.unread == old(stream.unread)[ParseVarint(old(stream.unread)).value.length..]
    ensures v.None? ==> stream.broken || ParseVarint(old(stream.unread)).None?
    ensures |stream.unread| <= |old(stream.unread)|
  {
    ghost var s := stream.unread;
    var ok, first := stream.ReadFull(1);
    if !ok {
      return None;
    }
    assert first == s[..1] && stream.unread == s[1..];
    var more;
    ok, more := stream.ReadFull(VarintLength(first[0]) - 1);
    if !ok {
      return None;
    }
    assert more == s[1..VarintLength(s[0])];
    v := Some(BigEndian([first[0] % 64] + more));
  }

  /** The reading part of one turn of the capsule loop: the datagram in the next capsule, None
      for a capsule that is skipped, or the end. */
  method NextCapsule(stream: Connection) returns (ended: bool, datagram: Option<bytes>)
    modifies stream
    ensures stream.sent == old(stream.sent) && (old(stream.broken) ==> stream.broken)
    ensures !ended ==> ParseCapsule(old(stream.unread)).Some?
                       && datagram == SmallDatagram(ParseCapsule(old(stream.unread)).value.capsule)
                       && stream.unread == ParseCapsule(old(stream.unread)).value.rest
    ensures ended ==> stream.broken || ParseCapsule(old(stream.unread)).None?
  {
    ghost var s := stream.unread;
    datagram := None;
    var kind := ReadVarint(stream);
    if kind.None? {
      return true, None;
    }
    var length := ReadVarint(stream);
    if length.None? {
      return true, None;
    }
    ghost var body := stream.unread;
    assert body == s[ParseVarint(s).value.length + ParseVarint(s[ParseVarint(s).value.length..]).value.length..];
    var ok, value, skipped := true, [], [];
    if kind.value != 0 {
      ok, skipped := stream.ReadFull(length.value);
      return !ok, None;
    }
    // Read at most one byte more than the largest datagram; skip what is left of the capsule.
    var limit := MAX_PAYLOAD + 2;
    ok, value := stream.ReadFull(if length.value < limit then length.value else limit);
    if !ok {
      return true, None;
    }
    assert value == body[..|value|] && stream.unread == body[|value|..];
    if |value| > MAX_PAYLOAD + 1 {
      ok, skipped := stream.ReadFull(length.value - limit);
      assert ok ==> stream.unread == body[length.value..];
      return !ok, None;
    }
    ended := false;
    datagram := Some(value);
  }

  lemma FramesSnoc(t: IpText, target: Endpoint, payloads: seq<bytes>, p: bytes)
    requires EncodeAddress(t, target.host).Some?
    ensures Frames(t, target, payloads + [p]) == Frames(t, target, payloads) + [EncodeFrame(t, target, p).value]
  {
    assert (payloads + [p])[..|payloads|] == payloads;
  }

  /** What the relay has been sent for the capsules in done. */
  ghost predicate RelayedExactly(t: IpText, target: Endpoint, before: seq<bytes>, sent: seq<bytes>, done: seq<Capsule>) {
    if EncodeAddress(t, target.host).Some? then sent == before + Frames(t, target, Forwarded(done))
    else sent == before && Forwarded(done) == []
  }

  lemma RelayedMore(t: IpText, target: Endpoint, before: seq<bytes>, sent: seq<bytes>, done: seq<Capsule>, c: Capsule)
    requires RelayedExactly(t, target, before, sent, done)
    ensures CapsulePayload(c).None? ==> RelayedExactly(t, target, before, sent, done + [c])
    ensures CapsulePayload(c).Some? && EncodeAddress(t, target.host).Some? ==>
              RelayedExactly(t, target, before, sent + [EncodeFrame(t, target, CapsulePayload(c).value).value], done + [c])
  {
    assert (done + [c])[..|done|] == done;
    if CapsulePayload(c).Some? && EncodeAddress(t, target.host).Some? {
      FramesSnoc(t, target, Forwarded(done), CapsulePayload(c).value);
    }
  }

  lemma Resume(all: seq<Capsule>, done: seq<Capsule>, c: Capsule, rest: seq<Capsule>)
    requires all == done + ([c] + rest)
    ensures all == (done + [c]) + rest && |done| < |all| && all[|done|] == c && done <= all
  {
  }

  /** The relaying part of one turn of the capsule loop. */
  method RelayCapsule(t: IpText, socket: RelaySocket, target: Endpoint, datagram: Option<bytes>, cancelled: bool,
                      ghost before: seq<bytes>, ghost done: seq<Capsule>, ghost c: Capsule)
    returns (stop: Option<Stop>)
    requires datagram == SmallDatagram(c) && RelayedExactly(t, target, before, socket.sent, done)
    modifies socket
    ensures RelayedExactly(t, target, before, socket.sent, if stop.None? then done + [c] else done)
    ensures stop != Some(StreamEnded) && (stop == Some(Cancelled) <==> cancelled && SmallDatagram(c).Some?)
    ensures stop == Some(BadTarget) || stop == Some(SocketFailed) ==> CapsulePayload(c).Some?
    ensures stop == Some(BadTarget) ==> EncodeAddress(t, target.host).None?
    ensures stop == Some(SocketFailed) ==> socket.failed
  {
    RelayedMore(t, target, before, socket.sent, done, c);
    if datagram.None? {
      return None;
    }
    if cancelled {
      return Some(Cancelled);
    }
    var payload := ContextZero(datagram.value);
    if payload.None? {
      return None;
    }
    stop := Relay(t, socket, target, payload.value);
  }

  /** consumeCapsules. At the top of the loop the stream stands at a capsule boundary, and the
      relay has had exactly the payloads of the capsules before it, in order. The loop ends
      with the stream, at a capsule whose payload it could not relay, or at the first
      datagram it reads to its end once the context is cancelled. */
  method ConsumeCapsules(t: IpText, stream: Connection, socket: RelaySocket, target: Endpoint, cancelledAt: Option<nat>)
    returns (stop: Stop, ghost done: seq<Capsule>)
    modifies stream, socket
    ensures done <= Decode(old(stream.unread))
    ensures RelayedExactly(t, target, old(socket.sent), socket.sent, done)
    ensures stop.StreamEnded? ==> stream.broken || done == Decode(old(stream.unread))
    ensures !stop.StreamEnded? ==> |done| < |Decode(old(stream.unread))|
    ensures stop.BadTarget? || stop.SocketFailed? ==> CapsulePayload(Decode(old(stream.unread))[|done|]).Some?
    ensures stop.BadTarget? ==> EncodeAddress(t, target.host).None?
    ensures stop.SocketFailed? ==> socket.failed
    ensures stop.Cancelled? ==> After(cancelledAt, |done|) && SmallDatagram(Decode(old(stream.unread))[|done|]).Some?
    ensures NoDatagramAfter(cancelledAt, done)
  {
    var read := 0;
    done := [];
    ghost var all := Decode(stream.unread);
    while true
      invariant all == done + Decode(stream.unread) && read == |done|
      invariant NoDatagramAfter(cancelledAt, done)
      invariant RelayedExactly(t, target, old(socket.sent), socket.sent, done)
      decreases |stream.unread|
    {
      ghost var cut := ParseCapsule(stream.unread);
      var ended, datagram := NextCapsule(stream);
      if ended {
        return StreamEnded, done;
      }
      ghost var c := cut.value.capsule;
      Resume(all, done, c, Decode(stream.unread));
      var failure := RelayCapsule(t, socket, target, datagram, After(cancelledAt, read), old(socket.sent), done, c);
      if failure.Some? {
        return failure.value, done;
      }
      NoDatagramMore(cancelledAt, done, c);
      done := done + [c];
      read := read + 1;
    }
  }

  /** The context is cancelled before this capsule or packet, counted from zero. */
  predicate After(cancelledAt: Option<nat>, i: nat) {
    cancelledAt.Some? && cancelledAt.value <= i
  }

  predicate NoDatagramAfter(cancelledAt: Option<nat>, done: seq<Capsule>) {
    forall i :: 0 <= i < |done| && After(cancelledAt, i) ==> SmallDatagram(done[i]).None?
  }

  lemma NoDatagramMore(cancelledAt: Option<nat>, done: seq<Capsule>, c: Capsule)
    requires NoDatagramAfter(cancelledAt, done) && (After(cancelledAt, |done|) ==> SmallDatagram(c).None?)
    ensures NoDatagramAfter(cancelledAt, done + [c])
  {
  }

  // ---------- the datagram loops ----------

  /** relayMASQUEToSOCKS over the datagrams received before the context ends. */
  method RelayDatagrams(t: IpText, datagrams: seq<bytes>, socket: RelaySocket, target: Endpoint)
    returns (stop: Stop, ghost done: nat)
    modifies socket
    ensures done <= |datagrams|
    ensures EncodeAddress(t, target.host).Some? ==>
              socket.sent == old(socket.sent) + Frames(t, target, DatagramPayloads(datagrams[..done]))
    ensures EncodeAddress(t, target.host).None? ==> socket.sent == old(socket.sent) && DatagramPayloads(datagrams[..done]) == []
    ensures stop.Cancelled? ==> done == |datagrams|
    ensures !stop.Cancelled? ==> done < |datagrams| && DatagramPayload(datagrams[done]).Some?
    ensures stop.SocketFailed? ==> socket.failed
  {
    var i := 0;
    while i < |datagrams|
      invariant i <= |datagrams|
      invariant EncodeAddress(t, target.host).Some? ==>
                  socket.sent == old(socket.sent) + Frames(t, target, DatagramPayloads(datagrams[..i]))
      invariant EncodeAddress(t, target.host).None? ==> socket.sent == old(socket.sent) && DatagramPayloads(datagrams[..i]) == []
    {
      assert datagrams[..i + 1][..i] == datagrams[..i];
      var payload := ContextZero(datagrams[i]);
      if payload.Some? && |payload.value| <= MAX_PAYLOAD {
        var failure := Relay(t, socket, target, payload.value);
        if failure.Some? {
          return failure.value, i;
        }
        FramesSnoc(t, target, DatagramPayloads(datagrams[..i]), payload.value);
      }
      i := i + 1;
    }
    return Cancelled, i;
  }

  function DatagramPayloads(ds: seq<bytes>): seq<bytes> {
    if ds == [] then []
    else
      match DatagramPayload(ds[|ds| - 1])
      case None => DatagramPayloads(ds[..|ds| - 1])
      case Some(p) => DatagramPayloads(ds[..|ds| - 1]) + [p]
  }

  // ---------- from the relay back to the client ----------

  /** What the client is sent: a QUIC datagram, or a capsule when that is too large. */
  datatype Delivery = AsDatagram(datagram: bytes) | AsCapsule(datagram: bytes)

  /** A UDP packet: whether it comes from the relay's address, and its bytes. */
  datatype Packet = Packet(fromRelay: bool, frame: bytes)

  /** The HTTP datagram the bridge makes of a packet, if it makes one. */
  function Answer(t: IpText, target: Endpoint, p: Packet): Option<bytes> {
    if !p.fromRelay then None
    else
      match ParseFrame(t, p.frame)
      case Err(_) => None
      case Ok(parsed) =>
        if !AcceptableResponse(t, target, parsed.source) || |parsed.payload| > MAX_PAYLOAD then None
        else Some([0] + parsed.payload)
  }

  function Answers(t: IpText, target: Endpoint, ps: seq<Packet>): seq<bytes> {
    if ps == [] then []
    else
      match Answer(t, target, ps[|ps| - 1])
      case None => Answers(t, target, ps[..|ps| - 1])
      case Some(d) => Answers(t, target, ps[..|ps| - 1]) + [d]
  }

  /** Whichever way an answer travels, the client recovers the relayed payload and nothing else. */
  lemma AnswerRecovered(t: IpText, target: Endpoint, p: Packet, rest: bytes)
    requires Answer(t, target, p).Some?
    ensures var payload := ParseFrame(t, p.frame).value.payload;
            var datagram := Answer(t, target, p).value;
            && DatagramPayload(datagram) == Some(payload)
            && |datagram| < 16384
            && Decode(WriteDatagramCapsule(datagram) + rest) == [Capsule(0, datagram)] + Decode(rest)
            && CapsulePayload(Capsule(0, datagram)) == Some(payload)
  {
    var payload := ParseFrame(t, p.frame).value.payload;
    var datagram := [0] + payload;
    assert PutVarint(0) == [0];
    VarintRoundTrip(0, payload);
    assert datagram[1..] == payload;
    CapsuleRoundTrip(datagram, rest);
  }

  /** The client's stream: what it has been sent, each answer one way or the other. */
  class MasqueStream {
    var log: seq<Delivery>
    var failed: bool

    constructor ()
      ensures log == [] && !failed
    {
      log, failed := [], false;
    }

    /** SendDatagram: sent, refused as too large, or failed. */
    method SendDatagram(datagram: bytes) returns (ok: bool, tooLarge: bool)
      modifies this
      ensures ok ==> log == old(log) + [AsDatagram(datagram)] && failed == old(failed)
      ensures !ok ==> log == old(log) && failed == (old(failed) || !tooLarge)
    {
      ok, tooLarge := *, *;
      if ok {
        log := log + [AsDatagram(datagram)];
      } else {
        failed := failed || !tooLarge;
      }
    }

    method WriteCapsule(datagram: bytes) returns (ok: bool)
      modifies this
      ensures ok ==> log == old(log) + [AsCapsule(datagram)] && failed == old(failed)
      ensures !ok ==> log == old(log) && failed
    {
      ok := *;
      if ok {
        log := log + [AsCapsule(datagram)];
      } else {
        failed := true;
      }
    }
  }

  function Delivered(log: seq<Delivery>): seq<bytes> {
    if log == [] then [] else Delivered(log[..|log| - 1]) + [log[|log| - 1].datagram]
  }

  lemma DeliveredMore(log: seq<Delivery>, d: Delivery)
    ensures Delivered(log + [d]) == Delivered(log) + [d.datagram]
  {
    assert (log + [d])[..|log|] == log;
  }

  /** Sends one answer: as a datagram, or as a capsule if it is too large for one. */
  method SendPayload(stream: MasqueStream, datagram: bytes) returns (ok: bool, ghost how: Delivery)
    modifies stream
    ensures how.datagram == datagram
    ensures ok ==> stream.log == old(stream.log) + [how]
    ensures !ok ==> stream.log == old(stream.log) && stream.failed
  {
    var tooLarge;
    ok, tooLarge := stream.SendDatagram(datagram);
    how := AsDatagram(datagram);
    if !ok && tooLarge {
      ok := stream.WriteCapsule(datagram);
      how := AsCapsule(datagram);
    }
  }

  /** relaySOCKSToMASQUE over the packets that arrive before the socket is closed. Answers
      reach the client in order, each exactly once, whichever way each one travels. The loop
      ends with a write that fails, or with the first packet it receives once the context is
      cancelled, which it drops. */
  method RelayAnswers(t: IpText, packets: seq<Packet>, stream: MasqueStream, target: Endpoint, cancelledAt: Option<nat>)
    returns (done: nat, ghost added: seq<Delivery>)
    modifies stream
    ensures done <= |packets| && stream.log == old(stream.log) + added
    ensures Delivered(added) == Answers(t, target, packets[..done])
    ensures done < |packets| ==> cancelledAt == Some(done) || (stream.failed && Answer(t, target, packets[done]).Some?)
    ensures cancelledAt.Some? ==> done <= cancelledAt.value
  {
    done, added := 0, [];
    while done < |packets|
      invariant done <= |packets| && stream.log == old(stream.log) + added
      invariant Delivered(added) == Answers(t, target, packets[..done])
      invariant cancelledAt.Some? ==> done <= cancelledAt.value
    {
      if After(cancelledAt, done) {
        return;
      }
      assert packets[..done + 1][..done] == packets[..done];
      var datagram := Answer(t, target, packets[done]);
      if datagram.Some? {
        var ok, how := SendPayload(stream, datagram.value);
        if !ok {
          return;
        }
        DeliveredMore(added, how);
        added := added + [how];
      }
      done := done + 1;
    }
  }
}
