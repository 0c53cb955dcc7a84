/** The client side of a SOCKS5 handshake: greeting, username/password authentication
    (section 2 of RFC 1929) and one command. */
module SocksClient {
  import opened Bytes
  import opened Results
  import opened SocksCodec
  import opened Streams

  datatype Credentials = Credentials(username: bytes, password: bytes)

  // ---------- what is sent ----------

  /** byte(len(s)) */
  function LengthByte(s: bytes): byte {
    |s| % 256
  }

  function AuthRequest(c: Credentials): bytes {
    [1, LengthByte(c.username)] + c.username + [LengthByte(c.password)] + c.password
  }

  function Method(c: Credentials): byte {
    if c.username != [] then 2 else 0
  }

  /** Everything the client writes before its command. */
  function Opening(c: Credentials): bytes {
    [5, 1, Method(c)] + if Method(c) == 2 then AuthRequest(c) else []
  }

  function CommandRequest(command: byte, address: bytes, port: int): bytes {
    [5, command, 0] + address + PortBytes(port)
  }

  // ---------- what is expected ----------

  /** The server's part of the opening; the rest is left over. */
  function OpeningReply(c: Credentials, s: bytes): Option<bytes> {
    if |s| < 2 || s[0] != 5 || s[1] != Method(c) then None
    else if Method(c) != 2 then Some(s[2..])
    else if |s| < 4 || s[2] != 1 || s[3] != 0 then None
    else Some(s[4..])
  }

  datatype Reply = Reply(bound: Endpoint, rest: bytes)

  function AddressLength(kind: byte, s: bytes): Option<nat> {
    if kind == 1 then Some(4)
    else if kind == 4 then Some(16)
    else if kind == 3 then if |s| < 1 || s[0] < 1 then None else Some(s[0])
    else None
  }

  /** The host of an address of the given kind at the front of s. */
  function ReadHost(t: IpText, kind: byte, s: bytes): Option<(bytes, bytes)> {
    match AddressLength(kind, s)
    case None => None
    case Some(length) =>
      var body := if kind == 3 then s[1..] else s;
      if |body| < length then None
      else Some((if kind == 3 then body[..length] else t.format(body[..length]), body[length..]))
  }

  /** A command reply at the front of s, and what follows it. */
  function ParseReply(t: IpText, s: bytes): Option<Reply> {
    if |s| < 4 || s[0] != 5 || s[2] != 0 || s[1] != 0 then None
    else
      match ReadHost(t, s[3], s[4..])
      case None => None
      case Some((host, rest)) =>
        if |rest| < 2 then None else Some(Reply(Endpoint(host, PortFrom(rest[..2])), rest[2..]))
  }

  /** A successful reply on the wire. */
  function WireReply(a: Address, port: int): bytes
    requires ValidAddress(a)
  {
    [5, 0, 0] + WireAddress(a) + PortBytes(port)
  }

  /** Every well-formed reply is understood, whatever follows it, and exactly the reply is used up. */
  lemma ReplyUnderstood(t: IpText, a: Address, port: int, tail: bytes)
    requires ValidAddress(a) && 0 <= port <= 65535
    ensures ParseReply(t, WireReply(a, port) + tail) == Some(Reply(Endpoint(HostOf(t, a), port), tail))
  {
    var s, w, after := WireReply(a, port) + tail, WireAddress(a), PortBytes(port) + tail;
    assert s[3] == w[0] && s[4..] == w[1..] + after;
    HostRead(t, a, after);
    PortRoundTrip(port);
    assert after[..2] == PortBytes(port) && after[2..] == tail;
  }

  lemma HostRead(t: IpText, a: Address, after: bytes)
    requires ValidAddress(a)
    ensures ReadHost(t, WireAddress(a)[0], WireAddress(a)[1..] + after) == Some((HostOf(t, a), after))
  {
    var s := WireAddress(a)[1..] + after;
    match a
    case V4(ip) => assert s == ip + after;
    case V6(ip) => assert s == ip + after;
    case Name(host) =>
      assert s[0] == |host| && s[1..] == host + after;
  }

  /** Only well-formed replies are understood. */
  lemma OnlyRepliesUnderstood(t: IpText, s: bytes)
    requires ParseReply(t, s).Some?
    ensures var r := ParseReply(t, s).value;
            exists a :: ValidAddress(a) && r.bound.host == HostOf(t, a) && 0 <= r.bound.port <= 65535
                        && s == WireReply(a, r.bound.port) + r.rest
  {
    var a, rest := HostIsAddress(t, s[3], s[4..]);
    PortDetermined(rest[..2]);
    assert s == [5, 0, 0] + ([s[3]] + s[4..]);
    Regroup([5, 0, 0], WireAddress(a), rest);
  }

  lemma Regroup(a: bytes, b: bytes, c: bytes)
    requires |c| >= 2
    ensures a + (b + c) == a + b + c[..2] + c[2..]
  {
  }

  /** What is read as a host is an address as it goes on the wire. */
  lemma HostIsAddress(t: IpText, kind: byte, s: bytes) returns (a: Address, rest: bytes)
    requires ReadHost(t, kind, s).Some?
    ensures ValidAddress(a) && ReadHost(t, kind, s) == Some((HostOf(t, a), rest)) && [kind] + s == WireAddress(a) + rest
  {
    var body, length := if kind == 3 then s[1..] else s, AddressLength(kind, s).value;
    a := if kind == 1 then V4(body[..4]) else if kind == 4 then V6(body[..16]) else Name(body[..length]);
    rest := body[length..];
    var head := if kind == 3 then [3, s[0]] else [kind];
    assert [kind] + s == head + body;
    assert head + body == head + body[..length] + rest;
  }

  // ---------- the handshake ----------

  /** openSOCKSConnection, on a connection already made. */
  method Open(conn: Connection, c: Credentials) returns (ok: bool)
    modifies conn
    ensures old(conn.broken) ==> conn.broken
    ensures ok ==> OpeningReply(c, old(conn.unread)) == Some(conn.unread) && conn.sent == old(conn.sent) + Opening(c)
    ensures !ok ==> conn.broken || OpeningReply(c, old(conn.unread)).None?
  {
    ghost var s := conn.unread;
    ok := conn.WriteFull([5, 1, Method(c)]);
    if !ok { return; }
    var response;
    ok, response := conn.ReadFull(2);
    assert ok ==> response == s[..2] && conn.unread == s[2..];
    if !ok || response[0] != 5 || response[1] != Method(c) {
      return false;
    }
    if Method(c) == 2 {
      ok := conn.WriteFull(AuthRequest(c));
      if !ok { return; }
      ok, response := conn.ReadFull(2);
      assert ok ==> response == s[2..4] && conn.unread == s[4..];
      ok := ok && response[0] == 1 && response[1] == 0;
    }
  }

  /** readSOCKSAddress */
  method ReadAddress(t: IpText, conn: Connection, kind: byte) returns (host: Option<bytes>)
    modifies conn
    ensures conn.sent == old(conn.sent) && (old(conn.broken) ==> conn.broken)
    ensures host.Some? ==> ReadHost(t, kind, old(conn.unread)) == Some((host.value, conn.unread))
    ensures host.None? ==> conn.broken || ReadHost(t, kind, old(conn.unread)).None?
  {
    ghost var s := conn.unread;
    var ok, length, encoded := true, 0, [];
    if kind == 1 {
      length := 4;
    } else if kind == 4 {
      length := 16;
    } else if kind == 3 {
      ok, encoded := conn.ReadFull(1);
      if !ok || encoded[0] < 1 {
        return None;
      }
      length := encoded[0];
      assert encoded == s[..1] && conn.unread == s[1..];
    } else {
      return None;
    }
    ghost var body := conn.unread;
    ok, encoded := conn.ReadFull(length);
    if !ok {
      return None;
    }
    assert encoded == body[..length] && conn.unread == body[length..];
    host := Some(if kind == 3 then encoded else t.format(encoded));
  }

  /** sendSOCKSCommand: for every way the transport may cut reads and writes short, it sends
      exactly the request, returns exactly the endpoint replied, and leaves unread exactly
      what follows the reply. */
  method SendCommand(t: IpText, conn: Connection, command: byte, target: Endpoint) returns (bound: Option<Endpoint>)
    modifies conn
    ensures old(conn.broken) ==> conn.broken
    ensures EncodeAddress(t, target.host).None? ==> bound.None? && conn.sent == old(conn.sent) && conn.unread == old(conn.unread)
    ensures bound.Some? ==>
              EncodeAddress(t, target.host).Some?
              && conn.sent == old(conn.sent) + CommandRequest(command, EncodeAddress(t, target.host).value, target.port)
              && ParseReply(t, old(conn.unread)) == Some(Reply(bound.value, conn.unread))
    ensures bound.None? ==>
              conn.broken || EncodeAddress(t, target.host).None? || ParseReply(t, old(conn.unread)).None?
  {
    var address := EncodeAddress(t, target.host);
    if address.None? {
      return None;
    }
    ghost var s := conn.unread;
    var ok := conn.WriteFull(CommandRequest(command, address.value, target.port));
    if !ok {
      return None;
    }
    var header;
    ok, header := conn.ReadFull(4);
    assert ok ==> header == s[..4] && conn.unread == s[4..];
    if !ok || header[0] != 5 || header[2] != 0 || header[1] != 0 {
      return None;
    }
    var host := ReadAddress(t, conn, header[3]);
    if host.None? {
      return None;
    }
    ghost var rest := conn.unread;
    var port;
    ok, port := conn.ReadFull(2);
    if !ok {
      return None;
    }
    assert port == rest[..2] && conn.unread == rest[2..];
    bound := Some(Endpoint(host.value, PortFrom(port)));
  }

  /** dialSOCKSTCP: after a well-behaved server's replies the tunnel starts at the first byte
      that is not the server's. */
  method Dial(t: IpText, conn: Connection, c: Credentials, target: Endpoint) returns (ok: bool)
    modifies conn
    ensures ok ==>
              && EncodeAddress(t, target.host).Some?
              && conn.sent == old(conn.sent) + Opening(c) + CommandRequest(1, EncodeAddress(t, target.host).value, target.port)
              && OpeningReply(c, old(conn.unread)).Some?
              && ParseReply(t, OpeningReply(c, old(conn.unread)).value).Some?
              && ParseReply(t, OpeningReply(c, old(conn.unread)).value).value.rest == conn.unread
    ensures !ok ==> conn.broken || EncodeAddress(t, target.host).None? || OpeningReply(c, old(conn.unread)).None?
                    || ParseReply(t, OpeningReply(c, old(conn.unread)).value).None?
  {
    ok := Open(conn, c);
    if ok {
      var bound := SendCommand(t, conn, 1, target);
      ok := bound.Some?;
    }
  }

  // ---------- the length byte of a credential ----------

  /** The server's reading of an authentication request (section 2 of RFC 1929). */
  function ReadAuth(s: bytes): Option<Credentials> {
    if |s| < 2 || s[0] != 1 || |s| < 2 + s[1] as nat + 1 then None
    else
      var n: nat := s[1];
      var m: nat := s[2 + n];
      if |s| != 3 + n + m then None else Some(Credentials(s[2..2 + n], s[3 + n..]))
  }

  /** The server reads back the credentials exactly when neither is longer than 255 bytes;
      a longer one wraps its length byte. The configuration check admits no longer ones. */
  lemma AuthReadBack(c: Credentials)
    ensures ReadAuth(AuthRequest(c)) == Some(c) <==> |c.username| <= 255 && |c.password| <= 255
  {
    var s := AuthRequest(c);
    if |c.username| <= 255 && |c.password| <= 255 {
      assert s[2..2 + |c.username|] == c.username;
      assert s[2 + |c.username|] == |c.password|;
      assert s[3 + |c.username|..] == c.password;
    }
  }
}
