/** SOCKS5 addresses and UDP frames (sections 3 to 7 of RFC 1928) as the bridge encodes and
    parses them. Hosts are Go strings, that is, bytes. */
module SocksCodec {
  import opened Bytes
  import opened Results

  /** Go's net.ParseIP and net.IP.String, whose code is not part of this model. */
  datatype IpText = IpText(parse: bytes -> Option<bytes>, format: bytes -> bytes)

  const MAPPED_PREFIX: bytes := [0, 0, 0, 0, 0, 0, 0, 0, 0, 0, 255, 255]

  /** The four bytes of an IPv4 or IPv4-mapped address: net.IP.To4. */
  function To4(ip: bytes): Option<bytes> {
    if |ip| == 4 then Some(ip)
    else if |ip| == 16 && ip[..12] == MAPPED_PREFIX then Some(ip[12..])
    else None
  }

  function To16(ip: bytes): bytes {
    if |ip| == 4 then MAPPED_PREFIX + ip else ip
  }

  /** What Go documents: parsing yields the 16-byte form, undoes printing, and a 4-byte
      address prints like its mapped form. */
  ghost predicate Lawful(t: IpText) {
    && (forall s :: t.parse(s).Some? ==> |t.parse(s).value| == 16)
    && (forall ip :: |ip| == 16 ==> t.parse(t.format(ip)) == Some(ip))
    && (forall ip :: |ip| == 4 ==> t.format(ip) == t.format(To16(ip)))
  }

  /** There are such texts: sixteen bytes can stand for themselves. */
  lemma LawfulTextsExist()
    ensures Lawful(IpText((s: bytes) => if |s| == 16 then Some(s) else None, To16))
  {
    var t := IpText((s: bytes) => if |s| == 16 then Some(s) else None, To16);
    forall ip: bytes | |ip| == 4 ensures t.format(ip) == t.format(To16(ip)) {
      assert |To16(ip)| == 16;
    }
  }

  datatype Endpoint = Endpoint(host: bytes, port: int)

  /** The host as the peer will print it. */
  function Normal(t: IpText, host: bytes): bytes {
    match t.parse(host)
    case Some(ip) => t.format(ip)
    case None => host
  }

  predicate HasControl(host: bytes) {
    NUL in host || CR in host || LF in host
  }

  // ---------- encoding ----------

  function EncodeAddress(t: IpText, host: bytes): Option<bytes> {
    match t.parse(host)
    case Some(ip) =>
      (match To4(ip)
       case Some(v4) => Some([1] + v4)
       case None => Some([4] + To16(ip)))
    case None =>
      if |host| < 1 || |host| > 255 || HasControl(host) then None else Some([3, |host|] + host)
  }

  /** uint16(port), big endian */
  function PortBytes(port: int): (b: bytes)
    ensures |b| == 2
  {
    [(port % 65536) / 256, port % 256]
  }

  function PortFrom(b: bytes): int
    requires |b| == 2
  {
    var high: int, low: int := b[0], b[1];
    256 * high + low
  }

  function EncodeFrame(t: IpText, target: Endpoint, payload: bytes): Option<bytes> {
    match EncodeAddress(t, target.host)
    case None => None
    case Some(address) => Some([0, 0, 0] + address + PortBytes(target.port) + payload)
  }

  // ---------- parsing ----------

  datatype FrameError = InvalidFrame | Fragmented | TruncatedIPv4 | TruncatedIPv6 | TruncatedDomain | UnsupportedType | InvalidPort

  datatype Parsed = Parsed(source: Endpoint, payload: bytes)

  /** The port and payload that follow an address ending at offset. */
  function ParseRest(frame: bytes, host: bytes, offset: nat): Result<Parsed, FrameError>
    requires offset + 2 <= |frame|
  {
    var port := PortFrom(frame[offset..offset + 2]);
    if port < 1 then Err(InvalidPort) else Ok(Parsed(Endpoint(host, port), frame[offset + 2..]))
  }

  function ParseFrame(t: IpText, frame: bytes): Result<Parsed, FrameError> {
    if |frame| < 4 || frame[0] != 0 || frame[1] != 0 then Err(InvalidFrame)
    else if frame[2] != 0 then Err(Fragmented)
    else if frame[3] == 1 then
      if |frame| < 4 + 4 + 2 then Err(TruncatedIPv4) else ParseRest(frame, t.format(frame[4..8]), 8)
    else if frame[3] == 4 then
      if |frame| < 4 + 16 + 2 then Err(TruncatedIPv6) else ParseRest(frame, t.format(frame[4..20]), 20)
    else if frame[3] == 3 then
      if |frame| < 4 + 1 then Err(TruncatedDomain)
      else
        var length: nat := frame[4];
        if length < 1 || |frame| < 5 + length + 2 then Err(TruncatedDomain)
        else ParseRest(frame, frame[5..5 + length], 5 + length)
    else Err(UnsupportedType)
  }

  // ---------- the wire format, as a reference ----------

  /** An address on the wire. */
  datatype Address = V4(ip: bytes) | V6(ip: bytes) | Name(host: bytes)

  predicate ValidAddress(a: Address) {
    match a
    case V4(ip) => |ip| == 4
    case V6(ip) => |ip| == 16
    case Name(host) => 1 <= |host| <= 255
  }

  function WireAddress(a: Address): bytes
    requires ValidAddress(a)
  {
    match a
    case V4(ip) => [1] + ip
    case V6(ip) => [4] + ip
    case Name(host) => [3, |host|] + host
  }

  function HostOf(t: IpText, a: Address): bytes {
    match a
    case V4(ip) => t.format(ip)
    case V6(ip) => t.format(ip)
    case Name(host) => host
  }

  function WireFrame(a: Address, port: int, payload: bytes): bytes
    requires ValidAddress(a)
  {
    [0, 0, 0] + WireAddress(a) + PortBytes(port) + payload
  }

  /** Whether the frame is one the bridge itself would have written. */
  predicate CanonicalAddress(t: IpText, a: Address) {
    match a
    case V4(_) => true
    case V6(ip) => To4(ip).None?
    case Name(host) => t.parse(host).None? && !HasControl(host)
  }

  lemma PortRoundTrip(port: int)
    requires 0 <= port < 65536
    ensures PortFrom(PortBytes(port)) == port
  {
  }

  lemma PortDetermined(b: bytes)
    requires |b| == 2
    ensures PortBytes(PortFrom(b)) == b && 0 <= PortFrom(b) < 65536
  {
    var high: int, low: int := b[0], b[1];
    assert (256 * high + low) / 256 == high && (256 * high + low) % 256 == low;
    assert (256 * high + low) % 65536 == 256 * high + low;
  }

  /** Every frame of the wire format with a nonzero port is parsed as itself. */
  lemma ParseWire(t: IpText, a: Address, port: int, payload: bytes)
    requires ValidAddress(a) && 1 <= port <= 65535
    ensures ParseFrame(t, WireFrame(a, port, payload)) == Ok(Parsed(Endpoint(HostOf(t, a), port), payload))
  {
    var frame, w := WireFrame(a, port, payload), WireAddress(a);
    PortRoundTrip(port);
    var offset := 3 + |w|;
    assert frame[3..offset] == w;
    assert frame[offset..offset + 2] == PortBytes(port) && frame[offset + 2..] == payload;
    match a
    case V4(ip) => assert frame[4..8] == w[1..] == ip;
    case V6(ip) => assert frame[4..20] == w[1..] == ip;
    case Name(host) => assert frame[4] == w[1] && frame[5..5 + |host|] == w[2..] == host;
  }

  /** The address of a frame that parses. */
  function AddressOf(t: IpText, frame: bytes): (a: Address)
    requires ParseFrame(t, frame).Ok?
    ensures ValidAddress(a)
  {
    if frame[3] == 1 then V4(frame[4..8])
    else if frame[3] == 4 then V6(frame[4..20])
    else Name(frame[5..5 + frame[4]])
  }

  /** Only frames of the wire format are parsed. */
  lemma ParsedIsWire(t: IpText, frame: bytes)
    requires ParseFrame(t, frame).Ok?
    ensures var p := ParseFrame(t, frame).value; var a := AddressOf(t, frame);
            frame == WireFrame(a, p.source.port, p.payload)
            && p.source.host == HostOf(t, a) && 1 <= p.source.port <= 65535
  {
    var a := AddressOf(t, frame);
    var offset := 3 + |WireAddress(a)|;
    PortDetermined(frame[offset..offset + 2]);
    assert frame[..3] == [0, 0, 0];
    assert frame[3..offset] == WireAddress(a);
    FourParts(frame, 3, offset);
  }

  lemma FourParts(s: bytes, i: nat, j: nat)
    requires i <= j && j + 2 <= |s|
    ensures s == s[..i] + s[i..j] + s[j..j + 2] + s[j + 2..]
  {
  }

  /** The address the bridge writes for a host. */
  lemma EncodedIsWire(t: IpText, host: bytes)
    requires Lawful(t) && EncodeAddress(t, host).Some?
    ensures exists a :: ValidAddress(a) && EncodeAddress(t, host) == Some(WireAddress(a))
                        && HostOf(t, a) == Normal(t, host) && CanonicalAddress(t, a)
  {
    match t.parse(host)
    case None =>
      assert ValidAddress(Name(host)) && CanonicalAddress(t, Name(host));
    case Some(ip) =>
      if To4(ip).Some? {
        assert ip == To16(ip[12..]);
        assert ValidAddress(V4(ip[12..]));
      } else {
        assert ValidAddress(V6(ip));
      }
  }

  /** Parsing undoes encoding, up to the spelling of an IP literal. */
  lemma ParseAfterEncode(t: IpText, target: Endpoint, payload: bytes)
    requires Lawful(t) && 1 <= target.port <= 65535 && EncodeFrame(t, target, payload).Some?
    ensures ParseFrame(t, EncodeFrame(t, target, payload).value)
            == Ok(Parsed(Endpoint(Normal(t, target.host), target.port), payload))
  {
    EncodedIsWire(t, target.host);
    var a :| ValidAddress(a) && EncodeAddress(t, target.host) == Some(WireAddress(a)) && HostOf(t, a) == Normal(t, target.host);
    ParseWire(t, a, target.port, payload);
  }

  /** Encoding undoes parsing exactly on the frames whose address is canonical: not an
      IPv4-mapped IPv6 address, nor a name that is an IP literal or has control characters. */
  lemma EncodeAfterParse(t: IpText, frame: bytes)
    requires Lawful(t) && ParseFrame(t, frame).Ok?
    ensures var p := ParseFrame(t, frame).value;
            EncodeFrame(t, p.source, p.payload) == Some(frame) <==> CanonicalAddress(t, AddressOf(t, frame))
  {
    var p, a := ParseFrame(t, frame).value, AddressOf(t, frame);
    ParsedIsWire(t, frame);
    match a
    case V4(ip) =>
      assert To16(ip)[..12] == MAPPED_PREFIX && To16(ip)[12..] == ip;
    case V6(ip) =>
      if EncodeFrame(t, p.source, p.payload) == Some(frame) {
        assert frame[3] == WireAddress(a)[0] == EncodeAddress(t, p.source.host).value[0];
      }
    case Name(host) =>
      if EncodeFrame(t, p.source, p.payload) == Some(frame) {
        assert frame[3] == WireAddress(a)[0] == EncodeAddress(t, p.source.host).value[0];
      }
  }

  /** Normalising changes nothing twice, so parse after encode is the identity exactly on
      endpoints already normal. */
  lemma NormalIdempotent(t: IpText, host: bytes)
    requires Lawful(t)
    ensures Normal(t, Normal(t, host)) == Normal(t, host)
    ensures EncodeAddress(t, Normal(t, host)) == EncodeAddress(t, host)
  {
  }

  // ---------- who may answer ----------

  /** acceptableResponseTarget */
  predicate AcceptableResponse(t: IpText, requested: Endpoint, response: Endpoint) {
    requested.port == response.port
    && match t.parse(requested.host)
       case None => true
       case Some(ip) => t.parse(response.host).Some? && To16(ip) == To16(t.parse(response.host).value)
  }
}
