/** The remote side of the tunnel (`goal/src/main.rs`): it reads the request header the local side
    sends and decodes the destination from it. */
module Goal {
  import opened Bytes
  import opened Wrappers
  import opened Cursors
  import Utf8
  import SoccerDestination
  import Soccer

  /** What `decode_request_header` returns: the domain, decoded lossily, and the port. */
  datatype Target = Target(domain: seq<uint8>, port: uint16)

  /** The header read from `h`: port, reserved and length, each big-endian, then `len` bytes of
      domain; anything after them is ignored. It fails exactly when `h` is shorter than six
      bytes or than six plus the length. */
  function RequestHeaderOf(h: seq<uint8>): (r: Result<Target>)
    ensures r.Ok? <==> 6 <= |h| && 6 + U16Of(h[4], h[5]) as int <= |h|
    ensures r.Err? ==> r.error == UnexpectedEof
    ensures r.Ok? ==> r.value == Target(Utf8.Lossy(h[6..6 + U16Of(h[4], h[5]) as int]), U16Of(h[0], h[1]))
  {
    var port :- U16At(h, 0);
    var reserved :- U16At(h, port.next);
    var len :- U16At(h, reserved.next);
    var buf :- BytesAt(h, len.next, len.value as int);
    Ok(Target(Utf8.Lossy(buf.value), port.value))
  }

  /** `decode_request_header`: the three 16-bit reads, a buffer of `len` bytes filled by
      `read_exact`, and the lossy decoding of it. */
  method DecodeRequestHeader(requestHeader: seq<uint8>) returns (r: Result<Target>)
    ensures r == RequestHeaderOf(requestHeader)
  {
    var rdr := new Cursor(requestHeader);
    var port :- rdr.ReadU16();
    var reserved :- rdr.ReadU16();
    var len :- rdr.ReadU16();
    var buf :- rdr.ReadExact(len as nat);
    r := Ok(Target(Utf8.Lossy(buf), port));
  }

  /** Bytes after a complete header are never looked at. */
  lemma IgnoresTrailing(h: seq<uint8>, t: seq<uint8>)
    requires RequestHeaderOf(h).Ok?
    ensures RequestHeaderOf(h + t) == RequestHeaderOf(h)
  {
    var n := U16Of(h[4], h[5]) as int;
    assert (h + t)[6..6 + n] == h[6..6 + n];
  }

  /** Decoding what the local side encodes gives the port and the domain of the address cut to
      its length modulo 65536, the length the header can carry. */
  lemma EncodeThenDecode(dst: SoccerDestination.Destination)
    ensures RequestHeaderOf(Soccer.RequestHeaderBytes(dst))
      == Ok(Target(Utf8.Lossy(dst.address[..|dst.address| % 0x1_0000]), dst.port))
  {
    var h := Soccer.RequestHeaderBytes(dst);
    var n := |dst.address| % 0x1_0000;
    assert h[6..6 + n] == h[6..][..n];
  }

  /** For an address shorter than 65536 bytes the round trip gives `(domain(dst), port(dst))`. */
  lemma RoundTrip(dst: SoccerDestination.Destination)
    requires |dst.address| < 0x1_0000
    ensures RequestHeaderOf(Soccer.RequestHeaderBytes(dst)) == Ok(Target(dst.Domain(), dst.Port()))
  {
    EncodeThenDecode(dst);
    var n := |dst.address| % 0x1_0000;
    assert n == |dst.address|;
    calc {
      RequestHeaderOf(Soccer.RequestHeaderBytes(dst));
      Ok(Target(Utf8.Lossy(dst.address[..n]), dst.port));
      { assert dst.address[..n] == dst.address; }
      Ok(Target(dst.Domain(), dst.Port()));
    }
  }

  /** Every destination the local side takes from a SOCKS5 request reaches the remote side
      intact, since a request carries at most 255 address bytes. */
  lemma TunnelCarriesRequest(data: seq<uint8>, pos: nat)
    requires Soccer.RequestAt(data, pos).Ok?
    ensures var dst := Soccer.RequestAt(data, pos).value.value;
      RequestHeaderOf(Soccer.RequestHeaderBytes(dst)) == Ok(Target(dst.Domain(), dst.Port()))
  {
    RoundTrip(Soccer.RequestAt(data, pos).value.value);
  }

  /** The header `00 50 00 00 00 01 61 ..` names "a" on port 80, whatever follows it. */
  lemma DecodeExample()
    ensures RequestHeaderOf([0, 80, 0, 0, 0, 1, 97, 0xFF]) == Ok(Target([97], 80))
  {
    assert [0, 80, 0, 0, 0, 1, 97, 0xFF][6..7] == [97];
    Utf8.LossyAscii([97]);
  }
}
