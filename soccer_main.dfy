/** The local SOCKS5 side of the tunnel (`soccer/src/main.rs`): the request header it sends to
    the remote side, the parts of the SOCKS5 request it reads (RFC 1928), and its fixed replies.
    The client socket is modelled as the bytes the client sends, read through a cursor; any
    short read ends in `unwrap` and is modelled as `Err(Panic)`. */
module Soccer {
  import opened Bytes
  import opened Wrappers
  import opened Cursors
  import opened SoccerDestination

  /* ---------------------------------------------------------------- request header */

  /** The tunnel header for a destination: port, two reserved zero bytes, the address length
      truncated to 16 bits, all big-endian, then the address bytes in order. */
  function RequestHeaderBytes(dst: Destination): (r: seq<uint8>)
    ensures |r| == 6 + |dst.address|
    ensures U16Of(r[0], r[1]) == dst.port
    ensures r[2] == 0 && r[3] == 0
    ensures U16Of(r[4], r[5]) as int == |dst.address| % 0x1_0000
    ensures r[6..] == dst.address
  {
    var port := U16Bytes(dst.Port());
    var len := U16Bytes((|dst.Address()| % 0x1_0000) as uint16);
    [port[0], port[1], 0, 0, len[0], len[1]] + dst.Address()
  }

  /** `encode_request_header`: three big-endian 16-bit fields, then one byte pushed per address
      byte. */
  method EncodeRequestHeader(remoteDst: Destination) returns (buf: seq<uint8>)
    ensures buf == RequestHeaderBytes(remoteDst)
  {
    buf := [];
    buf := buf + U16Bytes(remoteDst.Port());
    buf := buf + U16Bytes(0);
    buf := buf + U16Bytes((|remoteDst.Address()| % 0x1_0000) as uint16);
    ghost var fixed := buf;
    var address := remoteDst.Address();
    for i := 0 to |address|
      invariant buf == fixed + address[..i]
    {
      buf := buf + [address[i]];
      assert address[..i + 1] == address[..i] + [address[i]];
    }
    assert address[..|address|] == address;
    assert U16Bytes(0) == [0, 0];
  }

  /* ---------------------------------------------------------------- SOCKS5 request */

  /** The port from its two bytes, in the 16-bit arithmetic of `recv_request`; it never overflows. */
  function PortOf(hi: uint8, lo: uint8): (p: uint16)
    ensures p == U16Of(hi, lo)
  {
    (hi as uint16) * 256 + (lo as uint16)
  }

  /** A failed read on the client socket is unwrapped. */
  function Unwrapped<T>(r: Result<T>): (u: Result<T>)
    ensures u.Ok? <==> r.Ok?
    ensures u.Ok? ==> u.value == r.value
    ensures u.Err? ==> u.error == Panic
  {
    if r.Ok? then r else Err(Panic)
  }

  /** The destination `recv_request` returns for the client's bytes from `pos` on, and the
      position after the bytes it reads: VER, CMD, RSV, ATYP; for ATYP 3 (a domain name) a length
      byte, that many address bytes and a big-endian port; every other address type gives the
      default destination without reading further. */
  function RequestAt(data: seq<uint8>, pos: nat): (r: Result<Read<Destination>>)
    ensures pos + 4 > |data| ==> r == Err(Panic)
    ensures pos + 4 <= |data| && data[pos + 3] != 3 ==> r == Ok(Read(Default(), pos + 4))
    ensures pos + 4 <= |data| && data[pos + 3] == 3 ==>
      && (r.Ok? <==> pos + 5 <= |data| && pos + 7 + data[pos + 4] as int <= |data|)
      && (r.Err? ==> r.error == Panic)
      && (r.Ok? ==>
            var n := data[pos + 4] as int;
            && r.value.value == New(data[pos + 5..pos + 5 + n], U16Of(data[pos + 5 + n], data[pos + 6 + n]))
            && r.value.next == pos + 7 + n)
    ensures r.Ok? ==> |r.value.value.address| <= 255
  {
    var head :- Unwrapped(BytesAt(data, pos, 4));
    if head.value[3] != 3 then Ok(Read(Default(), head.next))
    else
      var len :- Unwrapped(U8At(data, head.next));
      var address :- Unwrapped(BytesAt(data, len.next, len.value as int));
      var port :- Unwrapped(BytesAt(data, address.next, 2));
      Ok(Read(New(address.value, PortOf(port.value[0], port.value[1])), port.next))
  }

  /** `recv_request`: the four fixed bytes, then for a domain name its length, the name and the
      port, each read exactly; the socket is left just after the bytes read. */
  method RecvRequest(socket: Cursor) returns (r: Result<Destination>)
    modifies socket
    ensures r == Value(RequestAt(socket.data, old(socket.pos)))
    ensures r.Ok? ==> socket.pos == RequestAt(socket.data, old(socket.pos)).value.next
  {
    var buf := socket.ReadExact(4);
    if buf.Err? {
      return Err(Panic);
    }
    var addressType := buf.value[3];
    if addressType == 3 {
      var lenBuf := socket.ReadU8();
      if lenBuf.Err? {
        return Err(Panic);
      }
      var addressBuf := socket.ReadExact(lenBuf.value as nat);
      if addressBuf.Err? {
        return Err(Panic);
      }
      var portBuf := socket.ReadExact(2);
      if portBuf.Err? {
        return Err(Panic);
      }
      var port := PortOf(portBuf.value[0], portBuf.value[1]);
      r := Ok(New(addressBuf.value, port));
    } else {
      r := Ok(Default());
    }
  }

  /* ---------------------------------------------------------------- replies */

  /** The method-selection reply: version 5, method 0 (no authentication required). */
  const MethodSelectionReply: seq<uint8> := [5, 0x00]

  /** The reply to CONNECT: version 5, REP 0 (succeeded), RSV 0, ATYP 1 (IPv4), BND.ADDR 1.1.1.1
      and BND.PORT 80, whatever the destination. */
  const ConnectReply: seq<uint8> := [5, 0, 0, 1, 1, 1, 1, 1, 0, 80]

  /** The method-selection reply's fields, as section 3 of RFC 1928 lays them out. */
  lemma MethodSelectionReplyLayout()
    ensures |MethodSelectionReply| == 2 && MethodSelectionReply[0] == 5 && MethodSelectionReply[1] == 0
  {
  }

  /** The CONNECT reply's fields, as section 6 of RFC 1928 lays them out. */
  lemma ConnectReplyLayout()
    ensures |ConnectReply| == 10 && ConnectReply[0] == 5 && ConnectReply[1] == 0 && ConnectReply[2] == 0
    ensures ConnectReply[3] == 1 && ConnectReply[4..8] == [1, 1, 1, 1]
    ensures U16Of(ConnectReply[8], ConnectReply[9]) == 80
  {
  }

  /** A domain-name request for "a" on port 443 (bytes 01 BB) takes all eight bytes. */
  lemma RequestExample()
    ensures RequestAt([5, 1, 0, 3, 1, 97, 1, 187], 0) == Ok(Read(New([97], 443), 8))
  {
    var data: seq<uint8> := [5, 1, 0, 3, 1, 97, 1, 187];
    assert data[5..6] == [97];
    assert U16Of(data[6], data[7]) == 443;
  }

  /** An IPv4 request (ATYP 1) gives the default destination, and only its first four bytes are
      read: the address and port stay on the socket. */
  lemma IPv4RequestIsDefault()
    ensures RequestAt([5, 1, 0, 1, 127, 0, 0, 1, 0, 80], 0) == Ok(Read(Default(), 4))
  {
  }
}
