/** `std::io::Cursor<&[u8]>`: a byte slice with a read position that reads advance and
    `set_position` may place anywhere, also past the end. */
module Cursors {
  import opened Bytes
  import opened Wrappers

  /** A value read at some position, and the position just after it. */
  datatype Read<T> = Read(value: T, next: nat)

  /** Forgets the position of a successful read. */
  function Value<T>(r: Result<Read<T>>): Result<T> {
    match r
    case Ok(rd) => Ok(rd.value)
    case Err(e) => Err(e)
  }

  /** `read_exact` of `n` bytes at `pos`: it fails when fewer than `n` bytes remain. Reading
      nothing succeeds wherever the position is, also past the end. */
  function BytesAt(data: seq<uint8>, pos: nat, n: nat): Result<Read<seq<uint8>>> {
    if n == 0 then Ok(Read([], pos))
    else if pos + n <= |data| then Ok(Read(data[pos..pos + n], pos + n))
    else Err(UnexpectedEof)
  }

  function U8At(data: seq<uint8>, pos: nat): Result<Read<uint8>> {
    if pos + 1 <= |data| then Ok(Read(data[pos], pos + 1)) else Err(UnexpectedEof)
  }

  function U16At(data: seq<uint8>, pos: nat): Result<Read<uint16>> {
    if pos + 2 <= |data| then Ok(Read(U16Of(data[pos], data[pos + 1]), pos + 2)) else Err(UnexpectedEof)
  }

  function U32At(data: seq<uint8>, pos: nat): Result<Read<uint32>> {
    if pos + 4 <= |data|
    then Ok(Read(U32Of(data[pos], data[pos + 1], data[pos + 2], data[pos + 3]), pos + 4))
    else Err(UnexpectedEof)
  }

  /** The index of the first zero byte at or after `pos`, or `|data|` when there is none. */
  function ZeroFrom(data: seq<uint8>, pos: nat): (z: nat)
    requires pos <= |data|
    ensures pos <= z <= |data|
    ensures forall i :: pos <= i < z ==> data[i] != 0
    ensures z < |data| ==> data[z] == 0
    decreases |data| - pos
  {
    if pos == |data| || data[pos] == 0 then pos else ZeroFrom(data, pos + 1)
  }

  /** `read_until(0, ..)`: the bytes from `pos` up to and including the first zero byte, or all
      the remaining bytes when no zero follows; nothing when `pos` is at or past the end.
      It never fails. */
  function UntilZero(data: seq<uint8>, pos: nat): (r: Read<seq<uint8>>)
    ensures pos >= |data| ==> r == Read([], pos)
    ensures pos < |data| ==>
      && pos < r.next <= |data|
      && r.value == data[pos..r.next]
      && (forall i :: 0 <= i < |r.value| - 1 ==> r.value[i] != 0)
      && (r.value[|r.value| - 1] == 0 || (r.next == |data| && 0 !in r.value))
  {
    if pos >= |data| then Read([], pos)
    else
      var z := ZeroFrom(data, pos);
      if z < |data| then Read(data[pos..z + 1], z + 1) else Read(data[pos..], |data|)
  }

  /** The bytes read by `read_until` stop at the first zero: a zero-free run followed by a
      zero is read exactly, whatever comes after it. */
  lemma UntilZeroStops(data: seq<uint8>, pos: nat, run: seq<uint8>)
    requires pos + |run| < |data|
    requires data[pos..pos + |run|] == run && 0 !in run && data[pos + |run|] == 0
    ensures UntilZero(data, pos) == Read(run + [0], pos + |run| + 1)
  {
    assert forall i :: pos <= i < pos + |run| ==> data[i] == run[i - pos];
    var z := ZeroFrom(data, pos);
    assert z == pos + |run|;
    assert data[pos..z + 1] == run + [0];
  }

  class Cursor {
    const data: seq<uint8>
    var pos: nat

    /** `Cursor::new`: the position starts at 0. */
    constructor (data: seq<uint8>)
      ensures this.data == data && pos == 0
    {
      this.data := data;
      pos := 0;
    }

    /** `set_position`. */
    method SetPosition(p: nat)
      modifies this
      ensures pos == p
    {
      pos := p;
    }

    /* After a failed read the position is not specified: Rust's standard library has left it
       unchanged in some versions and moved it to the end in others, and no caller here looks
       at a cursor whose read failed. */

    /** `read_u8`. */
    method ReadU8() returns (r: Result<uint8>)
      modifies this
      ensures r == Value(U8At(data, old(pos)))
      ensures r.Ok? ==> pos == old(pos) + 1
    {
      var s := U8At(data, pos);
      if s.Ok? { pos := s.value.next; }
      r := Value(s);
    }

    /** `read_u16::<BE>`. */
    method ReadU16() returns (r: Result<uint16>)
      modifies this
      ensures r == Value(U16At(data, old(pos)))
      ensures r.Ok? ==> pos == old(pos) + 2
    {
      var s := U16At(data, pos);
      if s.Ok? { pos := s.value.next; }
      r := Value(s);
    }

    /** `read_u32::<BE>`. */
    method ReadU32() returns (r: Result<uint32>)
      modifies this
      ensures r == Value(U32At(data, old(pos)))
      ensures r.Ok? ==> pos == old(pos) + 4
    {
      var s := U32At(data, pos);
      if s.Ok? { pos := s.value.next; }
      r := Value(s);
    }

    /** `read_exact` into a buffer of `n` bytes. */
    method ReadExact(n: nat) returns (r: Result<seq<uint8>>)
      modifies this
      ensures r == Value(BytesAt(data, old(pos), n))
      ensures r.Ok? ==> pos == old(pos) + n
    {
      var s := BytesAt(data, pos, n);
      if s.Ok? { pos := s.value.next; }
      r := Value(s);
    }

    /** `read_until(0, &mut v)` with `v` empty: the bytes appended to `v`. */
    method ReadUntilZero() returns (r: seq<uint8>)
      modifies this
      ensures Read(r, pos) == UntilZero(data, old(pos))
    {
      var s := UntilZero(data, pos);
      pos := s.next;
      r := s.value;
    }
  }
}
