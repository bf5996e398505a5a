/** `String::from_utf8_lossy` on byte sequences: Rust strings are modelled by their UTF-8
    bytes, so the decoding maps bytes to bytes. Well-formed sequences are kept; each maximal
    ill-formed part (a bad lead byte, or a lead byte with the continuation bytes that still
    fitted) becomes one U+FFFD REPLACEMENT CHARACTER, as Rust's `Utf8Chunks` does. */
module Utf8 {
  import opened Bytes

  /** U+FFFD encoded in UTF-8. */
  const Replacement: seq<uint8> := [0xEF, 0xBF, 0xBD]

  /** Length of the sequence a lead byte announces, 0 for a byte that cannot start one. */
  function Width(b: uint8): (w: nat)
    ensures w <= 4
  {
    if b < 0x80 then 1
    else if 0xC2 <= b <= 0xDF then 2
    else if 0xE0 <= b <= 0xEF then 3
    else if 0xF0 <= b <= 0xF4 then 4
    else 0
  }

  /** Whether `b` may stand as the `k`-th byte (k >= 1) after lead byte `lead`. */
  predicate Continues(lead: uint8, k: nat, b: uint8) {
    if k == 1 && lead == 0xE0 then 0xA0 <= b <= 0xBF
    else if k == 1 && lead == 0xED then 0x80 <= b <= 0x9F
    else if k == 1 && lead == 0xF0 then 0x90 <= b <= 0xBF
    else if k == 1 && lead == 0xF4 then 0x80 <= b <= 0x8F
    else 0x80 <= b <= 0xBF
  }

  /** How many bytes of `s`, from the lead byte on and at most `w`, fit a sequence of width `w`,
      given that the first `k` already do. */
  function Fitting(s: seq<uint8>, w: nat, k: nat): (n: nat)
    requires 1 <= k <= w <= 4 && k <= |s|
    ensures k <= n <= w && n <= |s|
    decreases w - k
  {
    if k == w || k == |s| || !Continues(s[0], k, s[k]) then k
    else Fitting(s, w, k + 1)
  }

  /** The lossy decoding: every byte becomes between one and three bytes, since kept sequences
      are copied and each replaced part, one to three bytes long, becomes the three bytes of
      U+FFFD. In particular only the empty sequence decodes to nothing. */
  function Lossy(s: seq<uint8>): (r: seq<uint8>)
    ensures |s| <= |r| <= 3 * |s|
    decreases |s|
  {
    if s == [] then []
    else
      var w := Width(s[0]);
      if w == 0 then Replacement + Lossy(s[1..])
      else
        var n := Fitting(s, w, 1);
        if n == w then s[..w] + Lossy(s[w..])
        else Replacement + Lossy(s[n..])
  }

  /** On ASCII bytes the lossy decoding changes nothing. */
  lemma {:induction false} LossyAscii(s: seq<uint8>)
    requires AllAscii(s)
    ensures Lossy(s) == s
  {
    if s != [] {
      assert Width(s[0]) == 1 && Fitting(s, 1, 1) == 1;
      LossyAscii(s[1..]);
      assert s == s[..1] + s[1..];
    }
  }

  /** An ASCII prefix passes through unchanged, whatever follows it. */
  lemma {:induction false} LossyAsciiPrefix(a: seq<uint8>, b: seq<uint8>)
    requires AllAscii(a)
    ensures Lossy(a + b) == a + Lossy(b)
  {
    if a != [] {
      var s := a + b;
      assert Width(s[0]) == 1 && Fitting(s, 1, 1) == 1;
      assert s[1..] == a[1..] + b;
      LossyAsciiPrefix(a[1..], b);
      calc {
        Lossy(s);
        s[..1] + Lossy(s[1..]);
        [a[0]] + (a[1..] + Lossy(b));
        { assert a == [a[0]] + a[1..]; }
        a + Lossy(b);
      }
    } else {
      assert a + b == b;
    }
  }

  /** A byte that cannot start a sequence becomes one replacement character, whatever follows
      it, and decoding goes on with the next byte. */
  lemma LossyBadLead(b: uint8, s: seq<uint8>)
    requires 0x80 <= b <= 0xC1 || 0xF5 <= b
    ensures Lossy([b] + s) == Replacement + Lossy(s)
    ensures Lossy([b]) == Replacement
  {
    assert ([b] + s)[1..] == s;
    assert [b][1..] == [];
  }
}
