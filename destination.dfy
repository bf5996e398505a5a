/** The CONNECT target the local SOCKS5 side received (`soccer/src/destination.rs`): the
    address bytes as sent by the client and the port. Strings are their UTF-8 bytes. */
module SoccerDestination {
  import opened Bytes
  import Utf8

  const Colon: uint8 := 58

  datatype Destination = Destination(address: seq<uint8>, port: uint16) {

    /** `domain`: the address decoded lossily as UTF-8; it is empty exactly when the address
        is, and at most three times as long. */
    function Domain(): (d: seq<uint8>)
      ensures |address| <= |d| <= 3 * |address|
    {
      Utf8.Lossy(address)
    }

    /** `port`. */
    function Port(): (p: uint16)
      ensures p == port
    {
      port
    }

    /** The stored address bytes, unchanged (the `address()` accessor the tunnel encoder uses). */
    function Address(): (a: seq<uint8>)
      ensures a == address
    {
      address
    }

    /** `to_str`: the domain, a colon, and the port in decimal. */
    function ToStr(): (s: seq<uint8>)
      ensures |s| > |Domain()| && s[..|Domain()|] == Domain() && s[|Domain()|] == Colon
      ensures AllDigits(s[|Domain()| + 1..]) && DigitsValue(s[|Domain()| + 1..]) == port as nat
    {
      var digits := Decimal(port as nat);
      assert (Domain() + [Colon] + digits)[|Domain()| + 1..] == digits;
      Domain() + [Colon] + digits
    }
  }

  /** `Destination::new`. */
  function New(address: seq<uint8>, port: uint16): (d: Destination)
    ensures d.Address() == address && d.Port() == port
  {
    Destination(address, port)
  }

  /** `Destination::default`: no address and port 0. */
  function Default(): (d: Destination)
    ensures d.Address() == [] && d.Port() == 0 && d.Domain() == []
  {
    Destination([], 0)
  }

  /* ---------------------------------------------------------------- decimal */

  predicate IsDigit(b: uint8) { 48 <= b <= 57 }

  predicate AllDigits(s: seq<uint8>) { forall i :: 0 <= i < |s| ==> IsDigit(s[i]) }

  /** The number a string of decimal digits denotes. */
  function DigitsValue(s: seq<uint8>): nat
    requires AllDigits(s)
  {
    if s == [] then 0 else DigitsValue(s[..|s| - 1]) * 10 + (s[|s| - 1] - 48) as nat
  }

  /** The decimal form `{}` gives an integer: at least one digit, no leading zero, and the
      digits denote the number. */
  function Decimal(n: nat): (r: seq<uint8>)
    ensures 1 <= |r| && AllDigits(r)
    ensures |r| > 1 ==> r[0] != 48
    ensures DigitsValue(r) == n
  {
    if n < 10 then [(48 + n) as uint8]
    else
      var front := Decimal(n / 10);
      assert (front + [(48 + n % 10) as uint8])[..|front|] == front;
      front + [(48 + n % 10) as uint8]
  }

  /* ---------------------------------------------------------------- reading back */

  /** The bytes after the last colon (all of them when there is none). */
  function AfterLastColon(s: seq<uint8>): (r: seq<uint8>)
    ensures Colon !in r && |r| <= |s| && r == s[|s| - |r|..]
  {
    if s == [] || s[|s| - 1] == Colon then []
    else AfterLastColon(s[..|s| - 1]) + [s[|s| - 1]]
  }

  lemma {:induction false} AfterLastColonOf(x: seq<uint8>, y: seq<uint8>)
    requires Colon !in y
    ensures AfterLastColon(x + [Colon] + y) == y
  {
    if y != [] {
      var front := y[..|y| - 1];
      assert x + [Colon] + y == (x + [Colon] + front) + [y[|y| - 1]];
      assert (x + [Colon] + y)[..|x + [Colon] + y| - 1] == x + [Colon] + front;
      AfterLastColonOf(x, front);
      assert front + [y[|y| - 1]] == y;
    } else {
      assert x + [Colon] + y == x + [Colon];
    }
  }

  /** A colon followed by colon-free bytes splits there and nowhere else. */
  lemma SplitAtLastColon(x: seq<uint8>, y: seq<uint8>)
    requires Colon !in y
    ensures var s := x + [Colon] + y;
      && AfterLastColon(s) == y && s[..|s| - |y| - 1] == x && s[|s| - |y| - 1] == Colon
  {
    AfterLastColonOf(x, y);
    var s := x + [Colon] + y;
    assert s[..|x|] == x;
  }

  /** `to_str` can be read back, even when the domain itself holds colons: the port is the decimal
      number after the last colon, and the domain is everything before that colon. */
  lemma ToStrParts(d: Destination)
    ensures var s := d.ToStr(); var p := AfterLastColon(s);
      && p == Decimal(d.port as nat)
      && AllDigits(p) && DigitsValue(p) == d.port as nat
      && s[..|s| - |p| - 1] == d.Domain()
      && s[|s| - |p| - 1] == Colon
  {
    var digits := Decimal(d.port as nat);
    assert Colon !in digits;
    SplitAtLastColon(d.Domain(), digits);
  }

  /** An address of ASCII bytes is its own domain. */
  lemma DomainOfAscii(d: Destination)
    requires AllAscii(d.address)
    ensures d.Domain() == d.address
  {
    Utf8.LossyAscii(d.address);
  }

  /** The port 8080 example: a destination "a" on port 8080 reads "a:8080". */
  lemma ToStrExample()
    ensures Destination([97], 8080).ToStr() == [97, Colon, 56, 48, 56, 48]
  {
    Utf8.LossyAscii([97]);
    assert Decimal(8080) == Decimal(808) + [48];
    assert Decimal(808) == Decimal(80) + [56];
    assert Decimal(80) == Decimal(8) + [48];
  }
}
