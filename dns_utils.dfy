/** The label-run name encoding of section 3.1 of RFC 1035 (`dns/src/utils.rs`). */
module DnsUtils {
  import opened Bytes
  import opened Wrappers
  import opened Utf8

  const Dot: uint8 := 0x2E

  /** `str::split`: the pieces between separators, in order; an empty input gives one empty
      piece, and every separator starts a new piece. */
  function Split(s: seq<uint8>, sep: uint8): (r: seq<seq<uint8>>)
    ensures |r| >= 1
    ensures forall i :: 0 <= i < |r| ==> sep !in r[i]
    decreases |s|
  {
    if s == [] then [[]]
    else
      var rest := Split(s[1..], sep);
      if s[0] == sep then [[]] + rest
      else [[s[0]] + rest[0]] + rest[1..]
  }

  /** `join`: the pieces in order with one separator between neighbours. */
  function Join(ls: seq<seq<uint8>>, sep: uint8): seq<uint8>
    decreases |ls|
  {
    if ls == [] then []
    else if |ls| == 1 then ls[0]
    else ls[0] + [sep] + Join(ls[1..], sep)
  }

  /** Joining the pieces of a split gives back the input. */
  lemma {:induction false} JoinSplit(s: seq<uint8>, sep: uint8)
    ensures Join(Split(s, sep), sep) == s
  {
    if s != [] {
      var rest := Split(s[1..], sep);
      JoinSplit(s[1..], sep);
      if s[0] == sep {
        assert ([[]] + rest)[1..] == rest;
      } else {
        var r := [[s[0]] + rest[0]] + rest[1..];
        if |rest| > 1 {
          assert r[1..] == rest[1..];
          assert Join(r, sep) == [s[0]] + (rest[0] + [sep] + Join(rest[1..], sep));
        }
        assert s == [s[0]] + s[1..];
      }
    }
  }

  /** A piece without separators splits into itself. */
  lemma {:induction false} SplitWhole(a: seq<uint8>, sep: uint8)
    requires sep !in a
    ensures Split(a, sep) == [a]
    decreases |a|
  {
    if a != [] {
      SplitWhole(a[1..], sep);
      assert [a[0]] + a[1..] == a;
    }
  }

  /** A piece without separators, then a separator: the piece comes off the front. */
  lemma {:induction false} SplitFirst(a: seq<uint8>, b: seq<uint8>, sep: uint8)
    requires sep !in a
    ensures Split(a + [sep] + b, sep) == [a] + Split(b, sep)
    decreases |a|
  {
    var s := a + [sep] + b;
    if a == [] {
      assert s[1..] == b;
    } else {
      assert s[1..] == a[1..] + [sep] + b;
      SplitFirst(a[1..], b, sep);
      assert [a[0]] + a[1..] == a;
    }
  }

  /* ---------------------------------------------------------------- domain_to_qname */

  /** `label.len() as u8`: the length, truncated to a byte. */
  function LengthByte(part: seq<uint8>): uint8 {
    (|part| % 0x100) as uint8
  }

  /** Each label as its length byte followed by its bytes, in order. */
  function Runs(labels: seq<seq<uint8>>): seq<uint8>
    decreases |labels|
  {
    if labels == [] then [] else [LengthByte(labels[0])] + labels[0] + Runs(labels[1..])
  }

  /** The qname of a domain: the runs of its dot-separated labels, then a zero byte. */
  function Qname(domain: seq<uint8>): seq<uint8> {
    Runs(Split(domain, Dot)) + [0]
  }

  lemma {:induction false} RunsAppend(ls: seq<seq<uint8>>, l: seq<uint8>)
    ensures Runs(ls + [l]) == Runs(ls) + [LengthByte(l)] + l
    decreases |ls|
  {
    if ls == [] {
      assert Runs([l]) == [LengthByte(l)] + l + Runs([]);
    } else {
      assert (ls + [l])[1..] == ls[1..] + [l];
      RunsAppend(ls[1..], l);
    }
  }

  /** The runs of a split are one byte longer than the input: every separator is replaced by
      a length byte and one more length byte starts the first label. */
  lemma {:induction false} RunsSplitLength(s: seq<uint8>, sep: uint8)
    ensures |Runs(Split(s, sep))| == |s| + 1
    decreases |s|
  {
    if s != [] {
      RunsSplitLength(s[1..], sep);
      var rest := Split(s[1..], sep);
      if s[0] == sep {
        assert ([[]] + rest)[1..] == rest;
      } else {
        var r := [[s[0]] + rest[0]] + rest[1..];
        assert r[1..] == rest[1..];
        assert |Runs(rest)| == 1 + |rest[0]| + |Runs(rest[1..])|;
      }
    }
  }

  /** `|domain_to_qname(d)| == |d| + 2`, and the last byte is the zero terminator. */
  lemma QnameLength(domain: seq<uint8>)
    ensures |Qname(domain)| == |domain| + 2
    ensures Qname(domain)[|domain| + 1] == 0
  {
    RunsSplitLength(domain, Dot);
  }

  /** `domain_to_qname`: for each label of `domain.split('.')` push its length byte and then
      its bytes, and finally push the terminating zero. */
  method DomainToQname(domain: seq<uint8>) returns (qname: seq<uint8>)
    ensures qname == Qname(domain)
    ensures |qname| == |domain| + 2 && qname[|qname| - 1] == 0
  {
    qname := [];
    var labels := Split(domain, Dot);
    for i := 0 to |labels|
      invariant qname == Runs(labels[..i])
    {
      var part := labels[i];
      qname := qname + [LengthByte(part)];
      for j := 0 to |part|
        invariant qname == Runs(labels[..i]) + [LengthByte(part)] + part[..j]
      {
        qname := qname + [part[j]];
        assert part[..j + 1] == part[..j] + [part[j]];
      }
      assert labels[..i + 1] == labels[..i] + [part];
      RunsAppend(labels[..i], part);
    }
    assert labels[..|labels|] == labels;
    qname := qname + [0];
    QnameLength(domain);
  }

  /* ---------------------------------------------------------------- qname_to_domain */

  /** The raw labels of a qname: read length-prefixed runs until a zero length byte or the end
      of the input; a run that reaches past the end is a slice out of range, a panic. */
  function LabelsOf(q: seq<uint8>): (r: Result<seq<seq<uint8>>>)
    ensures r.Err? ==> r.error == Panic
    ensures r.Ok? ==> forall i :: 0 <= i < |r.value| ==> 1 <= |r.value[i]| <= 255
    decreases |q|
  {
    if q == [] || q[0] == 0 then Ok([])
    else if 1 + q[0] as int > |q| then Err(Panic)
    else
      match LabelsOf(q[1 + q[0] as int..])
      case Ok(ls) => Ok([q[1..1 + q[0] as int]] + ls)
      case Err(e) => Err(e)
  }

  /** `raw` followed by the labels of `r`, or the failure of `r`. */
  function Prefixed(raw: seq<seq<uint8>>, r: Result<seq<seq<uint8>>>): Result<seq<seq<uint8>>> {
    match r
    case Ok(ls) => Ok(raw + ls)
    case Err(e) => Err(e)
  }

  lemma PrefixedEmpty(r: Result<seq<seq<uint8>>>)
    ensures Prefixed([], r) == r
  {
    if r.Ok? {
      assert [] + r.value == r.value;
    }
  }

  lemma PrefixedAssoc(a: seq<seq<uint8>>, b: seq<seq<uint8>>, r: Result<seq<seq<uint8>>>)
    ensures Prefixed(a, Prefixed(b, r)) == Prefixed(a + b, r)
  {
    if r.Ok? {
      assert a + (b + r.value) == (a + b) + r.value;
    }
  }

  function MapLossy(ls: seq<seq<uint8>>): (r: seq<seq<uint8>>)
    ensures |r| == |ls| && forall i :: 0 <= i < |ls| ==> r[i] == Lossy(ls[i])
  {
    seq(|ls|, i requires 0 <= i < |ls| => Lossy(ls[i]))
  }

  /** The domain of a qname: its labels, each decoded lossily, joined with dots. */
  function DomainOf(q: seq<uint8>): Result<seq<uint8>> {
    match LabelsOf(q)
    case Ok(ls) => Ok(Join(MapLossy(ls), Dot))
    case Err(e) => Err(e)
  }

  /** `qname_to_domain`, with the out-of-range slice of a run that overshoots the input
      returned as `Err(Panic)`. */
  method QnameToDomain(qname: seq<uint8>) returns (r: Result<seq<uint8>>)
    ensures r == DomainOf(qname)
  {
    var labels: seq<seq<uint8>> := [];
    ghost var raw: seq<seq<uint8>> := [];
    var index := 0;
    assert qname[index..] == qname;
    PrefixedEmpty(LabelsOf(qname));
    while index < |qname|
      invariant index <= |qname|
      invariant labels == MapLossy(raw)
      invariant LabelsOf(qname) == Prefixed(raw, LabelsOf(qname[index..]))
    {
      var labelLen := qname[index] as int;
      if labelLen == 0 {
        break;
      }
      var labelBegin := index + 1;
      var next := labelBegin + labelLen;
      if next > |qname| {
        return Err(Panic);
      }
      ghost var rest := qname[index..];
      assert rest[1..1 + labelLen] == qname[labelBegin..next];
      assert rest[1 + labelLen..] == qname[next..];
      var part := qname[labelBegin..next];
      assert LabelsOf(rest) == Prefixed([part], LabelsOf(qname[next..]));
      PrefixedAssoc(raw, [part], LabelsOf(qname[next..]));
      labels := labels + [Lossy(part)];
      raw := raw + [part];
      index := next;
    }
    assert LabelsOf(qname[index..]) == Ok([]);
    assert raw + [] == raw;
    r := Ok(Join(labels, Dot));
  }

  /* ---------------------------------------------------------------- properties */

  predicate ValidLabel(l: seq<uint8>) {
    1 <= |l| <= 255 && AllAscii(l)
  }

  /** A domain whose every dot-separated label is 1 to 255 ASCII bytes. */
  predicate WellFormedDomain(domain: seq<uint8>) {
    var ls := Split(domain, Dot);
    forall i :: 0 <= i < |ls| ==> ValidLabel(ls[i])
  }

  /** Reading runs of labels of 1 to 255 bytes stops at the end of the input or at a zero
      length byte, and ignores whatever bytes follow that zero. */
  lemma {:induction false} LabelsOfRuns(ls: seq<seq<uint8>>, t: seq<uint8>)
    requires forall i :: 0 <= i < |ls| ==> 1 <= |ls[i]| <= 255
    requires t == [] || t[0] == 0
    ensures LabelsOf(Runs(ls) + t) == Ok(ls)
    decreases |ls|
  {
    if ls == [] {
      assert Runs(ls) + t == t;
    } else {
      var l := ls[0];
      var q := Runs(ls) + t;
      assert q == [LengthByte(l)] + l + (Runs(ls[1..]) + t);
      assert q[0] as int == |l|;
      assert q[1..1 + |l|] == l;
      assert q[1 + |l|..] == Runs(ls[1..]) + t;
      LabelsOfRuns(ls[1..], t);
      assert [l] + ls[1..] == ls;
    }
  }

  /** A length byte that promises more bytes than remain makes the decoding panic. */
  lemma {:induction false} LabelsOfOverrun(ls: seq<seq<uint8>>, t: seq<uint8>)
    requires forall i :: 0 <= i < |ls| ==> 1 <= |ls[i]| <= 255
    requires t != [] && 0 < t[0] && |t| < 1 + t[0] as int
    ensures LabelsOf(Runs(ls) + t) == Err(Panic)
    decreases |ls|
  {
    if ls == [] {
      assert Runs(ls) + t == t;
    } else {
      var l := ls[0];
      var q := Runs(ls) + t;
      assert q == [LengthByte(l)] + l + (Runs(ls[1..]) + t);
      assert q[0] as int == |l|;
      assert q[1 + |l|..] == Runs(ls[1..]) + t;
      LabelsOfOverrun(ls[1..], t);
    }
  }

  /** `qname_to_domain(domain_to_qname(d)) == d` for a well-formed domain. */
  lemma QnameRoundTrip(domain: seq<uint8>)
    requires WellFormedDomain(domain)
    ensures DomainOf(Qname(domain)) == Ok(domain)
  {
    var ls := Split(domain, Dot);
    LabelsOfRuns(ls, [0]);
    forall i | 0 <= i < |ls| ensures Lossy(ls[i]) == ls[i] {
      LossyAscii(ls[i]);
    }
    assert MapLossy(ls) == ls;
    JoinSplit(domain, Dot);
  }

  /** Labels without zero bytes have runs without zero bytes: the only zero of such a qname is
      its terminator. */
  lemma {:induction false} RunsNulFree(ls: seq<seq<uint8>>)
    requires forall i :: 0 <= i < |ls| ==> 1 <= |ls[i]| <= 255 && 0 !in ls[i]
    ensures 0 !in Runs(ls)
    decreases |ls|
  {
    if ls != [] {
      RunsNulFree(ls[1..]);
      assert Runs(ls) == [LengthByte(ls[0])] + ls[0] + Runs(ls[1..]);
    }
  }

  /** The labels of a domain without zero bytes have no zero bytes. */
  lemma {:induction false} SplitNulFree(s: seq<uint8>, sep: uint8)
    requires 0 !in s
    ensures forall i :: 0 <= i < |Split(s, sep)| ==> 0 !in Split(s, sep)[i]
    decreases |s|
  {
    if s != [] {
      assert 0 !in s[1..] by {
        forall i | 0 <= i < |s| - 1 ensures s[1..][i] != 0 { assert s[1..][i] == s[i + 1]; }
      }
      SplitNulFree(s[1..], sep);
    }
  }

  /** The only zero byte in the qname of a well-formed domain without zero bytes is the
      terminator. */
  lemma QnameNulFree(domain: seq<uint8>)
    requires WellFormedDomain(domain) && 0 !in domain
    ensures 0 !in Runs(Split(domain, Dot))
  {
    SplitNulFree(domain, Dot);
    RunsNulFree(Split(domain, Dot));
  }

  /** The empty domain is one empty label: a zero length byte and the terminator. */
  lemma QnameEmpty()
    ensures Qname([]) == [0, 0]
  {
    assert Runs([[]]) == [0] + [] + Runs([]);
  }

  /** A domain of two labels: each label's length byte and bytes, then the terminator. */
  lemma QnameTwoLabels(a: seq<uint8>, b: seq<uint8>)
    requires Dot !in a && Dot !in b
    ensures Qname(a + [Dot] + b) == [LengthByte(a)] + a + [LengthByte(b)] + b + [0]
  {
    SplitFirst(a, b, Dot);
    SplitWhole(b, Dot);
    var ls := [a, b];
    assert ls[1..] == [b] && [b][1..] == [];
    assert Runs([b]) == [LengthByte(b)] + b;
  }

  /** An empty label between two dots is emitted as an interior zero length byte, and reading
      the name back stops there: "a..b" comes back as "a". */
  lemma QnameEmptyLabel()
    ensures Qname([0x61, Dot, Dot, 0x62]) == [1, 0x61, 0, 1, 0x62, 0]
    ensures DomainOf(Qname([0x61, Dot, Dot, 0x62])) == Ok([0x61])
  {
    var d: seq<uint8> := [0x61, Dot, Dot, 0x62];
    var d1, d2, d3: seq<uint8> := [Dot, Dot, 0x62], [Dot, 0x62], [0x62];
    assert d[1..] == d1 && d1[1..] == d2 && d2[1..] == d3 && d3[1..] == [];
    assert Split(d3, Dot) == [[0x62] + []] + [];
    assert [0x62] + [] == d3;
    assert Split(d3, Dot) == [d3];
    assert Split(d2, Dot) == [[]] + [[0x62]];
    assert Split(d1, Dot) == [[]] + [[], [0x62]];
    var ls := Split(d, Dot);
    assert ls == [[0x61] + []] + [[], [0x62]];
    assert Runs(ls[2..]) == [1, 0x62];
    assert Runs(ls[1..]) == [0, 1, 0x62];
    assert Runs([[0x61]]) == [1, 0x61];
    assert Qname(d) == Runs([[0x61]]) + [0, 1, 0x62, 0];
    LabelsOfRuns([[0x61]], [0, 1, 0x62, 0]);
    LossyAscii([0x61]);
    assert MapLossy([[0x61]]) == [[0x61]];
    assert Join([[0x61]], Dot) == [0x61];
  }
}
