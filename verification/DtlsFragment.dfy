/** Handshake message fragments and their wire encoding (section 4.2.2 of RFC 6347): the type of the message,
    its length in 24 bits, its 16-bit number, and offset and length of the fragment in 24 bits each, followed
    by the stretch of the body itself. A record may hold several of them, one behind the other; each is read
    off the front of what is left. */
module DtlsFragment {
  import opened Common

  const HM_HEADER_LENGTH: nat := 12
  const U24: nat := 0x100_0000
  const U16: nat := 0x1_0000
  type Uint16 = n: nat | n < U16

  datatype ContentType = ChangeCipherSpec | HandshakeData | ApplicationData | AlertRecord

  /** One fragment: `body` is the part of message `seqNo` that starts at `fragOff`. */
  datatype Fragment = Fragment(typ: Byte, msgLen: nat, seqNo: nat, fragOff: nat, body: seq<Byte>)

  /** The header fields fit their widths on the wire. */
  predicate FitsHeader(f: Fragment) {
    f.msgLen < U24 && f.seqNo < U16 && f.fragOff < U24 && |f.body| < U24
  }

  function Header(typ: Byte, msgLen: nat, seqNo: nat, fragOff: nat, fragLen: nat): (r: seq<Byte>)
    ensures |r| == HM_HEADER_LENGTH
  {
    [typ] + BigEndian(msgLen, 3) + BigEndian(seqNo, 2) + BigEndian(fragOff, 3) + BigEndian(fragLen, 3)
  }

  function Serialize(f: Fragment): (r: seq<Byte>)
    ensures |r| == HM_HEADER_LENGTH + |f.body|
  {
    Header(f.typ, f.msgLen, f.seqNo, f.fragOff, |f.body|) + f.body
  }

  /** dtls1_parse_fragment: the first fragment of `s` and the bytes after it, or None when
      the header or the body is cut short. */
  function ParseFragment(s: seq<Byte>): (r: Option<(Fragment, seq<Byte>)>)
    ensures r.Some? ==> |r.value.1| < |s|
  {
    if |s| < HM_HEADER_LENGTH then None
    else
      var fragLen := FromBigEndian(s[9..12]);
      if |s| < HM_HEADER_LENGTH + fragLen then None
      else
        Some((Fragment(s[0], FromBigEndian(s[1..4]), FromBigEndian(s[4..6]), FromBigEndian(s[6..9]),
                       s[12..12 + fragLen]),
              s[12 + fragLen..]))
  }

  /** What was written parses back as the same fragment, whatever follows it. */
  lemma ParseSerialize(f: Fragment, rest: seq<Byte>)
    requires FitsHeader(f)
    ensures ParseFragment(Serialize(f) + rest) == Some((f, rest))
  {
    var s := Serialize(f) + rest;
    assert Pow256(3) == U24 && Pow256(2) == U16 by {
      assert Pow256(1) == 256;
      assert Pow256(2) == 256 * Pow256(1);
    }
    assert s[1..4] == BigEndian(f.msgLen, 3);
    assert s[4..6] == BigEndian(f.seqNo, 2);
    assert s[6..9] == BigEndian(f.fragOff, 3);
    assert s[9..12] == BigEndian(|f.body|, 3);
    BigEndianRoundTrip(f.msgLen, 3);
    BigEndianRoundTrip(f.seqNo, 2);
    BigEndianRoundTrip(f.fragOff, 3);
    BigEndianRoundTrip(|f.body|, 3);
    assert s[12..12 + |f.body|] == f.body;
    assert s[12 + |f.body|..] == rest;
  }

  /** Every parsed fragment has in-range header fields. */
  lemma ParsedFits(s: seq<Byte>)
    requires ParseFragment(s).Some?
    ensures FitsHeader(ParseFragment(s).value.0)
  {
    assert Pow256(3) == U24 && Pow256(2) == U16 by {
      assert Pow256(1) == 256;
      assert Pow256(2) == 256 * Pow256(1);
    }
    FromBigEndianBound(s[1..4]);
    FromBigEndianBound(s[4..6]);
    FromBigEndianBound(s[6..9]);
    FromBigEndianBound(s[9..12]);
  }

  /** Where the header puts what: RFC 6347's order, each number most significant byte first. */
  lemma HeaderLayout(f: Fragment)
    requires FitsHeader(f)
    ensures var s := Serialize(f);
            && s[0] == f.typ
            && s[1..4] == [f.msgLen / 0x1_0000, f.msgLen / 0x100 % 0x100, f.msgLen % 0x100]
            && s[4..6] == [f.seqNo / 0x100, f.seqNo % 0x100]
            && s[6..9] == [f.fragOff / 0x1_0000, f.fragOff / 0x100 % 0x100, f.fragOff % 0x100]
            && s[9..12] == [|f.body| / 0x1_0000, |f.body| / 0x100 % 0x100, |f.body| % 0x100]
            && s[12..] == f.body
  {
    Three(f.msgLen);
    Three(f.fragOff);
    Three(|f.body|);
    Two(f.seqNo);
  }

  lemma Two(n: nat)
    requires n < U16
    ensures BigEndian(n, 2) == [n / 0x100, n % 0x100]
  {
    assert BigEndian(n / 0x100, 1) == [n / 0x100];
  }

  lemma Three(n: nat)
    requires n < U24
    ensures BigEndian(n, 3) == [n / 0x1_0000, n / 0x100 % 0x100, n % 0x100]
  {
    Two(n / 0x100);
  }
}
