/**
  Foundation's `UUID`: a 128-bit value, and its textual form `uuidString`.

  The coordinator matches region callbacks against tracked beacons by
  comparing `uuid.uuidString` with the region identifier, and turns region
  identifiers back into UUIDs with `UUID(uuidString:)`.  Both directions are
  modelled here, and the fact the matching relies on (two different UUIDs
  never print the same) is proved from the round trip rather than assumed.
*/
module Uuids {
  import opened Options

  /** An unsigned 8-bit value. */
  type Byte = x: int | 0 <= x < 256

  /** A UUID: sixteen bytes, most significant first. */
  type Uuid = bs: seq<Byte> | |bs| == 16
    witness [0, 0, 0, 0, 0, 0, 0, 0, 0, 0, 0, 0, 0, 0, 0, 0]

  /** The upper-case hexadecimal digit for a nibble. */
  function HexDigit(n: int): (c: char)
    requires 0 <= n < 16
    ensures '0' <= c <= '9' || 'A' <= c <= 'F'
  {
    if n < 10 then ('0' as int + n) as char else ('A' as int + n - 10) as char
  }

  /** The value of a hexadecimal digit of either case, or -1 for any other character. */
  function DigitValue(c: char): (v: int)
    ensures -1 <= v < 16
    ensures v == -1 <==> !('0' <= c <= '9' || 'A' <= c <= 'F' || 'a' <= c <= 'f')
  {
    if '0' <= c <= '9' then c as int - '0' as int
    else if 'A' <= c <= 'F' then c as int - 'A' as int + 10
    else if 'a' <= c <= 'f' then c as int - 'a' as int + 10
    else -1
  }

  /** Two upper-case hexadecimal digits per byte, high nibble first. */
  function HexOf(bs: seq<Byte>): (s: string)
    ensures |s| == 2 * |bs|
  {
    if bs == [] then [] else [HexDigit(bs[0] / 16), HexDigit(bs[0] % 16)] + HexOf(bs[1..])
  }

  /** Reads pairs of hexadecimal digits back into bytes; None on an odd length or a non-digit. */
  function ParseHex(s: string): (r: Option<seq<Byte>>)
    ensures r.Some? ==> 2 * |r.value| == |s|
    decreases |s|
  {
    if |s| == 0 then Some([])
    else if |s| == 1 then None
    else
      var hi := DigitValue(s[0]);
      var lo := DigitValue(s[1]);
      if hi < 0 || lo < 0 then None
      else match ParseHex(s[2..])
        case None => None
        case Some(rest) => Some([hi * 16 + lo] + rest)
  }

  /** `uuid.uuidString`: upper-case hexadecimal in groups of 8-4-4-4-12 digits separated by hyphens. */
  function UuidString(u: Uuid): (s: string)
    ensures |s| == 36
    ensures s[8] == '-' && s[13] == '-' && s[18] == '-' && s[23] == '-'
  {
    HexOf(u[0..4]) + "-" + HexOf(u[4..6]) + "-" + HexOf(u[6..8]) + "-" + HexOf(u[8..10]) + "-" + HexOf(u[10..16])
  }

  /**
    `UUID(uuidString:)`: the string form of section 3 of RFC 4122, 36 characters with
    hyphens at positions 8, 13, 18 and 23 and hexadecimal digits of either case
    everywhere else; None for anything else.
  */
  function ParseUuid(s: string): (r: Option<Uuid>)
    ensures r.Some? ==> |s| == 36 && s[8] == '-' && s[13] == '-' && s[18] == '-' && s[23] == '-'
  {
    if |s| != 36 || s[8] != '-' || s[13] != '-' || s[18] != '-' || s[23] != '-' then None
    else match ParseHex(s[0..8] + s[9..13] + s[14..18] + s[19..23] + s[24..36])
      case None => None
      case Some(bs) => Some(bs)
  }

  lemma DigitOfHexDigit(n: int)
    requires 0 <= n < 16
    ensures DigitValue(HexDigit(n)) == n
  {
  }

  lemma {:induction false} HexOfAppend(a: seq<Byte>, b: seq<Byte>)
    ensures HexOf(a + b) == HexOf(a) + HexOf(b)
  {
    if a == [] {
      assert a + b == b;
    } else {
      assert (a + b)[1..] == a[1..] + b;
      HexOfAppend(a[1..], b);
    }
  }

  /** Reading back what HexOf printed gives the bytes again. */
  lemma {:induction false} ParseHexOf(bs: seq<Byte>)
    ensures ParseHex(HexOf(bs)) == Some(bs)
  {
    if bs != [] {
      var s := HexOf(bs);
      DigitOfHexDigit(bs[0] / 16);
      DigitOfHexDigit(bs[0] % 16);
      assert s[2..] == HexOf(bs[1..]);
      ParseHexOf(bs[1..]);
      assert [bs[0]] + bs[1..] == bs;
    }
  }

  /** `UUID(uuidString: u.uuidString)` is `u`: the textual form loses nothing. */
  lemma ParseUuidString(u: Uuid)
    ensures ParseUuid(UuidString(u)) == Some(u)
  {
    var a, b, c, d, e := HexOf(u[0..4]), HexOf(u[4..6]), HexOf(u[6..8]), HexOf(u[8..10]), HexOf(u[10..16]);
    var s := UuidString(u);
    assert s == a + "-" + b + "-" + c + "-" + d + "-" + e;
    assert s[0..8] == a;
    assert s[9..13] == b;
    assert s[14..18] == c;
    assert s[19..23] == d;
    assert s[24..36] == e;
    HexOfAppend(u[0..4], u[4..6]);
    HexOfAppend(u[0..4] + u[4..6], u[6..8]);
    HexOfAppend(u[0..4] + u[4..6] + u[6..8], u[8..10]);
    HexOfAppend(u[0..4] + u[4..6] + u[6..8] + u[8..10], u[10..16]);
    assert u[0..4] + u[4..6] + u[6..8] + u[8..10] + u[10..16] == u;
    ParseHexOf(u);
  }

  /** Different UUIDs have different strings, so matching on `uuidString` is matching on the UUID. */
  lemma UuidStringInjective(u: Uuid, v: Uuid)
    ensures UuidString(u) == UuidString(v) <==> u == v
  {
    ParseUuidString(u);
    ParseUuidString(v);
  }

}
