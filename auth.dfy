/** Accounts (crates/smallauncher_lib/src/auth/mod.rs:9-13, 30-34) and the offline player UUID
    (crates/smallauncher_lib/src/auth/offline.rs:1-7): the MD5 digest of `OfflinePlayer:<name>`
    with the version and variant fields of RFC 4122 set, in the hyphenated lowercase text form.
    MD5 itself is a parameter. */
module Auth {
  import opened Wrappers

  datatype Account =
    | Microsoft(name: string, uuid: string, accessToken: string)
    | Offline(name: string, uuid: string)

  /** Sixteen bytes: an MD5 digest, or the bytes of a UUID. */
  type Digest = s: seq<bv8> | |s| == 16 witness [0, 0, 0, 0, 0, 0, 0, 0, 0, 0, 0, 0, 0, 0, 0, 0]

  const OfflinePrefix := "OfflinePlayer:"

  /** The text whose MD5 digest seeds an offline UUID. */
  function DigestInput(username: string): (s: string)
    ensures |s| == |OfflinePrefix| + |username| && s[|OfflinePrefix|..] == username
  {
    OfflinePrefix + username
  }

  // ---------------------------------------------------------------- version and variant bits

  /** The digest with byte 6 carrying version 3 (RFC 4122 section 4.1.3) and byte 8 the variant
      `10` (RFC 4122 section 4.1.1); every other byte is the digest's. */
  function UuidBytes(h: Digest): (r: Digest)
    ensures r[6] >> 4 == 3 && r[6] & 0x0f == h[6] & 0x0f
    ensures r[8] >> 6 == 2 && r[8] & 0x3f == h[8] & 0x3f
    ensures forall i :: 0 <= i < 16 && i != 6 && i != 8 ==> r[i] == h[i]
  {
    h[6 := (h[6] & 0x0f) | 0x30][8 := (h[8] & 0x3f) | 0x80]
  }

  /** Setting the bits twice changes nothing more. */
  lemma UuidBytesIdempotent(h: Digest)
    ensures UuidBytes(UuidBytes(h)) == UuidBytes(h)
  {
    var r := UuidBytes(h);
    assert (r[6] & 0x0f) | 0x30 == r[6];
    assert (r[8] & 0x3f) | 0x80 == r[8];
  }

  // ---------------------------------------------------------------- text form

  const HexDigits := "0123456789abcdef"

  function HexDigit(n: bv8): (c: char)
    requires n < 16
    ensures c in HexDigits
  {
    HexDigits[n as int]
  }

  /** Two lowercase hex digits per byte, high nibble first. */
  function Hex(bs: seq<bv8>): (s: string)
    ensures |s| == 2 * |bs|
  {
    if bs == [] then "" else [HexDigit(bs[0] >> 4), HexDigit(bs[0] & 0x0f)] + Hex(bs[1..])
  }

  lemma {:induction false} HexAppend(a: seq<bv8>, b: seq<bv8>)
    ensures Hex(a + b) == Hex(a) + Hex(b)
  {
    if a != [] {
      assert (a + b)[1..] == a[1..] + b;
      HexAppend(a[1..], b);
    } else {
      assert a + b == b;
    }
  }

  lemma {:induction false} HexAt(bs: seq<bv8>, i: nat)
    requires i < |bs|
    ensures Hex(bs)[2 * i] == HexDigit(bs[i] >> 4) && Hex(bs)[2 * i + 1] == HexDigit(bs[i] & 0x0f)
  {
    if i > 0 {
      HexAt(bs[1..], i - 1);
    }
  }

  /** `Uuid::to_string`: 8-4-4-4-12 groups of hex digits separated by hyphens (RFC 4122 section 3). */
  function Hyphenated(b: Digest): (s: string)
    ensures |s| == 36
  {
    Hex(b[..4]) + "-" + Hex(b[4..6]) + "-" + Hex(b[6..8]) + "-" + Hex(b[8..10]) + "-" + Hex(b[10..])
  }

  /** The value of a lowercase hex digit. */
  function ParseHexDigit(c: char): (r: Option<bv8>)
    ensures r.Some? <==> c in HexDigits
    ensures r.Some? ==> r.value < 16 && HexDigits[r.value as int] == c
  {
    match c
    case '0' => Some(0) case '1' => Some(1) case '2' => Some(2) case '3' => Some(3)
    case '4' => Some(4) case '5' => Some(5) case '6' => Some(6) case '7' => Some(7)
    case '8' => Some(8) case '9' => Some(9) case 'a' => Some(10) case 'b' => Some(11)
    case 'c' => Some(12) case 'd' => Some(13) case 'e' => Some(14) case 'f' => Some(15)
    case _ => None
  }

  lemma ParseHexDigitOf(n: bv8)
    requires n < 16
    ensures ParseHexDigit(HexDigit(n)) == Some(n)
  {
  }

  /** Bytes back from pairs of lowercase hex digits. */
  function ParseHex(s: string): Option<seq<bv8>>
    decreases |s|
  {
    if s == [] then Some([])
    else if |s| == 1 then None
    else
      match (ParseHexDigit(s[0]), ParseHexDigit(s[1]), ParseHex(s[2..]))
      case (Some(hi), Some(lo), Some(rest)) => Some([(hi << 4) | lo] + rest)
      case _ => None
  }

  lemma {:induction false} ParseHexRoundTrip(bs: seq<bv8>)
    ensures ParseHex(Hex(bs)) == Some(bs)
  {
    if bs != [] {
      var s := Hex(bs);
      var b := bs[0];
      ParseHexDigitOf(b >> 4);
      ParseHexDigitOf(b & 0x0f);
      assert s[2..] == Hex(bs[1..]);
      ParseHexRoundTrip(bs[1..]);
      assert ((b >> 4) << 4) | (b & 0x0f) == b;
      assert [b] + bs[1..] == bs;
    }
  }

  /** The inverse of `Hyphenated`. */
  function ParseHyphenated(s: string): (r: Option<Digest>)
  {
    if |s| != 36 || s[8] != '-' || s[13] != '-' || s[18] != '-' || s[23] != '-' then None
    else
      match ParseHex(s[..8] + s[9..13] + s[14..18] + s[19..23] + s[24..])
      case Some(b) => if |b| == 16 then Some(b) else None
      case None => None
  }

  /** Where the five groups sit in the hyphenated text. */
  lemma Groups(a: string, b: string, c: string, d: string, e: string)
    requires |a| == 8 && |b| == 4 && |c| == 4 && |d| == 4 && |e| == 12
    ensures var s := a + "-" + b + "-" + c + "-" + d + "-" + e;
            s[..8] == a && s[9..13] == b && s[14..18] == c && s[19..23] == d && s[24..] == e
  {
  }

  lemma HexGroups(b: Digest)
    ensures Hex(b[..4]) + Hex(b[4..6]) + Hex(b[6..8]) + Hex(b[8..10]) + Hex(b[10..]) == Hex(b)
  {
    var g0, g1, g2, g3, g4 := b[..4], b[4..6], b[6..8], b[8..10], b[10..];
    HexAppend(g0, g1);
    HexAppend(g0 + g1, g2);
    HexAppend(g0 + g1 + g2, g3);
    HexAppend(g0 + g1 + g2 + g3, g4);
    assert g0 + g1 + g2 + g3 + g4 == b;
  }

  /** Taking the hyphens out of the text leaves the hex form of all sixteen bytes. */
  lemma HyphenatedDigits(b: Digest)
    ensures var s := Hyphenated(b);
            s[..8] + s[9..13] + s[14..18] + s[19..23] + s[24..] == Hex(b)
  {
    Groups(Hex(b[..4]), Hex(b[4..6]), Hex(b[6..8]), Hex(b[8..10]), Hex(b[10..]));
    HexGroups(b);
  }

  lemma HyphenatedRoundTrip(b: Digest)
    ensures ParseHyphenated(Hyphenated(b)) == Some(b)
  {
    HyphenatedDigits(b);
    ParseHexRoundTrip(b);
  }

  // ---------------------------------------------------------------- offline_uuid

  /** The UUID `offline_uuid` yields for a digest. */
  function OfflineUuidOf(h: Digest): string
  {
    Hyphenated(UuidBytes(h))
  }

  /** `offline_uuid`: the digest array is fixed up in place at indices 6 and 8, then formatted. */
  method OfflineUuid(username: string, md5: string -> Digest) returns (uuid: string)
    ensures uuid == OfflineUuidOf(md5(DigestInput(username)))
  {
    var digest := md5(DigestInput(username));
    var hash := new bv8[16](i requires 0 <= i < 16 => digest[i]);
    hash[6] := (hash[6] & 0x0f) | 0x30;
    hash[8] := (hash[8] & 0x3f) | 0x80;
    assert hash[..] == UuidBytes(digest);
    uuid := Hyphenated(hash[..]);
  }

  /** `auth_offline`. */
  method AuthOffline(name: string, md5: string -> Digest) returns (account: Account)
    ensures account == Offline(name, OfflineUuidOf(md5(DigestInput(name))))
  {
    var uuid := OfflineUuid(name, md5);
    account := Offline(name, uuid);
  }

  /** The text shows version 3 as the first digit of the third group and the variant as one of
      `8`, `9`, `a`, `b` at the head of the fourth; the bytes read back are the fixed-up digest. */
  lemma OfflineUuidShape(h: Digest)
    ensures var s := OfflineUuidOf(h);
            |s| == 36 && s[8] == '-' && s[13] == '-' && s[18] == '-' && s[23] == '-'
            && s[14] == '3' && s[19] in "89ab"
            && ParseHyphenated(s) == Some(UuidBytes(h))
  {
    var b := UuidBytes(h);
    HyphenatedHeads(b);
    VariantDigit(b[8]);
    HyphenatedRoundTrip(b);
  }

  /** The hyphens, and the high digits of bytes 6 and 8, in the hyphenated text. */
  lemma HyphenatedHeads(b: Digest)
    ensures var s := Hyphenated(b);
            s[8] == '-' && s[13] == '-' && s[18] == '-' && s[23] == '-'
            && s[14] == HexDigit(b[6] >> 4) && s[19] == HexDigit(b[8] >> 4)
  {
    HexAt(b[6..8], 0);
    HexAt(b[8..10], 0);
  }

  /** A byte whose top two bits are `10` starts with one of `8`, `9`, `a`, `b`. */
  lemma VariantDigit(x: bv8)
    requires x >> 6 == 2
    ensures HexDigit(x >> 4) in "89ab"
  {
    assert 8 <= x >> 4 < 12;
  }

  /** Every digit of the hex form is a lowercase hex digit. */
  lemma {:induction false} HexLowercase(bs: seq<bv8>)
    ensures forall c :: c in Hex(bs) ==> c in HexDigits
  {
    if bs != [] {
      HexLowercase(bs[1..]);
    }
  }
}
