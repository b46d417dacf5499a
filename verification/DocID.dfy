/** Document IDs in URL paths (chttp/encode.go), on bytes. */
module DocID {
  import opened Errors

  newtype byte = n: int | 0 <= n < 256

  type Bytes = seq<byte>

  const SPACE := ' ' as byte
  const PLUS := '+' as byte
  const PERCENT := '%' as byte
  const SLASH := '/' as byte

  const PREFIX_DESIGN: Bytes := [95, 100, 101, 115, 105, 103, 110, 47] // _design/
  const PREFIX_LOCAL: Bytes := [95, 108, 111, 99, 97, 108, 47] // _local/

  /** The unreserved characters of section 2.3 of RFC 3986. */
  predicate Unreserved(c: byte) {
    ('A' as byte <= c <= 'Z' as byte) || ('a' as byte <= c <= 'z' as byte) || ('0' as byte <= c <= '9' as byte) ||
    c == '-' as byte || c == '.' as byte || c == '_' as byte || c == '~' as byte
  }

  function HexDigit(n: byte): (c: byte)
    requires n < 16
    ensures ('0' as byte <= c <= '9' as byte) || ('A' as byte <= c <= 'F' as byte)
  {
    if n < 10 then '0' as byte + n else 'A' as byte + (n - 10)
  }

  function Escaped(c: byte): (r: Bytes)
    ensures |r| == 3 && r[0] == PERCENT && r[1] != SLASH && r[2] != SLASH
  {
    [PERCENT, HexDigit(c / 16), HexDigit(c % 16)]
  }

  /** url.QueryEscape: a space becomes a plus sign. */
  function QueryEscape(s: Bytes): Bytes {
    if s == [] then []
    else
      (if s[0] == SPACE then [PLUS] else if Unreserved(s[0]) then [s[0]] else Escaped(s[0])) + QueryEscape(s[1..])
  }

  /** strings.ReplaceAll(s, "+", "%20") */
  function ReplacePlus(s: Bytes): Bytes {
    if s == [] then []
    else (if s[0] == PLUS then [PERCENT, '2' as byte, '0' as byte] else [s[0]]) + ReplacePlus(s[1..])
  }

  function EncodePart(id: Bytes): Bytes {
    ReplacePlus(QueryEscape(id))
  }

  predicate HasPrefix(s: Bytes, prefix: Bytes) {
    prefix <= s
  }

  function EncodeDocID(id: Bytes): Bytes {
    if HasPrefix(id, PREFIX_DESIGN) then PREFIX_DESIGN + EncodePart(id[|PREFIX_DESIGN|..])
    else if HasPrefix(id, PREFIX_LOCAL) then PREFIX_LOCAL + EncodePart(id[|PREFIX_LOCAL|..])
    else EncodePart(id)
  }

  /** How much of an ID is kept as it is. */
  function KeptLength(id: Bytes): (n: nat)
    ensures n <= |id|
  {
    if HasPrefix(id, PREFIX_DESIGN) then |PREFIX_DESIGN|
    else if HasPrefix(id, PREFIX_LOCAL) then |PREFIX_LOCAL|
    else 0
  }

  /** Percent-encoding as section 2.1 of RFC 3986 defines it, in one pass. */
  function PercentEncode(s: Bytes): Bytes {
    if s == [] then []
    else (if Unreserved(s[0]) then [s[0]] else Escaped(s[0])) + PercentEncode(s[1..])
  }

  function HexValue(c: byte): Option<byte> {
    if '0' as byte <= c <= '9' as byte then Some(c - '0' as byte)
    else if 'A' as byte <= c <= 'F' as byte then Some(c - 'A' as byte + 10)
    else if 'a' as byte <= c <= 'f' as byte then Some(c - 'a' as byte + 10)
    else None
  }

  function PercentDecode(s: Bytes): Option<Bytes> {
    if s == [] then Some([])
    else if s[0] != PERCENT then
      match PercentDecode(s[1..]) case None => None case Some(r) => Some([s[0]] + r)
    else if |s| < 3 then None
    else
      match (HexValue(s[1]), HexValue(s[2]), PercentDecode(s[3..]))
      case (Some(a), Some(b), Some(r)) => if a < 16 && b < 16 then Some([a * 16 + b] + r) else None
      case _ => None
  }

  lemma {:induction false} ReplaceAppend(a: Bytes, b: Bytes)
    ensures ReplacePlus(a + b) == ReplacePlus(a) + ReplacePlus(b)
  {
    if a == [] {
      assert a + b == b;
    } else {
      assert (a + b)[1..] == a[1..] + b;
      ReplaceAppend(a[1..], b);
    }
  }

  lemma {:induction false} ReplaceNone(a: Bytes)
    requires PLUS !in a
    ensures ReplacePlus(a) == a
  {
    if a != [] {
      ReplaceNone(a[1..]);
    }
  }

  /** Query escaping and then replacing plus signs is percent-encoding: a literal plus never survives escaping. */
  lemma {:induction false} EncodePartIsPercentEncode(s: Bytes)
    ensures EncodePart(s) == PercentEncode(s)
  {
    if s != [] {
      EncodePartIsPercentEncode(s[1..]);
      var head := if s[0] == SPACE then [PLUS] else if Unreserved(s[0]) then [s[0]] else Escaped(s[0]);
      ReplaceAppend(head, QueryEscape(s[1..]));
      if s[0] == SPACE {
        assert ReplacePlus([PLUS]) == [PERCENT, '2' as byte, '0' as byte] + ReplacePlus([]);
        assert Escaped(SPACE) == [PERCENT, '2' as byte, '0' as byte];
      } else {
        ReplaceNone(head);
      }
    }
  }

  lemma {:induction false} HexRoundTrip(n: byte)
    requires n < 16
    ensures HexValue(HexDigit(n)) == Some(n)
  {
  }

  lemma {:induction false} DecodeEscape(c: byte, t: Bytes)
    ensures PercentDecode(Escaped(c) + t) ==
            match PercentDecode(t) case None => None case Some(r) => Some([c] + r)
  {
    HexRoundTrip(c / 16);
    HexRoundTrip(c % 16);
    assert (Escaped(c) + t)[3..] == t;
    assert c == c / 16 * 16 + c % 16;
  }

  lemma {:induction false} DecodeUnreserved(c: byte, t: Bytes)
    requires Unreserved(c)
    ensures PercentDecode([c] + t) ==
            match PercentDecode(t) case None => None case Some(r) => Some([c] + r)
  {
    assert ([c] + t)[1..] == t;
  }

  lemma {:induction false} DecodeEncoded(s: Bytes)
    ensures PercentDecode(PercentEncode(s)) == Some(s)
  {
    hide PercentDecode, Escaped, Unreserved;
    if s == [] {
      DecodeNothing();
    } else {
      DecodeEncoded(s[1..]);
      assert s == [s[0]] + s[1..];
      if Unreserved(s[0]) {
        DecodeUnreserved(s[0], PercentEncode(s[1..]));
      } else {
        DecodeEscape(s[0], PercentEncode(s[1..]));
      }
    }
  }

  lemma {:induction false} DecodeNothing()
    ensures PercentDecode([]) == Some([])
  {
  }

  lemma {:induction false} DecodePlain(c: byte, t: Bytes)
    requires c != PERCENT
    ensures PercentDecode([c] + t) ==
            match PercentDecode(t) case None => None case Some(r) => Some([c] + r)
  {
    assert ([c] + t)[1..] == t;
  }

  lemma {:induction false} DecodePlainPrefix(p: Bytes, t: Bytes)
    requires PERCENT !in p
    ensures PercentDecode(p + t) ==
            match PercentDecode(t) case None => None case Some(r) => Some(p + r)
  {
    hide PercentDecode;
    if p == [] {
      assert p + t == t;
      assert forall r: Bytes :: [] + r == r;
    } else {
      DecodePlainPrefix(p[1..], t);
      DecodePlain(p[0], p[1..] + t);
      assert p + t == [p[0]] + (p[1..] + t);
      assert forall r: Bytes :: [p[0]] + (p[1..] + r) == p + r;
    }
  }

  /** Percent-decoding an encoded ID gives the ID back, for every byte string. */
  lemma {:induction false} DecodeDocID(id: Bytes)
    ensures PercentDecode(EncodeDocID(id)) == Some(id)
  {
    hide PercentDecode, PercentEncode, EncodeDocID;
    var n := KeptLength(id);
    KeptThenEncoded(id);
    DecodeEncoded(id[n..]);
    DecodePlainPrefix(id[..n], PercentEncode(id[n..]));
    assert id == id[..n] + id[n..];
  }

  /** So no two IDs share an encoding. */
  lemma {:induction false} EncodeDocIDInjective(a: Bytes, b: Bytes)
    requires EncodeDocID(a) == EncodeDocID(b)
    ensures a == b
  {
    DecodeDocID(a);
    DecodeDocID(b);
  }

  /** What an encoding is made of: unreserved characters and escapes. */
  lemma {:induction false} EncodedHasNoSlash(s: Bytes)
    ensures SLASH !in PercentEncode(s) && PLUS !in PercentEncode(s) && SPACE !in PercentEncode(s)
  {
    if s != [] {
      EncodedHasNoSlash(s[1..]);
    }
  }

  lemma {:induction false} KeptThenEncoded(id: Bytes)
    ensures EncodeDocID(id) == id[..KeptLength(id)] + PercentEncode(id[KeptLength(id)..])
  {
    hide EncodePart, PercentEncode;
    var n := KeptLength(id);
    EncodePartIsPercentEncode(id[n..]);
    assert id[0..] == id;
  }

  /** The bytes of a text in ASCII. */
  function Ascii(t: string): Bytes
    requires forall i :: 0 <= i < |t| ==> t[i] < 128 as char
  {
    seq(|t|, i requires 0 <= i < |t| => t[i] as int as byte)
  }

  /** What is kept of an ID: one of the two prefixes, if it begins with one. */
  lemma {:induction false} KeptIsPrefix(id: Bytes)
    ensures id[..KeptLength(id)] ==
            if Ascii("_design/") <= id then Ascii("_design/")
            else if Ascii("_local/") <= id then Ascii("_local/")
            else []
  {
    assert Ascii("_design/") == PREFIX_DESIGN;
    assert Ascii("_local/") == PREFIX_LOCAL;
  }

  /** A literal slash stands only at the end of a kept prefix. */
  lemma {:induction false} SlashOnlyInPrefix(id: Bytes, i: nat)
    requires i < |EncodeDocID(id)|
    ensures EncodeDocID(id)[i] == '/' as byte <==>
            (Ascii("_design/") <= id && i == 7) ||
            (!(Ascii("_design/") <= id) && Ascii("_local/") <= id && i == 6)
  {
    hide EncodeDocID, PercentEncode;
    KeptThenEncoded(id);
    KeptIsPrefix(id);
    EncodedHasNoSlash(id[KeptLength(id)..]);
  }

  /** A digit of the hexadecimal system, in upper case. */
  predicate IsHexDigit(c: byte, n: int) {
    if n < 10 then 0 <= n && c as int == '0' as int + n else n < 16 && c as int == 'A' as int + n - 10
  }

  /** What each byte behind the prefix becomes: itself if it is unreserved, else its two hexadecimal digits. */
  lemma {:induction false} EncodedByByte(c: byte, rest: Bytes) returns (head: Bytes)
    ensures EncodePart([c] + rest) == head + EncodePart(rest)
    ensures if ('A' as byte <= c <= 'Z' as byte) || ('a' as byte <= c <= 'z' as byte) ||
               ('0' as byte <= c <= '9' as byte) || c in Ascii("-._~")
            then head == [c]
            else |head| == 3 && head[0] == '%' as byte &&
                 IsHexDigit(head[1], c as int / 16) && IsHexDigit(head[2], c as int % 16)
  {
    EncodePartIsPercentEncode([c] + rest);
    EncodePartIsPercentEncode(rest);
    assert ([c] + rest)[1..] == rest;
    assert Ascii("-._~") == ['-' as byte, '.' as byte, '_' as byte, '~' as byte];
    head := if Unreserved(c) then [c] else Escaped(c);
  }

  /** The encoding of an ID is its kept prefix and the encoding of the rest, byte by byte. */
  lemma {:induction false} EncodedWhole(id: Bytes)
    ensures var n := KeptLength(id); EncodeDocID(id) == id[..n] + EncodePart(id[n..]) && EncodePart([]) == []
  {
    hide EncodePart, PercentEncode;
    EncodePartIsPercentEncode(id[KeptLength(id)..]);
    KeptThenEncoded(id);
    assert EncodePart([]) == [] by {
      EncodePartIsPercentEncode([]);
      assert PercentEncode([]) == [] by {
        NothingEncoded();
      }
    }
  }

  lemma {:induction false} NothingEncoded()
    ensures PercentEncode([]) == []
  {
  }
}
