/**
 * The `application/x-www-form-urlencoded` format of the WHATWG URL Standard,
 * section 5: the serializer `URLSearchParams.toString()` uses (section 5.2) and the
 * parser that reads a query back (section 5.1), over UTF-8 (the only encoding
 * `URLSearchParams` uses).
 */
module FormUrlEncoding {
  import opened Wrappers
  import opened Text

  type Byte = b: int | 0 <= b < 256

  // ---------------------------------------------------------------- UTF-8

  /** The UTF-8 encoding of one Unicode scalar value. */
  function Utf8(c: char): (bs: seq<Byte>)
    ensures 1 <= |bs| <= 4
    ensures (c as int < 0x80) <==> |bs| == 1
    ensures |bs| == 1 ==> bs[0] == c as int
  {
    var n := c as int;
    var n1 := n / 64;
    var n2 := n1 / 64;
    if n < 0x80 then [n]
    else if n < 0x800 then [0xC0 + n1, 0x80 + n % 64]
    else if n < 0x10000 then [0xE0 + n2, 0x80 + n1 % 64, 0x80 + n % 64]
    else [0xF0 + n2 / 64, 0x80 + n2 % 64, 0x80 + n1 % 64, 0x80 + n % 64]
  }

  function Utf8String(s: string): seq<Byte> {
    if s == [] then [] else Utf8(s[0]) + Utf8String(s[1..])
  }

  predicate IsContinuation(b: Byte) {
    0x80 <= b < 0xC0
  }

  /** Decodes the first scalar value of well-formed UTF-8, with the number of bytes it took. */
  function DecodeFirst(bs: seq<Byte>): (r: Option<(char, nat)>)
    ensures r.Some? ==> 1 <= r.value.1 <= |bs|
  {
    if |bs| == 0 then None
    else
      var b0: int := bs[0];
      if b0 < 0x80 then Some((b0 as char, 1))
      else if 0xC2 <= b0 < 0xE0 then
        if |bs| >= 2 && IsContinuation(bs[1]) then
          var v: int := (b0 - 0xC0) * 64 + (bs[1] as int - 0x80);
          Some((v as char, 2))
        else None
      else if 0xE0 <= b0 < 0xF0 then
        if |bs| >= 3 && IsContinuation(bs[1]) && IsContinuation(bs[2]) then
          var v: int := (b0 - 0xE0) * 4096 + (bs[1] as int - 0x80) * 64 + (bs[2] as int - 0x80);
          if 0x800 <= v && !(0xD800 <= v < 0xE000) then Some((v as char, 3)) else None
        else None
      else if 0xF0 <= b0 < 0xF5 then
        if |bs| >= 4 && IsContinuation(bs[1]) && IsContinuation(bs[2]) && IsContinuation(bs[3]) then
          var v: int := (b0 - 0xF0) * 262144 + (bs[1] as int - 0x80) * 4096
            + (bs[2] as int - 0x80) * 64 + (bs[3] as int - 0x80);
          if 0x10000 <= v < 0x110000 then Some((v as char, 4)) else None
        else None
      else None
  }

  /** UTF-8 decoding; malformed input is a failure. */
  function DecodeUtf8(bs: seq<Byte>): Option<string>
    decreases |bs|
  {
    if bs == [] then Some([])
    else
      match DecodeFirst(bs)
      case None => None
      case Some((c, k)) =>
        match DecodeUtf8(bs[k..])
        case None => None
        case Some(rest) => Some([c] + rest)
  }

  lemma DecodeFirstOfUtf8(c: char, rest: seq<Byte>)
    ensures DecodeFirst(Utf8(c) + rest) == Some((c, |Utf8(c)|))
  {
    var n := c as int;
    if n < 0x80 {
    } else if n < 0x800 {
      DecodeFirstTwo(c, rest);
    } else if n < 0x10000 {
      DecodeFirstThree(c, rest);
    } else {
      DecodeFirstFour(c, rest);
    }
  }

  lemma DecodeFirstTwo(c: char, rest: seq<Byte>)
    requires 0x80 <= c as int < 0x800
    ensures DecodeFirst(Utf8(c) + rest) == Some((c, 2))
  {
    var n := c as int;
    var bs := Utf8(c) + rest;
    assert bs[0] == 0xC0 + n / 64 && bs[1] == 0x80 + n % 64;
    assert (n / 64) * 64 + n % 64 == n;
  }

  lemma DecodeFirstThree(c: char, rest: seq<Byte>)
    requires 0x800 <= c as int < 0x10000
    ensures DecodeFirst(Utf8(c) + rest) == Some((c, 3))
  {
    var n := c as int;
    var n1 := n / 64;
    var n2 := n1 / 64;
    var bs := Utf8(c) + rest;
    assert bs[0] == 0xE0 + n2 && bs[1] == 0x80 + n1 % 64 && bs[2] == 0x80 + n % 64;
    assert n == n1 * 64 + n % 64 && n1 == n2 * 64 + n1 % 64;
  }

  lemma DecodeFirstFour(c: char, rest: seq<Byte>)
    requires 0x10000 <= c as int
    ensures DecodeFirst(Utf8(c) + rest) == Some((c, 4))
  {
    var n := c as int;
    var n1 := n / 64;
    var n2 := n1 / 64;
    var n3 := n2 / 64;
    var bs := Utf8(c) + rest;
    assert bs[0] == 0xF0 + n3 && bs[1] == 0x80 + n2 % 64;
    assert bs[2] == 0x80 + n1 % 64 && bs[3] == 0x80 + n % 64;
    assert n == n1 * 64 + n % 64 && n1 == n2 * 64 + n1 % 64 && n2 == n3 * 64 + n2 % 64;
  }

  /** Decoding the UTF-8 encoding of a string gives the string back. */
  lemma {:induction false} DecodeUtf8String(s: string)
    ensures DecodeUtf8(Utf8String(s)) == Some(s)
  {
    if s != [] {
      var bs := Utf8String(s);
      var k := |Utf8(s[0])|;
      DecodeFirstOfUtf8(s[0], Utf8String(s[1..]));
      assert bs[k..] == Utf8String(s[1..]);
      DecodeUtf8String(s[1..]);
      assert [s[0]] + s[1..] == s;
    }
  }

  // ---------------------------------------------------------------- bytes to text

  /** Bytes the serializer leaves as they are: ASCII alphanumerics and `*`, `-`, `.`, `_`. */
  predicate IsSafeByte(b: Byte) {
    b == 0x2A || b == 0x2D || b == 0x2E || b == 0x5F
    || (0x30 <= b <= 0x39) || (0x41 <= b <= 0x5A) || (0x61 <= b <= 0x7A)
  }

  function HexDigit(n: int): (c: char)
    requires 0 <= n < 16
    ensures IsHexChar(c) && HexValue(c) == n
  {
    if n < 10 then ('0' as int + n) as char else ('A' as int + n - 10) as char
  }

  predicate IsHexChar(c: char) {
    ('0' <= c <= '9') || ('A' <= c <= 'F') || ('a' <= c <= 'f')
  }

  function HexValue(c: char): (n: int)
    requires IsHexChar(c)
    ensures 0 <= n < 16
  {
    if '0' <= c <= '9' then c as int - '0' as int
    else if 'A' <= c <= 'F' then c as int - 'A' as int + 10
    else c as int - 'a' as int + 10
  }

  /** Every character the serializer can emit: a safe byte, `+`, `%` or an upper-case hex digit. */
  predicate IsSerializedChar(c: char) {
    (c as int < 0x80 && IsSafeByte(c as int)) || c == '+' || c == '%'
  }

  /** One byte of the serializer: space becomes `+`, a safe byte stays, anything else is `%XX`. */
  function SerializeByte(b: Byte): (r: string)
    ensures forall i | 0 <= i < |r| :: IsSerializedChar(r[i])
  {
    if b == 0x20 then "+"
    else if IsSafeByte(b) then [b as char]
    else ['%', HexDigit(b / 16), HexDigit(b % 16)]
  }

  function SerializeBytes(bs: seq<Byte>): (r: string)
    ensures forall i | 0 <= i < |r| :: IsSerializedChar(r[i])
  {
    if bs == [] then []
    else
      var h, t := SerializeByte(bs[0]), SerializeBytes(bs[1..]);
      assert forall i | |h| <= i < |h + t| :: (h + t)[i] == t[i - |h|];
      h + t
  }

  /**
   * The urlencoded serializer on a name or a value: its UTF-8 bytes serialized.
   * The output is plain ASCII with no `&` and no `=`.
   */
  function Encode(s: string): (r: string)
    ensures forall i | 0 <= i < |r| :: IsSerializedChar(r[i])
    ensures '&' !in r && '=' !in r
  {
    SerializeBytes(Utf8String(s))
  }

  // ---------------------------------------------------------------- text to bytes

  /**
   * The parser's treatment of a name or a value: `+` is a space byte, `%` with two hex
   * digits is that byte, anything else stands for its own UTF-8 bytes.
   */
  function PercentDecode(s: string): seq<Byte> {
    if s == [] then []
    else if s[0] == '+' then [0x20] + PercentDecode(s[1..])
    else if s[0] == '%' && |s| >= 3 && IsHexChar(s[1]) && IsHexChar(s[2]) then
      [HexValue(s[1]) * 16 + HexValue(s[2])] + PercentDecode(s[3..])
    else Utf8(s[0]) + PercentDecode(s[1..])
  }

  lemma PercentDecodeOfSerializedByte(b: Byte, rest: string)
    ensures PercentDecode(SerializeByte(b) + rest) == [b] + PercentDecode(rest)
  {
    var s := SerializeByte(b) + rest;
    if b == 0x20 {
      assert s[1..] == rest;
    } else if IsSafeByte(b) {
      assert s[1..] == rest;
    } else {
      assert s[3..] == rest;
    }
  }

  lemma {:induction false} PercentDecodeOfSerialized(bs: seq<Byte>)
    ensures PercentDecode(SerializeBytes(bs)) == bs
  {
    if bs != [] {
      PercentDecodeOfSerializedByte(bs[0], SerializeBytes(bs[1..]));
      PercentDecodeOfSerialized(bs[1..]);
    }
  }

  /** Reading back one name or value. */
  function Decode(s: string): Option<string> {
    DecodeUtf8(PercentDecode(s))
  }

  /** Decoding inverts encoding, for every string. */
  lemma {:induction false} DecodeEncode(s: string)
    ensures Decode(Encode(s)) == Some(s)
  {
    PercentDecodeOfSerialized(Utf8String(s));
    DecodeUtf8String(s);
  }

  // ---------------------------------------------------------------- name/value lists

  function SerializePair(p: (string, string)): string {
    Encode(p.0) + "=" + Encode(p.1)
  }

  function SerializedPairs(pairs: seq<(string, string)>): (r: seq<string>)
    ensures |r| == |pairs|
    ensures forall k | 0 <= k < |r| :: r[k] == SerializePair(pairs[k])
  {
    if pairs == [] then [] else [SerializePair(pairs[0])] + SerializedPairs(pairs[1..])
  }

  /** The urlencoded serializer: `name=value` pairs in order, joined by `&`. */
  function Serialize(pairs: seq<(string, string)>): string {
    if pairs == [] then "" else Join(SerializedPairs(pairs), '&')
  }

  /** One `&`-separated piece: the name up to the first `=`, the value after it. */
  function ParsePair(piece: string): Option<(string, string)> {
    var halves := Split(piece, '=');
    var name := halves[0];
    var value := if |halves| > 1 then Join(halves[1..], '=') else "";
    match (Decode(name), Decode(value))
    case (Some(n), Some(v)) => Some((n, v))
    case _ => None
  }

  function ParsePieces(pieces: seq<string>): Option<seq<(string, string)>> {
    if pieces == [] then Some([])
    else
      var rest := ParsePieces(pieces[1..]);
      if pieces[0] == [] then rest
      else
        match (ParsePair(pieces[0]), rest)
        case (Some(p), Some(ps)) => Some([p] + ps)
        case _ => None
  }

  /** The urlencoded parser: split on `&`, skip empty pieces, read each pair. */
  function Parse(query: string): Option<seq<(string, string)>> {
    ParsePieces(Split(query, '&'))
  }

  lemma ParsePairOfSerialized(p: (string, string))
    ensures ParsePair(SerializePair(p)) == Some(p)
  {
    var n, v := Encode(p.0), Encode(p.1);
    SplitAtSeparator(n, '=', v);
    SplitNoSeparator(v, '=');
    DecodeEncode(p.0);
    DecodeEncode(p.1);
  }

  lemma {:induction false} ParsePiecesOfSerialized(pairs: seq<(string, string)>)
    ensures ParsePieces(SerializedPairs(pairs)) == Some(pairs)
  {
    if pairs != [] {
      var pieces := SerializedPairs(pairs);
      assert pieces[1..] == SerializedPairs(pairs[1..]);
      ParsePiecesOfSerialized(pairs[1..]);
      ParsePairOfSerialized(pairs[0]);
      assert pieces[0] != [];
      assert [pairs[0]] + pairs[1..] == pairs;
    }
  }

  /** Parsing a serialized list gives back every name and value, in order. */
  lemma {:induction false} ParseSerialize(pairs: seq<(string, string)>)
    ensures Parse(Serialize(pairs)) == Some(pairs)
  {
    if pairs != [] {
      var pieces := SerializedPairs(pairs);
      forall k | 0 <= k < |pieces| ensures '&' !in pieces[k] {
        assert pieces[k] == Encode(pairs[k].0) + "=" + Encode(pairs[k].1);
      }
      SplitJoin(pieces, '&');
      ParsePiecesOfSerialized(pairs);
    }
  }
}
