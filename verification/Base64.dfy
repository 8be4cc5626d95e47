/** Base64 in tool calls, and the size of the request that carries it. */
module Base64 {
  import opened Common
  import opened Model

  type Sextet = v: int | 0 <= v < 64

  /** The alphabet of section 4 of RFC 4648: A-Z, a-z, 0-9, plus and slash. */
  function Digit(v: Sextet): char {
    if v < 26 then (v + 'A' as int) as char
    else if v < 52 then (v - 26 + 'a' as int) as char
    else if v < 62 then (v - 52 + '0' as int) as char
    else if v == 62 then '+' else '/'
  }

  /** The value of a digit of the alphabet. */
  function Value(c: char): Option<Sextet> {
    if 'A' <= c <= 'Z' then Some(c as int - 'A' as int)
    else if 'a' <= c <= 'z' then Some(c as int - 'a' as int + 26)
    else if '0' <= c <= '9' then Some(c as int - '0' as int + 52)
    else if c == '+' then Some(62)
    else if c == '/' then Some(63)
    else None
  }

  // Three bytes x, y, z as four sextets, and four sextets p, q, r, t as three bytes.

  function Sextet0(x: Byte): Sextet { x / 4 }
  function Sextet1(x: Byte, y: Byte): Sextet { x % 4 * 16 + y / 16 }
  function Sextet2(y: Byte, z: Byte): Sextet { y % 16 * 4 + z / 64 }
  function Sextet3(z: Byte): Sextet { z % 64 }

  function Byte0(p: Sextet, q: Sextet): Byte { p * 4 + q / 16 }
  function Byte1(q: Sextet, r: Sextet): Byte { q % 16 * 16 + r / 4 }
  function Byte2(r: Sextet, t: Sextet): Byte { r % 4 * 64 + t }

  function Quad(x: Byte, y: Byte, z: Byte): string {
    [Digit(Sextet0(x)), Digit(Sextet1(x, y)), Digit(Sextet2(y, z)), Digit(Sextet3(z))]
  }

  function Encode(b: Bytes): string
    decreases |b|
  {
    if |b| == 0 then ""
    else if |b| == 1 then [Digit(Sextet0(b[0])), Digit(Sextet1(b[0], 0)), '=', '=']
    else if |b| == 2 then [Digit(Sextet0(b[0])), Digit(Sextet1(b[0], b[1])), Digit(Sextet2(b[1], 0)), '=']
    else
      Quad(b[0], b[1], b[2]) + Encode(b[3..])
  }

  /** `base64.b64decode(..., validate=True)`: quads of the alphabet, padding only at the end. */
  function Decode(s: string): Option<Bytes>
    decreases |s|
  {
    if s == "" then Some([])
    else if |s| < 4 then None
    else
      match (Value(s[0]), Value(s[1]), Value(s[2]), Value(s[3]))
      case (Some(p), Some(q), Some(r), Some(t)) =>
        (match Decode(s[4..])
         case Some(rest) => Some([Byte0(p, q), Byte1(q, r), Byte2(r, t)] + rest)
         case None => None)
      case (Some(p), Some(q), Some(r), None) =>
        if |s| == 4 && s[3] == '=' then Some([Byte0(p, q), Byte1(q, r)]) else None
      case (Some(p), Some(q), None, None) =>
        if |s| == 4 && s[2] == '=' && s[3] == '=' then Some([Byte0(p, q)]) else None
      case _ => None
  }

  lemma DigitValue(v: Sextet)
    ensures Value(Digit(v)) == Some(v)
  {
  }

  /** Three bytes are four sextets and back. */
  lemma BytesOfSextets(x: Byte, y: Byte, z: Byte)
    ensures Byte0(Sextet0(x), Sextet1(x, y)) == x
    ensures Byte1(Sextet1(x, y), Sextet2(y, z)) == y
    ensures Byte2(Sextet2(y, z), Sextet3(z)) == z
  {
  }

  lemma DecodeFour(p: Sextet, q: Sextet, r: Sextet, t: Sextet, rest: string, tail: Bytes)
    requires Decode(rest) == Some(tail)
    ensures Decode([Digit(p), Digit(q), Digit(r), Digit(t)] + rest)
            == Some([Byte0(p, q), Byte1(q, r), Byte2(r, t)] + tail)
  {
    var s := [Digit(p), Digit(q), Digit(r), Digit(t)] + rest;
    DigitValue(p);
    DigitValue(q);
    DigitValue(r);
    DigitValue(t);
    assert s[4..] == rest;
  }

  lemma DecodeQuad(x: Byte, y: Byte, z: Byte, b: Bytes, rest: Bytes)
    requires |b| >= 3 && b[0] == x && b[1] == y && b[2] == z && b[3..] == rest
    requires Decode(Encode(rest)) == Some(rest)
    ensures Decode(Encode(b)) == Some([x, y, z] + rest)
  {
    var p, q, r, t := Sextet0(x), Sextet1(x, y), Sextet2(y, z), Sextet3(z);
    assert Encode(b) == [Digit(p), Digit(q), Digit(r), Digit(t)] + Encode(rest);
    DecodeFour(p, q, r, t, Encode(rest), rest);
    BytesOfSextets(x, y, z);
  }

  lemma DecodeThree(p: Sextet, q: Sextet, r: Sextet)
    ensures Decode([Digit(p), Digit(q), Digit(r), '=']) == Some([Byte0(p, q), Byte1(q, r)])
  {
    DigitValue(p);
    DigitValue(q);
    DigitValue(r);
  }

  lemma DecodeTwoBytes(x: Byte, y: Byte)
    ensures Decode(Encode([x, y])) == Some([x, y])
  {
    var p, q, r := Sextet0(x), Sextet1(x, y), Sextet2(y, 0);
    assert Encode([x, y]) == [Digit(p), Digit(q), Digit(r), '='];
    assert Byte0(p, q) == x && Byte1(q, r) == y by { BytesOfSextets(x, y, 0); }
    DecodeThree(p, q, r);
  }

  lemma DecodeOneByte(x: Byte)
    ensures Decode(Encode([x])) == Some([x])
  {
  }

  lemma OneOrTwo(b: Bytes)
    ensures |b| == 1 ==> b == [b[0]]
    ensures |b| == 2 ==> b == [b[0], b[1]]
  {
  }

  lemma DecodeSame(b: Bytes, c: Bytes)
    requires b == c && Decode(Encode(c)) == Some(c)
    ensures Decode(Encode(b)) == Some(b)
  {
  }

  lemma DecodeShort(b: Bytes)
    requires |b| < 3
    ensures Decode(Encode(b)) == Some(b)
  {
    OneOrTwo(b);
    if |b| == 2 {
      DecodeTwoBytes(b[0], b[1]);
      DecodeSame(b, [b[0], b[1]]);
    } else if |b| == 1 {
      DecodeOneByte(b[0]);
      DecodeSame(b, [b[0]]);
    }
  }

  lemma FirstThree(b: Bytes)
    requires |b| >= 3
    ensures b == [b[0], b[1], b[2]] + b[3..]
  {
  }

  /** Every file decodes to itself. */
  lemma {:induction false} DecodeEncode(b: Bytes)
    ensures Decode(Encode(b)) == Some(b)
    decreases |b|
  {
    if |b| >= 3 {
      FirstThree(b);
      DecodeEncode(b[3..]);
      DecodeQuad(b[0], b[1], b[2], b, b[3..]);
    } else {
      DecodeShort(b);
    }
  }

  // ---- wrapped text ----

  /** Characters `str.split()` splits at. */
  predicate IsSpace(c: char) {
    c in {' ', '\t', '\n', '\r'} || c as int in {0x0b, 0x0c, 0x1c, 0x1d, 0x1e, 0x1f, 0x85, 0xa0, 0x1680}
    || 0x2000 <= c as int <= 0x200a || c as int in {0x2028, 0x2029, 0x202f, 0x205f, 0x3000}
  }

  /** `"".join(text.split())`. */
  function Compact(text: string): string {
    if text == "" then "" else (if IsSpace(text[0]) then "" else [text[0]]) + Compact(text[1..])
  }

  /** `base64.encodebytes`: 57 bytes to a line of 76 characters (section 6.8 of RFC 2045), each line ended. */
  function EncodeLines(b: Bytes): string
    decreases |b|
  {
    if b == [] then ""
    else
      var n := if |b| < 57 then |b| else 57;
      Encode(b[..n]) + "\n" + EncodeLines(b[n..])
  }

  predicate Solid(s: string) {
    forall i :: 0 <= i < |s| ==> !IsSpace(s[i])
  }

  lemma {:induction false} CompactConcat(s: string, t: string)
    requires Solid(s)
    ensures Compact(s + t) == s + Compact(t)
  {
    if s == "" {
      assert s + t == t;
    } else {
      assert (s + t)[1..] == s[1..] + t;
      CompactConcat(s[1..], t);
    }
  }

  lemma DigitIsSolid(v: Sextet)
    ensures !IsSpace(Digit(v))
  {
  }

  lemma FourIsSolid(s: string)
    requires |s| == 4 && !IsSpace(s[0]) && !IsSpace(s[1]) && !IsSpace(s[2]) && !IsSpace(s[3])
    ensures Solid(s)
  {
  }

  lemma QuadIsSolid(x: Byte, y: Byte, z: Byte)
    ensures Solid(Quad(x, y, z))
  {
    DigitsAreSolid(Sextet0(x), Sextet1(x, y), Sextet2(y, z), Sextet3(z));
  }

  lemma DigitsAreSolid(p: Sextet, q: Sextet, r: Sextet, t: Sextet)
    ensures Solid([Digit(p), Digit(q), Digit(r), Digit(t)])
    ensures Solid([Digit(p), Digit(q), Digit(r), '=']) && Solid([Digit(p), Digit(q), '=', '='])
  {
    DigitIsSolid(p);
    DigitIsSolid(q);
    DigitIsSolid(r);
    DigitIsSolid(t);
    FourIsSolid([Digit(p), Digit(q), Digit(r), Digit(t)]);
    FourIsSolid([Digit(p), Digit(q), Digit(r), '=']);
    FourIsSolid([Digit(p), Digit(q), '=', '=']);
  }

  lemma ShortIsSolid(b: Bytes)
    requires |b| < 3
    ensures Solid(Encode(b)) && |Encode(b)| == if b == [] then 0 else 4
  {
    if |b| == 1 {
      DigitsAreSolid(Sextet0(b[0]), Sextet1(b[0], 0), 0, 0);
    } else if |b| == 2 {
      DigitsAreSolid(Sextet0(b[0]), Sextet1(b[0], b[1]), Sextet2(b[1], 0), 0);
    }
  }

  lemma SolidConcat(s: string, t: string)
    requires Solid(s) && Solid(t)
    ensures Solid(s + t)
  {
  }

  lemma ThirdsStep(n: nat)
    requires n >= 3
    ensures (n + 2) / 3 == 1 + (n - 3 + 2) / 3
  {
  }

  lemma {:induction false} EncodedIsSolid(b: Bytes)
    ensures Solid(Encode(b)) && |Encode(b)| == 4 * ((|b| + 2) / 3)
    decreases |b|
  {
    if |b| >= 3 {
      EncodedIsSolid(b[3..]);
      EncodeStep(b);
      QuadIsSolid(b[0], b[1], b[2]);
      SolidConcat(Quad(b[0], b[1], b[2]), Encode(b[3..]));
      ThirdsStep(|b|);
    } else {
      ShortIsSolid(b);
    }
  }

  lemma EncodeStep(b: Bytes)
    requires |b| >= 3
    ensures Encode(b) == Quad(b[0], b[1], b[2]) + Encode(b[3..])
  {
  }

  lemma {:induction false} EncodeConcat(a: Bytes, b: Bytes)
    requires |a| % 3 == 0
    ensures Encode(a + b) == Encode(a) + Encode(b)
    decreases |a|
  {
    if a == [] {
      assert a + b == b;
    } else {
      var rest := a[3..];
      assert (a + b)[3..] == rest + b;
      EncodeConcat(rest, b);
      EncodeStep(a);
      EncodeStep(a + b);
    }
  }

  lemma CompactLine(line: string, rest: string)
    requires Solid(line)
    ensures Compact(line + "\n" + rest) == line + Compact(rest)
  {
    assert line + "\n" + rest == line + ("\n" + rest);
    CompactConcat(line, "\n" + rest);
    assert ("\n" + rest)[1..] == rest;
  }

  lemma EncodeFirstLine(b: Bytes)
    requires |b| >= 57
    ensures Encode(b) == Encode(b[..57]) + Encode(b[57..])
  {
    var front, rest := b[..57], b[57..];
    assert 57 % 3 == 0;
    assert b == front + rest && |front| == 57;
    EncodeConcat(front, rest);
  }

  /** Taking the line ends out of wrapped text leaves the plain encoding. */
  lemma {:induction false} CompactLines(b: Bytes)
    ensures Compact(EncodeLines(b)) == Encode(b)
    decreases |b|
  {
    if b != [] {
      var n := if |b| < 57 then |b| else 57;
      EncodedIsSolid(b[..n]);
      CompactLine(Encode(b[..n]), EncodeLines(b[n..]));
      CompactLines(b[n..]);
      if n == 57 {
        EncodeFirstLine(b);
      } else {
        assert b[..n] == b && b[n..] == [];
      }
    }
  }

  // ---- the request's size ----

  /** Bytes of a text of base64 digits and newlines inside a JSON string: a newline is escaped as two. */
  function JsonLength(text: string): nat {
    if text == "" then 0 else (if text[0] == '\n' then 2 else 1) + JsonLength(text[1..])
  }

  lemma {:induction false} JsonLengthConcat(s: string, t: string)
    ensures JsonLength(s + t) == JsonLength(s) + JsonLength(t)
  {
    if s == "" {
      assert s + t == t;
    } else {
      assert (s + t)[1..] == s[1..] + t;
      JsonLengthConcat(s[1..], t);
    }
  }

  lemma {:induction false} JsonLengthSolid(s: string)
    requires Solid(s)
    ensures JsonLength(s) == |s|
  {
    if s != "" { JsonLengthSolid(s[1..]); }
  }

  function EncodedLength(size: nat): nat {
    4 * ((size + 2) / 3)
  }

  function Lines(size: nat): nat {
    (EncodedLength(size) + 75) / 76
  }

  /** `request_body_limit`. */
  function RequestBodyLimit(maxFileBytes: nat): nat {
    var encoded := 4 * ((maxFileBytes + 2) / 3);
    var lines := (encoded + 75) / 76;
    encoded + 2 * lines + 64 * 1024
  }

  /** Wrapped text takes its digits and two bytes for each line, to the byte. */
  lemma {:induction false} LinesLength(b: Bytes)
    ensures JsonLength(EncodeLines(b)) == EncodedLength(|b|) + 2 * Lines(|b|)
    decreases |b|
  {
    if b != [] {
      var n := if |b| < 57 then |b| else 57;
      var line, rest := Encode(b[..n]), EncodeLines(b[n..]);
      EncodedIsSolid(b[..n]);
      JsonLengthSolid(line);
      JsonLengthConcat(line, "\n");
      JsonLengthConcat(line + "\n", rest);
      assert JsonLength("\n") == 2;
      LinesLength(b[n..]);
      LineArithmetic(|b|);
    }
  }

  lemma LineArithmetic(size: nat)
    requires size > 0
    ensures size <= 57 ==> Lines(size) == 1
    ensures size >= 57 ==> EncodedLength(size) == 76 + EncodedLength(size - 57) && Lines(size) == 1 + Lines(size - 57)
  {
  }

  lemma LimitGrows(a: nat, b: nat)
    requires a <= b
    ensures EncodedLength(a) <= EncodedLength(b) && Lines(a) <= Lines(b)
  {
  }

  // ---- the gate and the tool ----

  /** The gate's check of the declared length. */
  predicate GateAccepts(declared: nat, maxFileBytes: nat) {
    declared <= RequestBodyLimit(maxFileBytes)
  }

  datatype ToolError = ValidationError | TooLarge

  /** `_decode`, then the size check of `upload_file`. */
  function UploadContent(text: string, maxFileBytes: nat): Result<Bytes, ToolError> {
    match Decode(Compact(text))
    case None => Err(ValidationError)
    case Some(content) => if |content| > maxFileBytes then Err(TooLarge) else Ok(content)
  }

  /** A file of any size, sent wrapped, comes out whole or is refused exactly when it is above the cap; every
      file within the cap passes the gate, whatever its envelope of up to 64 KiB. */
  lemma {:induction false} WrappedUpload(b: Bytes, envelope: nat, maxFileBytes: nat)
    requires envelope <= 64 * 1024
    ensures UploadContent(EncodeLines(b), maxFileBytes) == if |b| <= maxFileBytes then Ok(b) else Err(TooLarge)
    ensures |b| <= maxFileBytes ==> GateAccepts(JsonLength(EncodeLines(b)) + envelope, maxFileBytes)
  {
    CompactLines(b);
    DecodeEncode(b);
    LinesLength(b);
    if |b| <= maxFileBytes { LimitGrows(|b|, maxFileBytes); }
  }

  /** Unwrapped text too. */
  lemma {:induction false} PlainUpload(b: Bytes, envelope: nat, maxFileBytes: nat)
    requires envelope <= 64 * 1024
    ensures UploadContent(Encode(b), maxFileBytes) == if |b| <= maxFileBytes then Ok(b) else Err(TooLarge)
    ensures |b| <= maxFileBytes ==> GateAccepts(JsonLength(Encode(b)) + envelope, maxFileBytes)
  {
    EncodedIsSolid(b);
    CompactConcat(Encode(b), "");
    assert Encode(b) + "" == Encode(b);
    DecodeEncode(b);
    JsonLengthSolid(Encode(b));
    if |b| <= maxFileBytes { LimitGrows(|b|, maxFileBytes); }
  }
}
