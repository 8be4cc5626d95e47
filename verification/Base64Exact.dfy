/** Base64 told by its alphabet, apart from how it is computed: what is encoded as what, and what is accepted. */
module Base64Exact {
  import opened Common
  import opened Model
  import opened Base64

  // ---- the alphabet ----

  const CAPITALS := "ABCDEFGHIJKLMNOPQRSTUVWXYZ"
  const SMALL := "abcdefghijklmnopqrstuvwxyz"
  const REST := "0123456789+/"
  const ALPHABET := CAPITALS + SMALL + REST

  lemma LetterCodes()
    ensures |CAPITALS| == |SMALL| == 26
    ensures forall k :: 0 <= k < 26 ==> CAPITALS[k] as int == 65 + k && SMALL[k] as int == 97 + k
  {
  }

  lemma RestCodes()
    ensures |REST| == 12 && REST[10] == '+' && REST[11] == '/'
    ensures forall k :: 0 <= k < 10 ==> REST[k] as int == 48 + k
  {
  }

  lemma AlphabetCodes()
    ensures |ALPHABET| == 64 && ALPHABET[62] == '+' && ALPHABET[63] == '/'
    ensures forall k :: 0 <= k < 26 ==> ALPHABET[k] as int == 65 + k
    ensures forall k :: 26 <= k < 52 ==> ALPHABET[k] as int == 71 + k
    ensures forall k :: 52 <= k < 62 ==> ALPHABET[k] as int == k - 4
  {
    LetterCodes();
    RestCodes();
    assert forall k :: 0 <= k < 26 ==> ALPHABET[k] == CAPITALS[k];
    assert forall k :: 26 <= k < 52 ==> ALPHABET[k] == SMALL[k - 26];
    assert forall k :: 52 <= k < 64 ==> ALPHABET[k] == REST[k - 52];
  }

  lemma DigitsAreAlphabet(v: Sextet)
    ensures |ALPHABET| == 64 && Digit(v) == ALPHABET[v]
  {
    AlphabetCodes();
  }

  lemma ValueInAlphabet(c: char)
    ensures Value(c).Some? <==> c in ALPHABET
  {
    AlphabetCodes();
    if Value(c).Some? {
      DigitsAreAlphabet(Value(c).value);
    } else if c in ALPHABET {
      var v :| 0 <= v < 64 && ALPHABET[v] == c;
      DigitsAreAlphabet(v);
      DigitValue(v);
    }
  }

  /** The digits of the code, given as a text of 64 characters. */
  ghost predicate Digits(alphabet: string) {
    |alphabet| == 64 && forall v: Sextet :: Digit(v) == alphabet[v]
  }

  lemma AlphabetIsDigits()
    ensures Digits(ALPHABET)
  {
    forall v: Sextet ensures |ALPHABET| == 64 && Digit(v) == ALPHABET[v] { DigitsAreAlphabet(v); }
  }

  // ---- encoding ----

  datatype Group = Group(p: Sextet, q: Sextet, r: Sextet, t: Sextet)

  function ByteAt(b: Bytes, i: nat): Byte {
    if i < |b| then b[i] else 0
  }

  function Bits(g: Group): int {
    g.p as int * 262144 + g.q as int * 4096 + g.r as int * 64 + g.t as int
  }

  /** Four characters for up to three bytes: digits with the same 24 bits, most significant first, and padding for
      the bytes that are missing. */
  predicate Writes(alphabet: string, s: string, i: nat, g: Group, b: Bytes, j: nat)
    requires |alphabet| == 64 && i + 4 <= |s| && j < |b|
  {
    s[i] == alphabet[g.p] && s[i + 1] == alphabet[g.q]
    && s[i + 2] == (if |b| - j >= 2 then alphabet[g.r] else '=')
    && s[i + 3] == (if |b| - j >= 3 then alphabet[g.t] else '=')
    && Bits(g) == ByteAt(b, j) as int * 65536 + ByteAt(b, j + 1) as int * 256 + ByteAt(b, j + 2) as int
  }

  lemma SextetBits(x: Byte, y: Byte, z: Byte)
    ensures Bits(Group(Sextet0(x), Sextet1(x, y), Sextet2(y, z), Sextet3(z)))
            == x as int * 65536 + y as int * 256 + z as int
  {
  }

  lemma FirstGroup(alphabet: string, b: Bytes) returns (g: Group)
    requires b != [] && Digits(alphabet)
    ensures |Encode(b)| >= 4 && Writes(alphabet, Encode(b), 0, g, b, 0)
  {
    var (x, y, z) := (ByteAt(b, 0), ByteAt(b, 1), ByteAt(b, 2));
    g := Group(Sextet0(x), Sextet1(x, y), Sextet2(y, z), Sextet3(z));
    SextetBits(x, y, z);
  }

  lemma WritesLater(alphabet: string, s: string, i: nat, g: Group, b: Bytes, j: nat, front: string, first: Bytes)
    requires |alphabet| == 64 && i + 4 <= |s| && j < |b| && Writes(alphabet, s, i, g, b, j)
    ensures Writes(alphabet, front + s, |front| + i, g, first + b, |first| + j)
  {
  }

  lemma {:induction false} GroupAt(alphabet: string, b: Bytes, k: nat) returns (g: Group)
    requires 3 * k < |b| && Digits(alphabet)
    ensures 4 * k + 4 <= |Encode(b)| && Writes(alphabet, Encode(b), 4 * k, g, b, 3 * k)
    decreases k
  {
    if k == 0 {
      g := FirstGroup(alphabet, b);
    } else {
      g := GroupAt(alphabet, b[3..], k - 1);
      EncodeStep(b);
      WritesLater(alphabet, Encode(b[3..]), 4 * (k - 1), g, b[3..], 3 * (k - 1), Quad(b[0], b[1], b[2]), b[..3]);
      assert b[..3] + b[3..] == b;
    }
  }

  /** Each three bytes are four characters of the alphabet, and there is nothing else. */
  lemma EncodeExactly(b: Bytes, k: nat) returns (g: Group)
    requires 3 * k < |b|
    ensures |ALPHABET| == 64 && |Encode(b)| == 4 * ((|b| + 2) / 3) && 4 * k + 4 <= |Encode(b)|
    ensures Writes(ALPHABET, Encode(b), 4 * k, g, b, 3 * k)
  {
    AlphabetIsDigits();
    EncodedIsSolid(b);
    g := GroupAt(ALPHABET, b, k);
  }

  // ---- decoding ----

  /** Whole groups of digits of the alphabet, with up to two characters of padding at the end. */
  predicate Padded(s: string, pad: nat) {
    |s| % 4 == 0 && pad <= 2 && pad <= |s|
    && forall i :: 0 <= i < |s| ==> if i < |s| - pad then s[i] in ALPHABET else s[i] == '='
  }

  predicate PaddedValues(s: string, pad: nat) {
    |s| % 4 == 0 && pad <= 2 && pad <= |s|
    && forall i :: 0 <= i < |s| ==> if i < |s| - pad then Value(s[i]).Some? else s[i] == '='
  }

  lemma PaddedByValue(s: string, pad: nat)
    ensures Padded(s, pad) <==> PaddedValues(s, pad)
  {
    forall i | 0 <= i < |s| ensures s[i] in ALPHABET <==> Value(s[i]).Some? { ValueInAlphabet(s[i]); }
  }

  predicate FourValues(s: string) {
    |s| >= 4 && Value(s[0]).Some? && Value(s[1]).Some? && Value(s[2]).Some? && Value(s[3]).Some?
  }

  lemma PaddedLater(s: string, pad: nat)
    requires |s| > 4
    ensures PaddedValues(s, pad) <==> FourValues(s) && PaddedValues(s[4..], pad)
  {
    var rest := s[4..];
    if FourValues(s) && PaddedValues(rest, pad) {
      forall i | 0 <= i < |s| ensures if i < |s| - pad then Value(s[i]).Some? else s[i] == '=' {
        if i >= 4 { assert s[i] == rest[i - 4]; }
      }
    }
    if PaddedValues(s, pad) {
      assert |rest| >= 4;
      forall i | 0 <= i < |rest| ensures if i < |rest| - pad then Value(rest[i]).Some? else rest[i] == '=' {
        assert rest[i] == s[i + 4];
      }
    }
  }

  lemma DecodeLater(s: string)
    requires |s| > 4
    ensures Decode(s).Some? <==> FourValues(s) && Decode(s[4..]).Some?
  {
  }

  /** The three shapes of four characters. */
  predicate OneGroup(s: string)
    requires |s| == 4
  {
    FourValues(s)
    || (Value(s[0]).Some? && Value(s[1]).Some? && s[3] == '=' && (Value(s[2]).Some? || s[2] == '='))
  }

  lemma OneGroupPadded(s: string)
    requires |s| == 4
    ensures OneGroup(s) <==> PaddedValues(s, 0) || PaddedValues(s, 1) || PaddedValues(s, 2)
  {
    assert PaddedValues(s, 0) <==> FourValues(s);
    assert PaddedValues(s, 1) <==> Value(s[0]).Some? && Value(s[1]).Some? && Value(s[2]).Some? && s[3] == '=';
    assert PaddedValues(s, 2) <==> Value(s[0]).Some? && Value(s[1]).Some? && s[2] == '=' && s[3] == '=';
  }

  lemma OneGroupDecodes(s: string)
    requires |s| == 4
    ensures Decode(s).Some? <==> OneGroup(s)
  {
    assert s[4..] == "" && Decode(s[4..]) == Some([]);
  }

  lemma DecodeOne(s: string)
    requires |s| <= 4
    ensures Decode(s).Some? <==> PaddedValues(s, 0) || PaddedValues(s, 1) || PaddedValues(s, 2)
  {
    if |s| == 4 {
      OneGroupPadded(s);
      OneGroupDecodes(s);
    }
  }

  lemma {:induction false} DecodeAccepts(s: string)
    ensures Decode(s).Some? <==> PaddedValues(s, 0) || PaddedValues(s, 1) || PaddedValues(s, 2)
    decreases |s|
  {
    if |s| > 4 {
      DecodeAccepts(s[4..]);
      DecodeLater(s);
      PaddedLater(s, 0);
      PaddedLater(s, 1);
      PaddedLater(s, 2);
    } else {
      DecodeOne(s);
    }
  }

  /** Four characters are read as up to three bytes: the leading bits of the digits, padding where a byte is missing. */
  predicate Reads(alphabet: string, s: string, i: nat, g: Group, b: Bytes, j: nat)
    requires |alphabet| == 64 && i + 4 <= |s| && j < |b|
  {
    s[i] == alphabet[g.p] && s[i + 1] == alphabet[g.q]
    && s[i + 2] == (if |b| - j >= 2 then alphabet[g.r] else '=')
    && s[i + 3] == (if |b| - j >= 3 then alphabet[g.t] else '=')
    && if |b| - j >= 3 then Bits(g) == b[j] as int * 65536 + b[j + 1] as int * 256 + b[j + 2] as int
       else if |b| - j == 2 then Bits(g) / 256 == b[j] as int * 256 + b[j + 1] as int
       else Bits(g) / 65536 == b[j] as int
  }

  lemma ByteBits(p: Sextet, q: Sextet, r: Sextet, t: Sextet)
    ensures Bits(Group(p, q, r, t))
            == Byte0(p, q) as int * 65536 + Byte1(q, r) as int * 256 + Byte2(r, t) as int
    ensures Bits(Group(p, q, r, t)) / 256 == Byte0(p, q) as int * 256 + Byte1(q, r) as int
    ensures Bits(Group(p, q, r, t)) / 65536 == Byte0(p, q) as int
  {
  }

  lemma ValueIsDigit(c: char)
    ensures Value(c).Some? ==> Digit(Value(c).value) == c
  {
  }

  function GroupOf(s: string): Group
    requires |s| >= 4
  {
    Group(ValueOr0(s[0]), ValueOr0(s[1]), ValueOr0(s[2]), ValueOr0(s[3]))
  }

  function ValueOr0(c: char): Sextet {
    match Value(c) case Some(v) => v case None => 0
  }

  lemma ReadsFirst(alphabet: string, s: string, b: Bytes)
    requires Digits(alphabet) && s != "" && Decode(s) == Some(b)
    ensures |s| >= 4 && b != [] && Reads(alphabet, s, 0, GroupOf(s), b, 0)
    ensures |s| > 4 ==> |b| >= 3 && Decode(s[4..]) == Some(b[3..])
  {
    var g := GroupOf(s);
    ByteBits(g.p, g.q, g.r, g.t);
    ValueIsDigit(s[0]);
    ValueIsDigit(s[1]);
    ValueIsDigit(s[2]);
    ValueIsDigit(s[3]);
    if FourValues(s) {
      var rest := Decode(s[4..]).value;
      assert b == [Byte0(g.p, g.q), Byte1(g.q, g.r), Byte2(g.r, g.t)] + rest;
      assert b[3..] == rest;
    }
  }

  lemma ReadsLater(alphabet: string, s: string, i: nat, g: Group, b: Bytes, j: nat)
    requires |alphabet| == 64 && i + 8 <= |s| && j + 3 < |b|
    requires Reads(alphabet, s[4..], i, g, b[3..], j)
    ensures Reads(alphabet, s, i + 4, g, b, j + 3)
  {
  }

  lemma {:induction false} ReadAt(alphabet: string, s: string, b: Bytes, k: nat) returns (g: Group)
    requires Digits(alphabet) && Decode(s) == Some(b) && 4 * k < |s|
    ensures 4 * k + 4 <= |s| && 3 * k < |b| && Reads(alphabet, s, 4 * k, g, b, 3 * k)
    decreases k
  {
    ReadsFirst(alphabet, s, b);
    if k == 0 {
      g := GroupOf(s);
    } else {
      g := ReadAt(alphabet, s[4..], b[3..], k - 1);
      ReadsLater(alphabet, s, 4 * (k - 1), g, b, 3 * (k - 1));
    }
  }

  lemma {:induction false} DecodedLength(s: string, pad: nat)
    requires PaddedValues(s, pad)
    ensures Decode(s).Some? && |Decode(s).value| == 3 * (|s| / 4) - pad
    decreases |s|
  {
    DecodeAccepts(s);
    if |s| > 4 {
      PaddedLater(s, pad);
      DecodedLength(s[4..], pad);
    }
  }

  /** Text is accepted exactly when it is whole groups of the alphabet with up to two paddings at the end; each group
      of four characters then is three bytes, and the last as many less as there is padding. */
  lemma DecodeExactly(s: string)
    ensures Decode(s).Some? <==> Padded(s, 0) || Padded(s, 1) || Padded(s, 2)
    ensures forall pad :: Padded(s, pad) ==> Decode(s).Some? && |Decode(s).value| == 3 * (|s| / 4) - pad
  {
    PaddedByValue(s, 0);
    PaddedByValue(s, 1);
    PaddedByValue(s, 2);
    DecodeAccepts(s);
    forall pad | Padded(s, pad) ensures Decode(s).Some? && |Decode(s).value| == 3 * (|s| / 4) - pad {
      PaddedByValue(s, pad);
      DecodedLength(s, pad);
    }
  }

  lemma DecodeReads(s: string, b: Bytes, k: nat) returns (g: Group)
    requires Decode(s) == Some(b) && 4 * k < |s|
    ensures |ALPHABET| == 64 && 4 * k + 4 <= |s| && 3 * k < |b| && Reads(ALPHABET, s, 4 * k, g, b, 3 * k)
  {
    AlphabetIsDigits();
    g := ReadAt(ALPHABET, s, b, k);
  }

  // ---- the tool and the gate ----

  /** The white space of Unicode as `str.split` sees it. */
  const WHITE: set<int> :=
    {9, 10, 11, 12, 13, 28, 29, 30, 31, 32, 133, 160, 5760, 8192, 8193, 8194, 8195, 8196, 8197, 8198, 8199, 8200, 8201,
     8202, 8232, 8233, 8239, 8287, 12288}

  function Without(text: string, white: set<int>): string {
    if text == "" then ""
    else if text[0] as int in white then Without(text[1..], white)
    else [text[0]] + Without(text[1..], white)
  }

  lemma SpaceIsWhite(c: char)
    ensures IsSpace(c) <==> c as int in WHITE
  {
  }

  lemma {:induction false} CompactIsWithout(text: string)
    ensures Compact(text) == Without(text, WHITE)
  {
    if text != "" {
      SpaceIsWhite(text[0]);
      CompactIsWithout(text[1..]);
    }
  }

  /** A tool call is refused as invalid exactly when its text, white space aside, is not groups of the alphabet with
      padding; as too large exactly when it is and holds more bytes than the cap. */
  lemma UploadRefusedExactly(text: string, cap: nat)
    ensures var (kept, r) := (Without(text, WHITE), UploadContent(text, cap));
            (r == Err(ValidationError) <==> forall pad :: !Padded(kept, pad))
            && (forall pad :: Padded(kept, pad) ==>
                  (r == Err(TooLarge) <==> 3 * (|kept| / 4) - pad > cap)
                  && (r.Ok? ==> Decode(kept) == Some(r.value)))
  {
    var kept := Without(text, WHITE);
    CompactIsWithout(text);
    DecodeExactly(kept);
    assert forall pad :: Padded(kept, pad) ==> pad == 0 || pad == 1 || pad == 2;
  }

  /** The gate refuses a request exactly when it is longer than the wrapped form of a file at the cap with an envelope
      of 64 KiB. */
  lemma GateExactly(largest: Bytes, declared: nat)
    ensures GateAccepts(declared, |largest|) <==> declared <= JsonLength(EncodeLines(largest)) + 65536
  {
    LinesLength(largest);
    LimitIs(|largest|);
  }

  lemma LimitIs(size: nat)
    ensures RequestBodyLimit(size) == EncodedLength(size) + 2 * Lines(size) + 65536
  {
  }
}
