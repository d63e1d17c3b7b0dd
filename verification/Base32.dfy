/**
 The base32 encoder and decoder of the two-factor service. Both loops keep a 32-bit accumulator that is never masked;
 they are proved against the bit-string regrouping of section 6 of RFC 4648, written without padding.
 */
module Base32 {
  import opened Common
  import opened JsBits

  const ALPHABET := "ABCDEFGHIJKLMNOPQRSTUVWXYZ234567"

  // ---------- the bit-string specification ----------

  function BytesBits(data: seq<byte>): (bits: Bits)
    ensures |bits| == 8 * |data|
  {
    if data == [] then [] else LowBits(data[0], 8) + BytesBits(data[1..])
  }

  function SymbolChar(v: nat): (c: char)
    requires v < 32
    ensures c in ALPHABET
  {
    ALPHABET[v]
  }

  /** Values 0 to 25 are the letters A to Z, values 26 to 31 the digits 2 to 7. */
  lemma AlphabetMeaning(v: nat)
    requires v < 32
    ensures SymbolChar(v) as int == if v < 26 then 'A' as int + v else '2' as int + (v - 26)
  {
  }

  /** Groups of five bits from the left, the last one completed with zeros on the right. */
  function Encode(bits: Bits): (text: string)
    ensures |text| == (|bits| + 4) / 5
    ensures forall c <- text :: c in ALPHABET
  {
    if bits == [] then ""
    else if |bits| < 5 then [SymbolChar(Val5(bits + Zeros(5 - |bits|)))]
    else [SymbolChar(Val5(bits[..5]))] + Encode(bits[5..])
  }

  /** Groups of eight bits from the left; an incomplete last group is dropped. */
  function Decode(bits: Bits): (data: seq<byte>)
    ensures |data| == |bits| / 8
  {
    if |bits| < 8 then [] else [Val8(bits[..8])] + Decode(bits[8..])
  }

  function IndexOf(c: char, text: string): (i: int)
    ensures -1 <= i < |text|
    ensures i >= 0 ==> text[i] == c
    ensures i == -1 <==> c !in text
    decreases |text|, c
  {
    if text == "" then -1
    else if text[0] == c then 0
    else
      var i := IndexOf(c, text[1..]);
      if i == -1 then -1 else i + 1
  }

  /** The bits spelled by the symbols of a text; other characters are skipped. */
  function SymbolBits(text: string): Bits {
    if text == "" then []
    else
      var idx := IndexOf(text[0], ALPHABET);
      (if idx == -1 then [] else LowBits(idx, 5)) + SymbolBits(text[1..])
  }

  function StripPadding(text: string): string {
    if text != "" && text[|text| - 1] == '=' then StripPadding(text[..|text| - 1]) else text
  }

  function UpperChar(c: char): char {
    if 'a' <= c <= 'z' then c - 'a' + 'A' else c
  }

  function ToUpper(text: string): (upper: string)
    ensures |upper| == |text|
  {
    seq(|text|, i requires 0 <= i < |text| => UpperChar(text[i]))
  }

  function Normalize(text: string): string {
    ToUpper(StripPadding(text))
  }

  function EncodeBytes(data: seq<byte>): string {
    Encode(BytesBits(data))
  }

  function DecodeText(text: string): seq<byte> {
    Decode(SymbolBits(Normalize(text)))
  }

  // ---------- the loops ----------

  /** One pass of the encoder's inner loop takes the five oldest pending bits. */
  lemma TakeSymbol(output: string, value: nat, bits: nat, rest: Bits)
    requires bits >= 5
    ensures And(Ushr(value, bits - 5), 0x1f) < 32
    ensures output + Encode(LowBits(value, bits) + rest) ==
            output + [SymbolChar(And(Ushr(value, bits - 5), 0x1f))] + Encode(LowBits(value, bits - 5) + rest)
  {
    ReadSymbol(value, bits - 5);
    var all := LowBits(value, bits) + rest;
    assert all[..5] == LowBits(value, bits)[..5];
    assert all[5..] == LowBits(value, bits)[5..] + rest;
    Assoc(output, [SymbolChar(And(Ushr(value, bits - 5), 0x1f))], Encode(all[5..]));
  }

  lemma TakeByte(output: seq<byte>, value: nat, bits: nat, rest: Bits)
    requires bits >= 8
    ensures And(Ushr(value, bits - 8), 0xff) < 256
    ensures output + Decode(LowBits(value, bits) + rest) ==
            output + [And(Ushr(value, bits - 8), 0xff)] + Decode(LowBits(value, bits - 8) + rest)
  {
    ReadByte(value, bits - 8);
    var all := LowBits(value, bits) + rest;
    assert all[..8] == LowBits(value, bits)[..8];
    assert all[8..] == LowBits(value, bits)[8..] + rest;
    Assoc(output, [And(Ushr(value, bits - 8), 0xff)], Decode(all[8..]));
  }

  /** The bits still to be encoded, before and after a byte moves into the accumulator. */
  lemma PendingByte(value: nat, bits: nat, buffer: seq<byte>, i: nat)
    requires i < |buffer| && bits <= 24
    ensures Or(Shl(value, 8), buffer[i]) < TWO_TO_THE_32
    ensures LowBits(value, bits) + BytesBits(buffer[i..]) ==
            LowBits(Or(Shl(value, 8), buffer[i]), bits + 8) + BytesBits(buffer[i + 1..])
  {
    ShiftInByte(value, buffer[i], bits);
    assert buffer[i..][1..] == buffer[i + 1..];
    Assoc(LowBits(value, bits), LowBits(buffer[i], 8), BytesBits(buffer[i + 1..]));
  }

  /** The bits still to be decoded, before and after a symbol moves into the accumulator. */
  lemma PendingSymbol(value: nat, bits: nat, text: string, i: nat)
    requires i < |text| && bits <= 27
    ensures var idx := IndexOf(text[i], ALPHABET);
            if idx == -1 then SymbolBits(text[i..]) == SymbolBits(text[i + 1..])
            else
              && Or(Shl(value, 5), idx) < TWO_TO_THE_32
              && LowBits(value, bits) + SymbolBits(text[i..]) ==
                 LowBits(Or(Shl(value, 5), idx), bits + 5) + SymbolBits(text[i + 1..])
  {
    assert text[i..][1..] == text[i + 1..];
    var idx := IndexOf(text[i], ALPHABET);
    if idx == -1 {
      assert [] + SymbolBits(text[i + 1..]) == SymbolBits(text[i + 1..]);
    } else {
      ShiftInSymbol(value, idx, bits);
      Assoc(LowBits(value, bits), LowBits(idx, 5), SymbolBits(text[i + 1..]));
    }
  }

  lemma FinishSymbol(output: string, value: nat, bits: nat, buffer: seq<byte>)
    requires bits < 5
    ensures bits > 0 ==> And(Shl(value, 5 - bits), 0x1f) < 32
    ensures output + Encode(LowBits(value, bits) + BytesBits(buffer[|buffer|..])) ==
            if bits > 0 then output + [SymbolChar(And(Shl(value, 5 - bits), 0x1f))] else output
  {
    assert LowBits(value, bits) + BytesBits([]) == LowBits(value, bits);
    if bits > 0 {
      ReadLastSymbol(value, bits);
    }
  }

  method Base32Encode(buffer: seq<byte>) returns (output: string)
    ensures output == EncodeBytes(buffer)
  {
    var bits: nat, value: nat := 0, 0;
    output := "";
    ghost var todo := BytesBits(buffer);
    assert [] + todo == todo && buffer[0..] == buffer;
    for i := 0 to |buffer|
      invariant bits < 5
      invariant todo == LowBits(value, bits) + BytesBits(buffer[i..])
      invariant output + Encode(todo) == EncodeBytes(buffer)
    {
      PendingByte(value, bits, buffer, i);
      ghost var rest := BytesBits(buffer[i + 1..]);
      value := Or(Shl(value, 8), buffer[i]);
      bits := bits + 8;
      while bits >= 5
        invariant todo == LowBits(value, bits) + rest
        invariant output + Encode(todo) == EncodeBytes(buffer)
      {
        TakeSymbol(output, value, bits, rest);
        output := output + [SymbolChar(And(Ushr(value, bits - 5), 0x1f))];
        bits := bits - 5;
        todo := LowBits(value, bits) + rest;
      }
    }
    FinishSymbol(output, value, bits, buffer);
    if bits > 0 {
      output := output + [SymbolChar(And(Shl(value, 5 - bits), 0x1f))];
    }
  }

  method Base32Decode(encoded: string) returns (output: seq<byte>)
    ensures output == DecodeText(encoded)
  {
    var stripped := Normalize(encoded);
    var bits: nat, value: nat := 0, 0;
    output := [];
    ghost var todo := SymbolBits(stripped);
    assert [] + todo == todo && stripped[0..] == stripped;
    for i := 0 to |stripped|
      invariant bits < 8
      invariant todo == LowBits(value, bits) + SymbolBits(stripped[i..])
      invariant output + Decode(todo) == DecodeText(encoded)
    {
      PendingSymbol(value, bits, stripped, i);
      var idx := IndexOf(stripped[i], ALPHABET);
      if idx == -1 {
        continue;
      }
      value := Or(Shl(value, 5), idx);
      bits := bits + 5;
      if bits >= 8 {
        TakeByte(output, value, bits, SymbolBits(stripped[i + 1..]));
        todo := LowBits(value, bits - 8) + SymbolBits(stripped[i + 1..]);
        output := output + [And(Ushr(value, bits - 8), 0xff)];
        bits := bits - 8;
      }
    }
    assert todo == LowBits(value, bits);
  }

  // ---------- what the specification promises ----------

  lemma {:induction false} IndexOfAt(i: nat, text: string)
    requires i < |text| && (forall j, k :: 0 <= j < k < |text| ==> text[j] != text[k])
    ensures IndexOf(text[i], text) == i
  {
    if i > 0 {
      assert text[0] != text[i];
      IndexOfAt(i - 1, text[1..]);
    }
  }

  lemma SymbolReadsBack(v: nat)
    requires v < 32
    ensures IndexOf(SymbolChar(v), ALPHABET) == v
  {
    IndexOfAt(v, ALPHABET);
  }

  /** The number of zeros that complete n bits to groups of five. */
  function PadBits(n: nat): (pad: nat)
    ensures pad < 5 && (n + pad) % 5 == 0
  {
    if n == 0 then 0 else if n < 5 then 5 - n else PadBits(n - 5)
  }

  /** Reading the symbols back gives the encoded bits and fewer than five zeros. */
  lemma {:induction false} SymbolsSpellTheBits(bits: Bits)
    ensures SymbolBits(Encode(bits)) == bits + Zeros(PadBits(|bits|))
  {
    if |bits| < 5 {
      LastSymbolSpells(bits);
    } else {
      var group, rest := bits[..5], bits[5..];
      OneSymbol(group, Encode(rest));
      SymbolsSpellTheBits(rest);
      Assoc(group, rest, Zeros(PadBits(|bits|)));
      assert bits == group + rest;
    }
  }

  lemma LastSymbolSpells(bits: Bits)
    requires |bits| < 5
    ensures SymbolBits(Encode(bits)) == bits + Zeros(PadBits(|bits|))
  {
    if bits == [] {
      assert PadBits(0) == 0 && [] + Zeros(0) == [];
    } else {
      assert PadBits(|bits|) == 5 - |bits|;
      GroupSpells(bits + Zeros(5 - |bits|));
    }
  }

  lemma GroupSpells(group: Bits)
    requires |group| == 5
    ensures SymbolBits([SymbolChar(Val5(group))]) == group
  {
    OneSymbol(group, "");
    assert [SymbolChar(Val5(group))] + "" == [SymbolChar(Val5(group))] && group + [] == group;
  }

  lemma OneSymbol(group: Bits, rest: string)
    requires |group| == 5
    ensures SymbolBits([SymbolChar(Val5(group))] + rest) == group + SymbolBits(rest)
  {
    SymbolReadsBack(Val5(group));
    Val5Inverse(group);
    assert ([SymbolChar(Val5(group))] + rest)[1..] == rest;
  }

  lemma DecodeFirst(b: byte, rest: Bits)
    ensures Decode(LowBits(b, 8) + rest) == [b] + Decode(rest)
  {
    var bits := LowBits(b, 8) + rest;
    assert bits[..8] == LowBits(b, 8) && bits[8..] == rest;
    Val8Inverse(b);
  }

  lemma {:induction false} DecodeOfPaddedBytes(data: seq<byte>, pad: nat)
    requires pad < 8
    ensures Decode(BytesBits(data) + Zeros(pad)) == data
  {
    if data == [] {
      assert BytesBits(data) + Zeros(pad) == Zeros(pad);
    } else {
      var rest := BytesBits(data[1..]) + Zeros(pad);
      Assoc(LowBits(data[0], 8), BytesBits(data[1..]), Zeros(pad));
      DecodeFirst(data[0], rest);
      DecodeOfPaddedBytes(data[1..], pad);
      assert data == [data[0]] + data[1..];
    }
  }

  lemma AlphabetRange(c: char, alphabet: string)
    requires alphabet == ALPHABET && c in alphabet
    ensures 'A' <= c <= 'Z' || '2' <= c <= '7'
  {
  }

  /** Decoding an encoding gives the bytes back, for every byte string. */
  lemma RoundTrip(data: seq<byte>)
    ensures DecodeText(EncodeBytes(data)) == data
    ensures |EncodeBytes(data)| == (8 * |data| + 4) / 5
  {
    var bits := BytesBits(data);
    NormalizeMixedCase(Encode(bits), Encode(bits), 0);
    assert Encode(bits) + seq(0, _ => '=') == Encode(bits);
    SymbolsSpellTheBits(bits);
    DecodeOfPaddedBytes(data, PadBits(|bits|));
  }

  /** Encodings are unique: two byte strings with one text are equal. */
  lemma EncodeInjective(a: seq<byte>, b: seq<byte>)
    requires EncodeBytes(a) == EncodeBytes(b)
    ensures a == b
  {
    RoundTrip(a);
    RoundTrip(b);
  }

  /** Every typed character is that of the text, or the small form of its capital letter. */
  predicate SameLetters(typed: string, text: string) {
    && |typed| == |text|
    && forall i | 0 <= i < |text| ::
         typed[i] == text[i] || ('A' <= text[i] <= 'Z' && typed[i] as int == text[i] as int - 'A' as int + 'a' as int)
  }

  lemma NormalizeMixedCase(typed: string, text: string, pads: nat)
    requires forall c <- text :: c in ALPHABET
    requires typed == text || SameLetters(typed, text)
    ensures Normalize(typed + seq(pads, _ => '=')) == text
  {
    forall i | 0 <= i < |text|
      ensures typed[i] != '=' && UpperChar(typed[i]) == text[i]
    {
      AlphabetRange(text[i], ALPHABET);
    }
    StripAllPadding(typed, pads);
    assert ToUpper(typed) == text;
  }

  /** A secret typed in any case, with padding added, decodes to the same bytes. */
  lemma CaseAndPaddingIgnored(data: seq<byte>, typed: string, pads: nat)
    requires SameLetters(typed, EncodeBytes(data))
    ensures DecodeText(typed + seq(pads, _ => '=')) == data
  {
    NormalizeMixedCase(typed, EncodeBytes(data), pads);
    NormalizeMixedCase(EncodeBytes(data), EncodeBytes(data), 0);
    RoundTrip(data);
    assert EncodeBytes(data) + seq(0, _ => '=') == EncodeBytes(data);
  }

  lemma {:induction false} SkippedInside(a: string, c: char, b: string)
    requires c !in ALPHABET
    ensures SymbolBits(a + [c] + b) == SymbolBits(a + b)
    decreases |a|
  {
    var with, without := a + [c] + b, a + b;
    if a == "" {
      assert with[1..] == b && without == b;
    } else {
      assert with[1..] == a[1..] + [c] + b && without[1..] == a[1..] + b;
      SkippedInside(a[1..], c, b);
    }
  }

  /** A character that is no letter and no digit from 2 to 7 is skipped, wherever it stands before the last symbol. */
  lemma OthersAreSkipped(a: string, c: char, b: string)
    requires !('a' <= c <= 'z') && !('A' <= c <= 'Z') && !('2' <= c <= '7')
    requires b != "" && b[|b| - 1] != '='
    ensures DecodeText(a + [c] + b) == DecodeText(a + b)
  {
    var up, down := ToUpper(a), ToUpper(b);
    assert Normalize(a + [c] + b) == up + [c] + down && Normalize(a + b) == up + down;
    if c in ALPHABET {
      AlphabetRange(c, ALPHABET);
    }
    SkippedInside(up, c, down);
  }

  lemma {:induction false} StripAllPadding(text: string, pads: nat)
    requires text == "" || text[|text| - 1] != '='
    ensures StripPadding(text + seq(pads, _ => '=')) == text
  {
    if pads == 0 {
      assert text + seq(pads, _ => '=') == text;
    } else {
      var padded := text + seq(pads, _ => '=');
      assert padded[..|padded| - 1] == text + seq(pads - 1, _ => '=');
      StripAllPadding(text, pads - 1);
    }
  }
}
