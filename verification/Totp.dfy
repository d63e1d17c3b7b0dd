/**
 One-time passwords of the two-factor service: the counter buffer, dynamic truncation (sections 5.2 and 5.3 of
 RFC 4226) and the time window of section 5.2 of RFC 6238. HMAC-SHA-1 is any function to 20 bytes.
 */
module Totp {
  import opened JsBits
  import Base32

  const TOTP_STEP := 30
  const TOTP_DIGITS := 6
  const TOTP_WINDOW := 1

  /** HMAC-SHA-1: a key and a message give 20 bytes. */
  type Mac = mac: (seq<byte>, seq<byte>) -> seq<byte> | forall key, msg :: |mac(key, msg)| == 20
    witness (key: seq<byte>, msg: seq<byte>) => seq(20, _ => 0)

  // ---------- the counter ----------

  /** The number a big-endian byte string spells. */
  function FromBytes(data: seq<byte>): nat {
    if data == [] then 0 else 256 * FromBytes(data[..|data| - 1]) + data[|data| - 1]
  }

  /** The n low bytes of a counter, most significant first; negative counters in two's complement. */
  function BigEndian(x: int, n: nat): (data: seq<byte>)
    ensures |data| == n
    decreases n, x
  {
    if n == 0 then [] else BigEndian(x / 256, n - 1) + [x % 256]
  }

  function Pow256(n: nat): (r: nat)
    ensures r >= 1
  {
    if n == 0 then 1 else 256 * Pow256(n - 1)
  }

  lemma {:induction false} BigEndianSpells(x: int, n: nat)
    ensures FromBytes(BigEndian(x, n)) == x % Pow256(n)
    decreases n
  {
    if n > 0 {
      var data := BigEndian(x, n);
      assert data[..n - 1] == BigEndian(x / 256, n - 1);
      BigEndianSpells(x / 256, n - 1);
      Mod256Split(x, Pow256(n - 1));
    }
  }

  lemma Mod256Split(x: int, m: nat)
    requires m > 0
    ensures x % (256 * m) == 256 * ((x / 256) % m) + x % 256
  {
    var y := x / 256;
    var q, r := y / m, y % m;
    assert y == m * q + r;
    assert x == 256 * y + x % 256;
    assert x == q * (256 * m) + (256 * r + x % 256);
    DivModUnique(x, 256 * m, q, 256 * r + x % 256);
  }

  /** `tmp & 0xff`: JavaScript first reduces the number modulo 2^32. */
  lemma LowByte(x: int)
    ensures And(ToUint32(x), 0xff) == x % 256
  {
    Pow2Values();
    AndMask(ToUint32(x), 8);
    var q := x / TWO_TO_THE_32;
    assert x == TWO_TO_THE_32 * q + ToUint32(x);
    assert x == (q * 16777216 + ToUint32(x) / 256) * 256 + ToUint32(x) % 256;
    DivModUnique(x, 256, q * 16777216 + ToUint32(x) / 256, ToUint32(x) % 256);
  }

  /** The counter loop: `buffer` is filled from its last byte to its first. */
  method CounterBytes(counter: int) returns (buffer: array<byte>)
    ensures fresh(buffer) && buffer[..] == BigEndian(counter, 8)
    ensures buffer.Length == 8 && buffer[7] == counter % 256 && buffer[6] == counter / 256 % 256
    ensures FromBytes(buffer[..]) == counter % 0x1_0000_0000_0000_0000
  {
    buffer := new byte[8](_ => 0);
    var tmp := counter;
    var i := 7;
    while i >= 0
      invariant -1 <= i < 8
      invariant BigEndian(counter, 8) == BigEndian(tmp, i + 1) + buffer[i + 1..]
    {
      LowByte(tmp);
      ghost var low := buffer[i + 1..];
      buffer[i] := And(ToUint32(tmp), 0xff);
      assert buffer[i..] == [buffer[i]] + low;
      assert BigEndian(tmp / 256, i) + ([buffer[i]] + low) == BigEndian(tmp / 256, i) + [buffer[i]] + low;
      tmp := tmp / 256;
      i := i - 1;
    }
    assert buffer[0..] == buffer[..];
    EightBytesSpell(counter);
  }

  lemma EightBytesSpell(counter: int)
    ensures FromBytes(BigEndian(counter, 8)) == counter % 0x1_0000_0000_0000_0000
  {
    BigEndianSpells(counter, 8);
    Pow256Steps();
  }

  lemma Pow256Steps()
    ensures Pow256(8) == 0x1_0000_0000_0000_0000
  {
    assert Pow256(2) == 0x1_0000;
    assert Pow256(4) == 0x1_0000_0000;
    assert Pow256(6) == 0x1_0000_0000_0000;
  }

  // ---------- dynamic truncation ----------

  /** The four bytes at the offset named by the last byte, without the top bit. */
  function Truncate(mac: seq<byte>): (binary: nat)
    requires |mac| == 20
  {
    var offset := mac[19] % 16;
    FromBytes(mac[offset..offset + 4]) % 0x8000_0000
  }

  /** The number four bytes spell without the top bit. */
  function Value31(a: nat, b: nat, c: nat, d: nat): nat {
    (a % 128) * 0x100_0000 + b * 0x1_0000 + c * 0x100 + d
  }

  lemma AppendByte(data: seq<byte>, last: byte)
    ensures FromBytes(data + [last]) == 256 * FromBytes(data) + last
  {
    assert (data + [last])[..|data|] == data;
  }

  lemma FourBytes(a: byte, b: byte, c: byte, d: byte)
    ensures FromBytes([a, b, c, d]) == a * 0x100_0000 + (b * 0x1_0000 + c * 0x100 + d)
  {
    AppendByte([], a);
    AppendByte([a], b);
    AppendByte([a, b], c);
    AppendByte([a, b, c], d);
    assert [] + [a] == [a] && [a] + [b] == [a, b] && [a, b] + [c] == [a, b, c] && [a, b, c] + [d] == [a, b, c, d];
  }

  lemma ByteMasks(b: byte)
    ensures And(b, 0x7f) == b % 128 && And(b, 0xff) == b && And(b, 0x0f) == b % 16
  {
    Pow2Values();
    Mask(b, 7, 128);
    Mask(b, 8, 256);
    Mask(b, 4, 16);
    SmallMod(b, 256);
  }

  lemma SmallMod(x: nat, m: nat)
    requires x < m
    ensures x % m == x
  {
  }

  lemma Mask(x: nat, k: nat, m: nat)
    requires m == Pow2(k)
    ensures And(x, m - 1) == x % m
  {
    AndMask(x, k);
  }

  lemma SmallShift(b: nat, k: nat)
    requires b * Pow2(k) < TWO_TO_THE_32
    ensures Shl(b, k) == b * Pow2(k)
  {
  }

  /** The four masked bytes joined by `|` make the 31-bit number of the standard. */
  lemma JoinBytes(a: nat, b: byte, c: byte, d: byte)
    requires a < 128
    ensures Or(Or(Or(Shl(a, 24), Shl(b, 16)), Shl(c, 8)), d) == a * 0x100_0000 + b * 0x1_0000 + c * 0x100 + d
  {
    Pow2Values();
    SmallShift(a, 24);
    SmallShift(b, 16);
    SmallShift(c, 8);
    OrDisjoint(a, b * 0x1_0000, 24);
    OrDisjoint(a * 0x100 + b, c * 0x100, 16);
    OrDisjoint(a * 0x1_0000 + b * 0x100 + c, d, 8);
  }

  lemma DropTopBit(a: byte, rest: nat)
    requires rest < 0x100_0000
    ensures (a * 0x100_0000 + rest) % 0x8000_0000 == (a % 128) * 0x100_0000 + rest
  {
    DivModUnique(a * 0x100_0000 + rest, 0x8000_0000, a / 128, (a % 128) * 0x100_0000 + rest);
  }

  /** Dynamic truncation as the code computes it never leaves the 20 bytes and yields the standard's value. */
  method DynamicTruncation(hmac: seq<byte>) returns (binary: nat)
    requires |hmac| == 20
    ensures binary == Truncate(hmac) && binary < 0x8000_0000
    ensures var o := hmac[19] % 16;
            binary == Value31(hmac[o], hmac[o + 1], hmac[o + 2], hmac[o + 3])
  {
    TruncateMeaning(hmac);
    ByteMasks(hmac[19]);
    var offset := And(hmac[|hmac| - 1], 0x0f);
    binary := Join(hmac[offset], hmac[offset + 1], hmac[offset + 2], hmac[offset + 3]);
    FourAt(hmac, offset);
  }

  method Join(a: byte, b: byte, c: byte, d: byte) returns (binary: nat)
    ensures binary == FromBytes([a, b, c, d]) % 0x8000_0000
  {
    binary := Or(Or(Or(Shl(And(a, 0x7f), 24), Shl(And(b, 0xff), 16)), Shl(And(c, 0xff), 8)), And(d, 0xff));
    JoinedIsTruncated(a, b, c, d);
  }

  lemma JoinedIsTruncated(a: byte, b: byte, c: byte, d: byte)
    ensures Or(Or(Or(Shl(And(a, 0x7f), 24), Shl(And(b, 0xff), 16)), Shl(And(c, 0xff), 8)), And(d, 0xff))
            == FromBytes([a, b, c, d]) % 0x8000_0000
  {
    JoinedValue(a, b, c, d);
    TruncatedValue(a, b, c, d);
  }

  lemma TruncatedValue(a: byte, b: byte, c: byte, d: byte)
    ensures FromBytes([a, b, c, d]) % 0x8000_0000 == (a % 128) * 0x100_0000 + (b * 0x1_0000 + c * 0x100 + d)
  {
    FourBytes(a, b, c, d);
    DropTopBit(a, b * 0x1_0000 + c * 0x100 + d);
  }

  lemma JoinedValue(a: byte, b: byte, c: byte, d: byte)
    ensures Or(Or(Or(Shl(And(a, 0x7f), 24), Shl(And(b, 0xff), 16)), Shl(And(c, 0xff), 8)), And(d, 0xff))
            == (a % 128) * 0x100_0000 + (b * 0x1_0000 + c * 0x100 + d)
  {
    ByteMasks(a);
    ByteMasks(b);
    ByteMasks(c);
    ByteMasks(d);
    JoinBytes(And(a, 0x7f), And(b, 0xff), And(c, 0xff), And(d, 0xff));
  }

  lemma FourAt<T>(s: seq<T>, k: nat)
    requires k + 4 <= |s|
    ensures s[k..k + 4] == [s[k], s[k + 1], s[k + 2], s[k + 3]]
  {
  }

  // ---------- six digits ----------

  predicate IsDigit(c: char) {
    '0' <= c <= '9'
  }

  function DigitValue(c: char): nat {
    if IsDigit(c) then (c - '0') as int else 0
  }

  /** The number a string of digits spells. */
  function NumberOf(text: string): nat {
    if text == "" then 0 else 10 * NumberOf(text[..|text| - 1]) + DigitValue(text[|text| - 1])
  }

  predicate AllDigits(text: string) {
    forall c <- text :: IsDigit(c)
  }

  /** `Number.prototype.toString` of a whole number. */
  function Decimal(x: nat): (text: string)
    ensures |text| >= 1 && AllDigits(text) && NumberOf(text) == x
  {
    var last := [(x % 10) as char + '0'];
    if x < 10 then
      assert last[..0] == "";
      last
    else
      var text := Decimal(x / 10) + last;
      assert text[..|text| - 1] == Decimal(x / 10);
      text
  }

  function PadStart(text: string, width: nat, fill: char): string {
    if |text| >= width then text else seq(width - |text|, _ => fill) + text
  }

  lemma {:induction false} DecimalLength(x: nat, digits: nat, bound: nat)
    requires digits >= 1 && bound == Pow10(digits) && x < bound
    ensures |Decimal(x)| <= digits
    decreases digits
  {
    if x >= 10 {
      assert Pow10(1) == 10;
      DecimalLength(x / 10, digits - 1, Pow10(digits - 1));
    }
  }

  function Pow10(n: nat): nat {
    if n == 0 then 1 else 10 * Pow10(n - 1)
  }

  lemma {:induction false} LeadingZeros(text: string, zeros: nat)
    requires AllDigits(text)
    ensures AllDigits(seq(zeros, _ => '0') + text)
    ensures NumberOf(seq(zeros, _ => '0') + text) == NumberOf(text)
    decreases |text| + zeros
  {
    var padded := seq(zeros, _ => '0') + text;
    if text != "" {
      LeadingZeros(text[..|text| - 1], zeros);
      assert padded[..|padded| - 1] == seq(zeros, _ => '0') + text[..|text| - 1];
    } else if zeros > 0 {
      LeadingZeros("", zeros - 1);
      assert padded == seq(zeros, _ => '0');
      assert padded[..|padded| - 1] == seq(zeros - 1, _ => '0') + "";
    }
  }

  function OtpText(binary: nat): string {
    PadStart(Decimal(binary % 1_000_000), TOTP_DIGITS, '0')
  }

  /** A code is always six digits, and they spell the truncated value modulo 10^6. */
  lemma SixDigits(binary: nat)
    ensures |OtpText(binary)| == 6 && AllDigits(OtpText(binary))
    ensures NumberOf(OtpText(binary)) == binary % 1_000_000
  {
    var otp := binary % 1_000_000;
    assert Pow10(6) == 1_000_000 by {
      assert Pow10(3) == 1000;
    }
    DecimalLength(otp, 6, Pow10(6));
    LeadingZeros(Decimal(otp), 6 - |Decimal(otp)|);
  }

  // ---------- codes ----------

  function Hotp(mac: Mac, key: seq<byte>, counter: int): string {
    OtpText(Truncate(mac(key, BigEndian(counter, 8))))
  }

  /**
   The number a code spells: of the MAC h of the counter's eight bytes under the key, the four bytes at the offset that
   the low half of the last byte names, without their top bit, modulo 10^6.
   */
  lemma HotpMeaning(mac: Mac, key: seq<byte>, counter: int)
    ensures var msg, otp := BigEndian(counter, 8), Hotp(mac, key, counter);
            var h := mac(key, msg);
            var o := h[19] % 16;
            && FromBytes(msg) == counter % 0x1_0000_0000_0000_0000
            && |otp| == 6 && AllDigits(otp)
            && NumberOf(otp) == Value31(h[o], h[o + 1], h[o + 2], h[o + 3]) % 1_000_000
  {
    EightBytesSpell(counter);
    var h := mac(key, BigEndian(counter, 8));
    TruncateMeaning(h);
    SixDigits(Truncate(h));
  }

  lemma TruncateMeaning(h: seq<byte>)
    requires |h| == 20
    ensures var o := h[19] % 16;
            Truncate(h) == Value31(h[o], h[o + 1], h[o + 2], h[o + 3])
  {
    var o := h[19] % 16;
    FourAt(h, o);
    TruncatedValue(h[o], h[o + 1], h[o + 2], h[o + 3]);
  }

  method GenerateHotp(mac: Mac, base32Secret: string, counter: int) returns (otp: string)
    ensures otp == Hotp(mac, Base32.DecodeText(base32Secret), counter)
    ensures var msg := BigEndian(counter, 8);
            var h := mac(Base32.DecodeText(base32Secret), msg);
            var o := h[19] % 16;
            && FromBytes(msg) == counter % 0x1_0000_0000_0000_0000
            && |otp| == 6 && AllDigits(otp)
            && NumberOf(otp) == Value31(h[o], h[o + 1], h[o + 2], h[o + 3]) % 1_000_000
  {
    HotpMeaning(mac, Base32.DecodeText(base32Secret), counter);
    var key := Base32.Base32Decode(base32Secret);
    var buffer := CounterBytes(counter);
    var hmac := mac(key, buffer[..]);
    var binary := DynamicTruncation(hmac);
    otp := PadStart(Decimal(binary % 1_000_000), TOTP_DIGITS, '0');
  }

  lemma DifferentCodes(h: seq<byte>, h': seq<byte>)
    requires |h| == |h'| == 20 && Truncate(h) % 1_000_000 != Truncate(h') % 1_000_000
    ensures OtpText(Truncate(h)) != OtpText(Truncate(h'))
  {
    SixDigits(Truncate(h));
    SixDigits(Truncate(h'));
  }

  /** Zeros, except that the fourth byte is given. */
  lemma HashWithFourth(b: byte) returns (h: seq<byte>)
    ensures |h| == 20 && h[0] == h[1] == h[2] == h[19] == 0 && h[3] == b
  {
    h := seq(20, i => if i == 3 then b else 0 as byte);
  }

  /** Two MAC values with different codes. */
  lemma TwoHashes() returns (h: seq<byte>, h': seq<byte>)
    ensures |h| == |h'| == 20 && Truncate(h) % 1_000_000 != Truncate(h') % 1_000_000
  {
    h := HashWithFourth(0);
    h' := HashWithFourth(1);
    TruncateMeaning(h);
    TruncateMeaning(h');
  }

  lemma HotpOf(mac: Mac, key: seq<byte>, counter: int, h: seq<byte>)
    requires |h| == 20 && forall msg :: mac(key, msg) == h
    ensures Hotp(mac, key, counter) == OtpText(Truncate(h))
  {
  }

  /** Keys matter: for any two distinct keys and any counter, some MAC gives different codes. */
  lemma KeysMatter(key: seq<byte>, other: seq<byte>, counter: int) returns (mac: Mac)
    requires key != other
    ensures Hotp(mac, key, counter) != Hotp(mac, other, counter)
  {
    var h, h' := TwoHashes();
    mac := (k: seq<byte>, m: seq<byte>) => if k == key then h else h';
    DifferentCodes(h, h');
    HotpOf(mac, key, counter, h);
    HotpOf(mac, other, counter, h');
  }

  /** The example of section 5.4 of RFC 4226, by the bytes that count. */
  lemma TruncationExample(h: seq<byte>)
    requires |h| == 20 && h[19] == 0x5a && h[10] == 0x50 && h[11] == 0xef && h[12] == 0x7f && h[13] == 0x19
    ensures Truncate(h) == 0x50ef7f19 && Truncate(h) % 1_000_000 == 872921
  {
    TruncateMeaning(h);
  }

  /** The time step a moment (in seconds) falls into. */
  function TimeStep(now: int): int {
    now / TOTP_STEP
  }

  function CodeAt(mac: Mac, key: seq<byte>, now: int): string {
    Hotp(mac, key, TimeStep(now))
  }

  function Three<T>(a: T, b: T, c: T): (s: seq<T>)
    ensures |s| == 3
  {
    [a, b, c]
  }

  lemma ThreeAt<T>(a: T, b: T, c: T, i: nat)
    requires i < 3
    ensures Three(a, b, c)[i] == if i == 0 then a else if i == 1 then b else c
    ensures Three(a, b, c)[i] in Three(a, b, c)
  {
  }

  lemma InThree<T>(x: T, a: T, b: T, c: T)
    ensures x in Three(a, b, c) <==> x == a || x == b || x == c
  {
    ThreeAt(a, b, c, 0);
    ThreeAt(a, b, c, 1);
    ThreeAt(a, b, c, 2);
  }

  /** The codes of the steps next to the given one, and its own. */
  function CodesAround(mac: Mac, key: seq<byte>, step: int): (codes: seq<string>)
    ensures |codes| == 3
  {
    Three(Hotp(mac, key, step - 1), Hotp(mac, key, step), Hotp(mac, key, step + 1))
  }

  lemma CodesAroundMembers(mac: Mac, key: seq<byte>, now: int, code: string)
    ensures code in CodesAround(mac, key, TimeStep(now)) <==>
            || code == Hotp(mac, key, now / 30 - 1) || code == Hotp(mac, key, now / 30) || code == Hotp(mac, key, now / 30 + 1)
  {
    InThree(code, Hotp(mac, key, now / 30 - 1), Hotp(mac, key, now / 30), Hotp(mac, key, now / 30 + 1));
  }

  lemma CodeNextTo(mac: Mac, key: seq<byte>, step: int, i: int)
    requires -1 <= i <= 1
    ensures CodesAround(mac, key, step)[i + 1] == Hotp(mac, key, step + i)
    ensures Hotp(mac, key, step + i) in CodesAround(mac, key, step)
  {
    ThreeAt(Hotp(mac, key, step - 1), Hotp(mac, key, step), Hotp(mac, key, step + 1), i + 1);
  }

  /** Accepts exactly the codes of the current time step and its two neighbours. */
  method VerifyTotp(mac: Mac, base32Secret: string, code: string, now: int) returns (accepted: bool)
    ensures accepted <==> code in CodesAround(mac, Base32.DecodeText(base32Secret), TimeStep(now))
    ensures accepted <==>
            || code == Hotp(mac, Base32.DecodeText(base32Secret), now / 30 - 1)
            || code == Hotp(mac, Base32.DecodeText(base32Secret), now / 30)
            || code == Hotp(mac, Base32.DecodeText(base32Secret), now / 30 + 1)
  {
    var i := -TOTP_WINDOW;
    ghost var key := Base32.DecodeText(base32Secret);
    ghost var codes := CodesAround(mac, key, TimeStep(now));
    CodesAroundMembers(mac, key, now, code);
    while i <= TOTP_WINDOW
      invariant -1 <= i <= 2
      invariant code !in codes[..i + 1]
    {
      var counter := (now + i * TOTP_STEP) / TOTP_STEP;
      var expected := GenerateHotp(mac, base32Secret, counter);
      CodeOfStep(mac, key, now, i);
      NextOf(codes, i + 1, code);
      assert expected == codes[i + 1];
      if expected == code {
        return true;
      }
      i := i + 1;
    }
    return false;
  }

  lemma NextOf<T>(s: seq<T>, n: nat, x: T)
    requires n < |s|
    ensures x in s[..n + 1] <==> x in s[..n] || x == s[n]
    ensures x in s[..n + 1] ==> x in s
  {
  }

  lemma CodeOfStep(mac: Mac, key: seq<byte>, now: int, i: int)
    requires -1 <= i <= 1
    ensures CodesAround(mac, key, TimeStep(now))[i + 1] ==
            Hotp(mac, key, (now + i * TOTP_STEP) / TOTP_STEP)
  {
    ShiftedStep(now, i);
    CodeNextTo(mac, key, TimeStep(now), i);
  }

  lemma ShiftedStep(now: int, i: int)
    ensures (now + i * TOTP_STEP) / TOTP_STEP == TimeStep(now) + i
  {
  }

  /** A code generated at t0 is accepted at t1 when their time steps differ by at most one. */
  lemma NeighbouringStepsAccepted(mac: Mac, key: seq<byte>, t0: int, t1: int)
    requires -1 <= TimeStep(t0) - TimeStep(t1) <= 1
    ensures CodeAt(mac, key, t0) in CodesAround(mac, key, TimeStep(t1))
  {
    CodeNextTo(mac, key, TimeStep(t1), TimeStep(t0) - TimeStep(t1));
  }

  /** Clocks at most 30 seconds apart are in neighbouring steps; neighbouring steps are less than 60 seconds apart. */
  lemma NearbyClocks(t0: int, t1: int)
    ensures -30 <= t0 - t1 <= 30 ==> -1 <= TimeStep(t0) - TimeStep(t1) <= 1
    ensures -1 <= TimeStep(t0) - TimeStep(t1) <= 1 ==> -60 < t0 - t1 < 60
  {
  }

  /** The secret shown to the user, an encoding of the raw key, yields the codes of the raw key. */
  lemma EncodedSecretKeepsKey(mac: Mac, raw: seq<byte>, counter: int)
    ensures Hotp(mac, Base32.DecodeText(Base32.EncodeBytes(raw)), counter) == Hotp(mac, raw, counter)
  {
    Base32.RoundTrip(raw);
  }

  /** Within 2^64 consecutive counters no two share a message, so the moving factor never repeats. */
  lemma CounterInjective(c1: int, c2: int)
    requires -0x8000_0000_0000_0000 <= c1 < 0x8000_0000_0000_0000
    requires -0x8000_0000_0000_0000 <= c2 < 0x8000_0000_0000_0000
    requires BigEndian(c1, 8) == BigEndian(c2, 8)
    ensures c1 == c2
  {
    EightBytesSpell(c1);
    EightBytesSpell(c2);
    SameResidue(c1, c2, 0x1_0000_0000_0000_0000);
  }

  lemma SameResidue(a: int, b: int, m: int)
    requires m > 0 && a % m == b % m && -m < a - b < m
    ensures a == b
  {
    var q := a / m - b / m;
    assert a - b == m * q;
    if q >= 1 {
      MulAtLeast(q, m);
    } else if q <= -1 {
      MulAtLeast(-q, m);
    }
  }
}
