/**
 The `enc:` envelope around an authenticated cipher, with versioned keys and one previous key. The cipher is any
 function pair satisfying the laws of an ideal one.
 */
module PayloadCrypto {
  import opened Wrappers
  import JsBits
  import Strings

  type Bytes = seq<JsBits.byte>

  datatype Sealed = Sealed(tag: Bytes, data: Bytes)

  datatype Cipher<!Key> = Cipher(seal: (Key, Bytes, string) -> Sealed, open: (Key, Bytes, Sealed) -> Option<string>)

  /**
   Opening undoes sealing, no other key opens, the ciphertext has a byte at least for every character and none for the
   empty text, and nothing opens that was not sealed.
   */
  ghost predicate Ideal<Key(!new)>(c: Cipher<Key>) {
    && (forall k, iv, p {:trigger c.seal(k, iv, p)} ::
          && c.open(k, iv, c.seal(k, iv, p)) == Some(p)
          && c.seal(k, iv, p).tag != []
          && |c.seal(k, iv, p).data| >= |p|
          && (p == "" ==> c.seal(k, iv, p).data == [])
          && forall k' {:trigger c.open(k', iv, c.seal(k, iv, p))} :: k' != k ==> c.open(k', iv, c.seal(k, iv, p)) == None)
    && (forall k, iv, s {:trigger c.open(k, iv, s)} ::
          c.open(k, iv, s).Some? ==> s == c.seal(k, iv, c.open(k, iv, s).value))
  }

  // ---------- an ideal cipher over byte keys ----------

  function CharBytes(c: char): (data: Bytes)
    ensures |data| == 3
  {
    var n := c as int;
    [n / 256 / 256, n / 256 % 256, n % 256]
  }

  function TextBytes(text: string): (data: Bytes)
    ensures |data| == 3 * |text|
  {
    if text == "" then [] else CharBytes(text[0]) + TextBytes(text[1..])
  }

  lemma CharBytesInjective(a: char, b: char)
    requires CharBytes(a) == CharBytes(b)
    ensures a == b
  {
    var x, y := CharBytes(a), CharBytes(b);
    assert x[0] == y[0] && x[1] == y[1] && x[2] == y[2];
    assert a as int / 256 == b as int / 256;
  }

  lemma {:induction false} TextBytesInjective(a: string, b: string)
    requires TextBytes(a) == TextBytes(b)
    ensures a == b
  {
    assert |a| == |b|;
    if a != "" {
      var x, y := TextBytes(a), TextBytes(b);
      assert CharBytes(a[0]) == x[..3] == y[..3] == CharBytes(b[0]);
      assert TextBytes(a[1..]) == x[3..] == y[3..] == TextBytes(b[1..]);
      CharBytesInjective(a[0], b[0]);
      TextBytesInjective(a[1..], b[1..]);
      assert a == [a[0]] + a[1..] && b == [b[0]] + b[1..];
    }
  }

  /** Seals by writing the key into the tag and the text into the data. */
  ghost function OpenSeal(): Cipher<Bytes> {
    Cipher(
      (k, iv, p) => SealWith(k, p),
      (k, iv, s) => OpenWith(k, s))
  }

  function SealWith(key: Bytes, text: string): Sealed {
    Sealed([0] + key, TextBytes(text))
  }

  ghost function OpenWith(key: Bytes, s: Sealed): (text: Option<string>)
    ensures text.Some? ==> s == SealWith(key, text.value)
    ensures text.None? ==> forall p :: s != SealWith(key, p)
  {
    if exists p :: s == SealWith(key, p) then
      var p :| s == SealWith(key, p);
      Some(p)
    else
      None
  }

  lemma SealNamesKey(k: Bytes, k': Bytes, p: string, p': string)
    requires SealWith(k, p) == SealWith(k', p')
    ensures k == k'
  {
    assert k == ([0] + k)[1..] && k' == ([0] + k')[1..];
  }

  /** The laws can be met over all byte keys, of any length. */
  lemma IdealExists()
    ensures exists c: Cipher<Bytes> :: Ideal(c)
  {
    var c := OpenSeal();
    forall k, iv, p
      ensures c.open(k, iv, c.seal(k, iv, p)) == Some(p)
      ensures forall k' :: k' != k ==> c.open(k', iv, c.seal(k, iv, p)) == None
    {
      var s := SealWith(k, p);
      assert c.seal(k, iv, p) == s;
      var text := OpenWith(k, s);
      assert text.Some?;
      TextBytesInjective(p, text.value);
      forall k'
        ensures OpenWith(k', s).Some? ==> k' == k
      {
        if OpenWith(k', s).Some? {
          SealNamesKey(k, k', p, OpenWith(k', s).value);
        }
      }
    }
    assert Ideal(c);
  }

  datatype Config<Key> = Config(current: Option<Key>, previous: Option<Key>, version: string, previousVersion: string)

  // ---------- hexadecimal ----------

  function HexDigit(v: nat): (c: char)
    requires v < 16
  {
    if v < 10 then v as char + '0' else (v - 10) as char + 'a'
  }

  function HexValue(c: char): (v: Option<nat>)
    ensures v.Some? ==> v.value < 16
  {
    if '0' <= c <= '9' then Some((c - '0') as int)
    else if 'a' <= c <= 'f' then Some((c - 'a') as int + 10)
    else if 'A' <= c <= 'F' then Some((c - 'A') as int + 10)
    else None
  }

  function ToHex(data: Bytes): (text: string)
    ensures |text| == 2 * |data|
  {
    if data == [] then "" else [HexDigit(data[0] / 16), HexDigit(data[0] % 16)] + ToHex(data[1..])
  }

  /** `Buffer.from(text, 'hex')`: stops at the first pair that is not hexadecimal. */
  function FromHex(text: string): Bytes {
    if |text| < 2 then []
    else
      var high, low := HexValue(text[0]), HexValue(text[1]);
      if high.None? || low.None? then []
      else [high.value * 16 + low.value] + FromHex(text[2..])
  }

  lemma HexDigitValue(v: nat)
    requires v < 16
    ensures HexValue(HexDigit(v)) == Some(v) && HexDigit(v) != ':'
    ensures HexDigit(v) == "0123456789abcdef"[v] && HexValue("0123456789ABCDEF"[v]) == Some(v)
  {
  }

  lemma {:induction false} HexRoundTrip(data: Bytes)
    ensures FromHex(ToHex(data)) == data && ':' !in ToHex(data)
  {
    if data != [] {
      HexDigitValue(data[0] / 16);
      HexDigitValue(data[0] % 16);
      HexRoundTrip(data[1..]);
      var text := ToHex(data);
      assert text[2..] == ToHex(data[1..]);
    }
  }

  lemma HexHasNoColon(data: Bytes)
    ensures ':' !in ToHex(data)
  {
    HexRoundTrip(data);
  }

  // ---------- the envelope ----------

  const PREFIX := "enc:"

  predicate IsEnvelope(text: string) {
    PREFIX <= text
  }

  function Body(iv: Bytes, s: Sealed): string {
    ToHex(iv) + ":" + ToHex(s.tag) + ":" + ToHex(s.data)
  }

  /** A labelled envelope, or one of the older format without a version. */
  function Envelope(stamp: Option<string>, iv: Bytes, s: Sealed): string {
    PREFIX + (if stamp.Some? then stamp.value + ":" else "") + Body(iv, s)
  }

  function Encrypt<Key>(c: Cipher<Key>, cfg: Config<Key>, iv: Bytes, plaintext: string): string {
    if cfg.current.None? then plaintext
    else Envelope(Some(cfg.version), iv, c.seal(cfg.current.value, iv, plaintext))
  }

  datatype DecryptError = NoKeyFits

  function PickKey<Key>(cfg: Config<Key>, version: Option<string>): Option<Key> {
    if version.None? || version.value == "" then (if cfg.previous.Some? then cfg.previous else cfg.current)
    else if version.value == cfg.version then cfg.current
    else if cfg.previous.Some? && version.value == cfg.previousVersion then cfg.previous
    else if cfg.current.Some? then cfg.current else cfg.previous
  }

  function TryKeys<Key(==)>(c: Cipher<Key>, cfg: Config<Key>, primary: Key, iv: Bytes, s: Sealed): Result<string, DecryptError> {
    var first := c.open(primary, iv, s);
    if first.Some? then Ok(first.value)
    else
      var secondary := if Some(primary) == cfg.current then cfg.previous else cfg.current;
      if secondary.None? then Err(NoKeyFits)
      else
        var second := c.open(secondary.value, iv, s);
        if second.Some? then Ok(second.value) else Err(NoKeyFits)
  }

  function Decrypt<Key(==)>(c: Cipher<Key>, cfg: Config<Key>, ciphertext: string): Result<string, DecryptError> {
    if !IsEnvelope(ciphertext) then Ok(ciphertext)
    else
      var parts := Strings.Split(ciphertext, ':');
      if |parts| == 5 then Open(c, cfg, ciphertext, Some(parts[1]), parts[2], parts[3], parts[4])
      else if |parts| == 4 then Open(c, cfg, ciphertext, None, parts[1], parts[2], parts[3])
      else Ok(ciphertext)
  }

  function Open<Key(==)>(c: Cipher<Key>, cfg: Config<Key>, ciphertext: string, version: Option<string>,
                         ivHex: string, tagHex: string, dataHex: string): Result<string, DecryptError> {
    if ivHex == "" || tagHex == "" || dataHex == "" then Ok(ciphertext)
    else
      var primary := PickKey(cfg, version);
      if primary.None? then Ok(ciphertext)
      else TryKeys(c, cfg, primary.value, FromHex(ivHex), Sealed(FromHex(tagHex), FromHex(dataHex)))
  }

  /** The label of a text with five parts. */
  function LabelOf(text: string): Option<string> {
    var parts := Strings.Split(text, ':');
    if |parts| == 5 then Some(parts[1]) else None
  }

  /** Starts like an envelope and has an initialisation vector, a tag and data. */
  predicate WellFormed(text: string) {
    var parts := Strings.Split(text, ':');
    && IsEnvelope(text)
    && 4 <= |parts| <= 5
    && parts[|parts| - 3] != "" && parts[|parts| - 2] != "" && parts[|parts| - 1] != ""
  }

  /** `decrypt` tries a key on the text. */
  predicate Tried<Key>(cfg: Config<Key>, text: string) {
    WellFormed(text) && PickKey(cfg, LabelOf(text)).Some?
  }

  /** Not an envelope, or one that carries the current version. */
  predicate IsCurrent<Key>(cfg: Config<Key>, ciphertext: string) {
    !IsEnvelope(ciphertext) ||
    var parts := Strings.Split(ciphertext, ':');
    |parts| == 5 && parts[1] == cfg.version
  }

  // ---------- taking an envelope apart ----------

  lemma SplitBody(iv: Bytes, s: Sealed)
    ensures Strings.Split(Body(iv, s), ':') == [ToHex(iv), ToHex(s.tag), ToHex(s.data)]
  {
    HexHasNoColon(iv);
    HexHasNoColon(s.tag);
    HexHasNoColon(s.data);
    var rest := ToHex(s.tag) + ":" + ToHex(s.data);
    assert Body(iv, s) == ToHex(iv) + ":" + rest;
    Strings.SplitFirst(ToHex(iv), ':', rest);
    Strings.SplitFirst(ToHex(s.tag), ':', ToHex(s.data));
    Strings.SplitOnly(ToHex(s.data), ':');
  }

  /** The parts of an envelope: the prefix, the label if there is one, and three hexadecimal fields. */
  function Parts(stamp: Option<string>, iv: Bytes, s: Sealed): seq<string> {
    if stamp.Some? then ["enc", stamp.value, ToHex(iv), ToHex(s.tag), ToHex(s.data)]
    else ["enc", ToHex(iv), ToHex(s.tag), ToHex(s.data)]
  }

  lemma SplitEnvelope(stamp: Option<string>, iv: Bytes, s: Sealed)
    requires stamp.Some? ==> ':' !in stamp.value
    ensures Strings.Split(Envelope(stamp, iv, s), ':') == Parts(stamp, iv, s)
  {
    SplitBody(iv, s);
    var body := Body(iv, s);
    if stamp.Some? {
      EnvelopeText(stamp.value, body);
      Strings.SplitFirst("enc", ':', stamp.value + ":" + body);
      Strings.SplitFirst(stamp.value, ':', body);
    } else {
      EnvelopeText("", body);
      Strings.SplitFirst("enc", ':', body);
    }
  }

  lemma EnvelopeText(stamp: string, body: string)
    ensures PREFIX + (stamp + ":") + body == "enc" + ":" + (stamp + ":" + body)
    ensures PREFIX + "" + body == "enc" + ":" + body
  {
  }

  lemma EnvelopeLayout(version: string, iv: Bytes, s: Sealed)
    ensures Envelope(Some(version), iv, s) ==
            "enc:" + version + ":" + ToHex(iv) + ":" + ToHex(s.tag) + ":" + ToHex(s.data)
  {
    var a, b, c := ToHex(iv), ToHex(s.tag), ToHex(s.data);
    var head := "enc:" + version + ":";
    assert "enc:" + (version + ":") == head;
    assert head + (a + ":" + b + ":" + c) == head + a + ":" + b + ":" + c;
  }

  lemma EnvelopeStarts(stamp: Option<string>, iv: Bytes, s: Sealed)
    ensures IsEnvelope(Envelope(stamp, iv, s))
  {
    assert Envelope(stamp, iv, s)[..4] == PREFIX;
  }

  /** Opening a well-formed envelope comes down to the two configured keys, whatever its stamp. */
  lemma DecryptEnvelope<Key>(c: Cipher<Key>, cfg: Config<Key>, stamp: Option<string>, iv: Bytes, s: Sealed)
    requires (stamp.Some? ==> ':' !in stamp.value) && iv != [] && s.tag != []
    ensures var e := Envelope(stamp, iv, s);
            Decrypt(c, cfg, e) ==
            if s.data == [] || PickKey(cfg, stamp).None? then Ok(e) else TryKeys(c, cfg, PickKey(cfg, stamp).value, iv, s)
  {
    EnvelopeStarts(stamp, iv, s);
    SplitEnvelope(stamp, iv, s);
    HexRoundTrip(iv);
    HexRoundTrip(s.tag);
    HexRoundTrip(s.data);
  }

  lemma EnvelopeLonger(stamp: Option<string>, iv: Bytes, s: Sealed)
    ensures |Envelope(stamp, iv, s)| >= 6 + 2 * |s.data|
  {
  }

  // ---------- texts that `decrypt` leaves alone ----------

  lemma {:induction false} FromHexHalves(text: string)
    ensures 2 * |FromHex(text)| <= |text|
  {
    if |text| >= 2 {
      FromHexHalves(text[2..]);
    }
  }

  /** What an ideal cipher opens is shorter than the envelope it came from. */
  lemma OpenedIsShorter<Key(!new)>(c: Cipher<Key>, key: Key, iv: Bytes, tag: Bytes, dataHex: string, text: string, i: nat)
    requires Ideal(c) && text != "" && i < |Strings.Split(text, ':')| && Strings.Split(text, ':')[i] == dataHex
    ensures var p := c.open(key, iv, Sealed(tag, FromHex(dataHex)));
            p.Some? ==> |p.value| < |text|
  {
    var s := Sealed(tag, FromHex(dataHex));
    var p := c.open(key, iv, s);
    if p.Some? {
      assert s == c.seal(key, iv, p.value);
      FromHexHalves(dataHex);
      Strings.PartAtMost(text, ':', i);
    }
  }

  /** `decrypt` returns a text as it was given exactly when it tries no key on it. */
  lemma LeftAloneIffNotTried<Key(!new)>(c: Cipher<Key>, cfg: Config<Key>, text: string)
    requires Ideal(c)
    ensures Decrypt(c, cfg, text) == Ok(text) <==> !Tried(cfg, text)
  {
    if Tried(cfg, text) {
      var parts := Strings.Split(text, ':');
      var n := |parts|;
      var iv, tag := FromHex(parts[n - 3]), FromHex(parts[n - 2]);
      if cfg.current.Some? {
        OpenedIsShorter(c, cfg.current.value, iv, tag, parts[n - 1], text, n - 1);
      }
      if cfg.previous.Some? {
        OpenedIsShorter(c, cfg.previous.value, iv, tag, parts[n - 1], text, n - 1);
      }
      PickedKeyIsConfigured(cfg, LabelOf(text));
      assert Decrypt(c, cfg, text) ==
             TryKeys(c, cfg, PickKey(cfg, LabelOf(text)).value, iv, Sealed(tag, FromHex(parts[n - 1])));
    }
  }

  // ---------- round trips ----------

  lemma TryKeysFinds<Key(!new)>(c: Cipher<Key>, cfg: Config<Key>, primary: Key, key: Key, iv: Bytes, plaintext: string)
    requires Ideal(c) && (cfg.current == Some(key) || cfg.previous == Some(key))
    requires Some(primary) == cfg.current || Some(primary) == cfg.previous
    ensures TryKeys(c, cfg, primary, iv, c.seal(key, iv, plaintext)) == Ok(plaintext)
  {
    var s := c.seal(key, iv, plaintext);
    assert c.open(key, iv, s) == Some(plaintext);
    if primary != key {
      assert c.open(primary, iv, s) == None;
    }
  }

  lemma PickedKeyIsConfigured<Key>(cfg: Config<Key>, stamp: Option<string>)
    ensures PickKey(cfg, stamp).Some? ==> PickKey(cfg, stamp) == cfg.current || PickKey(cfg, stamp) == cfg.previous
    ensures cfg.version != "" ==>
              (PickKey(cfg, stamp).None? <==> cfg.current.None? && (cfg.previous.None? || stamp == Some(cfg.version)))
  {
  }

  /**
   A text sealed under a key that is configured, as current or as previous, is recovered whatever version label the
   envelope carries or lacks, except when no current key is set and the label is the current version: the envelope then
   comes back as it is.
   */
  lemma RecoveredAfterRotation<Key(!new)>(c: Cipher<Key>, cfg: Config<Key>, key: Key, stamp: Option<string>, iv: Bytes, plaintext: string)
    requires Ideal(c) && (cfg.current == Some(key) || cfg.previous == Some(key)) && cfg.version != ""
    requires (stamp.Some? ==> ':' !in stamp.value) && iv != [] && plaintext != ""
    ensures Decrypt(c, cfg, Envelope(stamp, iv, c.seal(key, iv, plaintext))) == Ok(plaintext)
            <==> cfg.current.Some? || stamp != Some(cfg.version)
  {
    var s := c.seal(key, iv, plaintext);
    EnvelopeLonger(stamp, iv, s);
    assert s.tag != [] && |s.data| >= |plaintext|;
    DecryptEnvelope(c, cfg, stamp, iv, s);
    PickedKeyIsConfigured(cfg, stamp);
    if PickKey(cfg, stamp).Some? {
      TryKeysFinds(c, cfg, PickKey(cfg, stamp).value, key, iv, plaintext);
    }
  }

  /** With keys configured but not the right one, decryption fails rather than returning a wrong text. */
  lemma ForeignKeyFails<Key(!new)>(c: Cipher<Key>, cfg: Config<Key>, key: Key, stamp: Option<string>, iv: Bytes, plaintext: string)
    requires Ideal(c) && cfg.current != Some(key) && cfg.previous != Some(key)
    requires cfg.current.Some? || (cfg.previous.Some? && stamp != Some(cfg.version))
    requires (stamp.Some? ==> ':' !in stamp.value) && iv != [] && plaintext != ""
    ensures Decrypt(c, cfg, Envelope(stamp, iv, c.seal(key, iv, plaintext))) == Err(NoKeyFits)
  {
    var s := c.seal(key, iv, plaintext);
    DecryptEnvelope(c, cfg, stamp, iv, s);
    if cfg.current.Some? {
      assert c.open(cfg.current.value, iv, s) == None;
    }
    if cfg.previous.Some? {
      assert c.open(cfg.previous.value, iv, s) == None;
    }
  }

  /**
   With a current key, `decrypt` inverts `encrypt` exactly for non-empty text under a version without a colon; without
   one, exactly for text that `decrypt` tries no key on.
   */
  lemma DecryptInvertsEncrypt<Key(!new)>(c: Cipher<Key>, cfg: Config<Key>, iv: Bytes, plaintext: string)
    requires Ideal(c) && cfg.version != "" && iv != []
    ensures Decrypt(c, cfg, Encrypt(c, cfg, iv, plaintext)) == Ok(plaintext) <==>
            if cfg.current.Some? then plaintext != "" && ':' !in cfg.version else !Tried(cfg, plaintext)
  {
    if cfg.current.Some? {
      DecryptInvertsSeal(c, cfg, iv, plaintext);
    } else {
      LeftAloneIffNotTried(c, cfg, plaintext);
    }
  }

  lemma DecryptInvertsSeal<Key(!new)>(c: Cipher<Key>, cfg: Config<Key>, iv: Bytes, plaintext: string)
    requires Ideal(c) && cfg.current.Some? && cfg.version != "" && iv != []
    ensures Decrypt(c, cfg, Encrypt(c, cfg, iv, plaintext)) == Ok(plaintext) <==> plaintext != "" && ':' !in cfg.version
  {
    var key := cfg.current.value;
    var s := c.seal(key, iv, plaintext);
    var e := Envelope(Some(cfg.version), iv, s);
    assert s.tag != [] && |s.data| >= |plaintext| && (plaintext == "" ==> s.data == []);
    EnvelopeStarts(Some(cfg.version), iv, s);
    EnvelopeLonger(Some(cfg.version), iv, s);
    assert e != plaintext;
    if ':' in cfg.version {
      TooManyParts(cfg.version, iv, s);
    } else if plaintext != "" {
      RecoveredAfterRotation(c, cfg, key, Some(cfg.version), iv, plaintext);
    } else {
      DecryptEnvelope(c, cfg, Some(cfg.version), iv, s);
    }
  }

  lemma TooManyParts(version: string, iv: Bytes, s: Sealed)
    requires ':' in version
    ensures |Strings.Split(Envelope(Some(version), iv, s), ':')| > 5
  {
    var body := Body(iv, s);
    SplitBody(iv, s);
    Strings.SplitCount(body, ':');
    Strings.SplitCount(Envelope(Some(version), iv, s), ':');
    Strings.CountMember(version, ':');
    Strings.CountConcat(PREFIX + (version + ":"), body, ':');
    Strings.CountConcat(PREFIX, version + ":", ':');
    Strings.CountConcat(version, ":", ':');
    assert Strings.Count(":", ':') == 1;
    Strings.CountConcat("enc", ":", ':');
    assert "enc" + ":" == PREFIX;
  }

  /** An envelope is current exactly when it carries the current version as its stamp. */
  lemma CurrentExactlyWhenLabelled<Key>(cfg: Config<Key>, stamp: Option<string>, iv: Bytes, s: Sealed)
    requires stamp.Some? ==> ':' !in stamp.value
    ensures IsCurrent(cfg, Envelope(stamp, iv, s)) <==> stamp == Some(cfg.version)
  {
    EnvelopeStarts(stamp, iv, s);
    SplitEnvelope(stamp, iv, s);
  }

  // ---------- cached keys ----------

  datatype KeyError = TooWeak

  /**
   The process-wide key cache over the environment; `parse` reads a key from a setting, finds that none is set, or refuses
   the setting as too weak.
   */
  class KeyCache<Key(0)> {
    const parse: string -> Result<Option<Key>, KeyError>
    var setting: string
    var previousSetting: string
    var cachedKey: Option<Option<Key>>
    var cachedPrevKey: Option<Option<Key>>

    constructor (parse: string -> Result<Option<Key>, KeyError>, setting: string, previousSetting: string)
      ensures this.parse == parse && this.setting == setting && this.previousSetting == previousSetting
      ensures cachedKey.None? && cachedPrevKey.None?
    {
      this.parse, this.setting, this.previousSetting := parse, setting, previousSetting;
      cachedKey, cachedPrevKey := None, None;
    }

    /** The first answer is kept until the cache is reset, whatever the environment does; a refusal is not kept. */
    method ResolveKey() returns (key: Result<Option<Key>, KeyError>)
      modifies this`cachedKey
      ensures key == if old(cachedKey).Some? then Ok(old(cachedKey).value) else parse(setting)
      ensures cachedKey == if key.Ok? then Some(key.value) else old(cachedKey)
    {
      if cachedKey.None? {
        var parsed := parse(setting);
        if parsed.Err? {
          return parsed;
        }
        cachedKey := Some(parsed.value);
      }
      key := Ok(cachedKey.value);
    }

    method ResolvePrevKey() returns (key: Result<Option<Key>, KeyError>)
      modifies this`cachedPrevKey
      ensures key == if old(cachedPrevKey).Some? then Ok(old(cachedPrevKey).value) else parse(previousSetting)
      ensures cachedPrevKey == if key.Ok? then Some(key.value) else old(cachedPrevKey)
    {
      if cachedPrevKey.None? {
        var parsed := parse(previousSetting);
        if parsed.Err? {
          return parsed;
        }
        cachedPrevKey := Some(parsed.value);
      }
      key := Ok(cachedPrevKey.value);
    }

    method ResetKeyCache()
      modifies this`cachedKey, this`cachedPrevKey
      ensures cachedKey.None? && cachedPrevKey.None?
    {
      cachedKey, cachedPrevKey := None, None;
    }
  }
}
