/** The secret fields of an endpoint document: encrypted by the save and update hooks, decrypted in place for delivery. */
module EndpointSecrets {
  import opened Wrappers
  import opened PayloadCrypto

  /** The parts of the document that count as modified as a whole. */
  datatype Part = SecretPart | BearerPart | OAuth2Part | MtlsPart | StoragePart

  /** The six secret fields; absent where the document or its sub-document has none. */
  datatype Values = Values(
    secret: Option<string>,
    bearerToken: Option<string>,
    clientSecret: Option<string>,
    privateKey: Option<string>,
    secretAccessKey: Option<string>,
    serviceAccountKey: Option<string>)

  /** A fresh initialisation vector for each field. */
  datatype Vectors = Vectors(secret: Bytes, bearer: Bytes, client: Bytes, private_: Bytes, access: Bytes, account: Bytes)

  /** Cipher and keys in force. */
  datatype Context<!Key> = Context(cipher: Cipher<Key>, cfg: Config<Key>)

  ghost predicate Sound<Key(!new)>(x: Context<Key>) {
    Ideal(x.cipher) && x.cfg.version != "" && ':' !in x.cfg.version
  }

  predicate NonEmpty(ivs: Vectors) {
    ivs.secret != [] && ivs.bearer != [] && ivs.client != [] && ivs.private_ != [] && ivs.access != [] && ivs.account != []
  }

  function EncryptIfNeeded<Key>(x: Context<Key>, iv: Bytes, v: Option<string>): Option<string> {
    if v.None? || v.value == "" || IsEnvelope(v.value) || x.cfg.current.None? then v
    else Some(Encrypt(x.cipher, x.cfg, iv, v.value))
  }

  /**
   How a save of a modified field must store it: nothing and the empty text as they are; with a current key, any other
   text behind the prefix, unchanged if it was so before, and otherwise as the prefix, the version, a vector, a tag and
   data that open to the text under the current key and under no other; without a current key, as it is.
   */
  ghost predicate StoredFor<Key(!new)>(x: Context<Key>, before: Option<string>, after: Option<string>) {
    if before.None? || before.value == "" || x.cfg.current.None? || "enc:" <= before.value then after == before
    else
      && after.Some? && "enc:" <= after.value
      && exists iv: Bytes, s: Sealed :: OpensOnly(x, iv, s, before.value) &&
           after.value == "enc:" + x.cfg.version + ":" + ToHex(iv) + ":" + ToHex(s.tag) + ":" + ToHex(s.data)
  }

  /** The sealed text opens to the given one under the current key and under no other. */
  ghost predicate OpensOnly<Key(!new)>(x: Context<Key>, iv: Bytes, s: Sealed, text: string)
  {
    && x.cfg.current.Some?
    && x.cipher.open(x.cfg.current.value, iv, s) == Some(text)
    && forall k :: k != x.cfg.current.value ==> x.cipher.open(k, iv, s) == None
  }

  lemma EncryptedIsStored<Key(!new)>(x: Context<Key>, iv: Bytes, v: Option<string>)
    requires Ideal(x.cipher)
    ensures StoredFor(x, v, EncryptIfNeeded(x, iv, v))
  {
    if v.Some? && v.value != "" && x.cfg.current.Some? && !IsEnvelope(v.value) {
      var s := x.cipher.seal(x.cfg.current.value, iv, v.value);
      EnvelopeStarts(Some(x.cfg.version), iv, s);
      EnvelopeLayout(x.cfg.version, iv, s);
      assert OpensOnly(x, iv, s, v.value);
    }
  }

  /** Every modified part is stored as it must be; the others are as before. */
  ghost predicate StoredParts<Key(!new)>(x: Context<Key>, before: Values, after: Values, modified: set<Part>) {
    && (if SecretPart in modified then StoredFor(x, before.secret, after.secret) else after.secret == before.secret)
    && (if BearerPart in modified then StoredFor(x, before.bearerToken, after.bearerToken)
        else after.bearerToken == before.bearerToken)
    && (if OAuth2Part in modified then StoredFor(x, before.clientSecret, after.clientSecret)
        else after.clientSecret == before.clientSecret)
    && (if MtlsPart in modified then StoredFor(x, before.privateKey, after.privateKey)
        else after.privateKey == before.privateKey)
    && (if StoragePart in modified
        then StoredFor(x, before.secretAccessKey, after.secretAccessKey)
             && StoredFor(x, before.serviceAccountKey, after.serviceAccountKey)
        else after.secretAccessKey == before.secretAccessKey && after.serviceAccountKey == before.serviceAccountKey)
  }

  lemma ValuesAreStored<Key(!new)>(x: Context<Key>, ivs: Vectors, v: Values, modified: set<Part>)
    ensures Ideal(x.cipher) ==> StoredParts(x, v, EncryptValues(x, ivs, v, modified), modified)
  {
    if Ideal(x.cipher) {
      EncryptedIsStored(x, ivs.secret, v.secret);
      EncryptedIsStored(x, ivs.bearer, v.bearerToken);
      EncryptedIsStored(x, ivs.client, v.clientSecret);
      EncryptedIsStored(x, ivs.private_, v.privateKey);
      EncryptedIsStored(x, ivs.access, v.secretAccessKey);
      EncryptedIsStored(x, ivs.account, v.serviceAccountKey);
    }
  }

  function EncryptValues<Key>(x: Context<Key>, ivs: Vectors, v: Values, modified: set<Part>): Values {
    Values(
      if SecretPart in modified then EncryptIfNeeded(x, ivs.secret, v.secret) else v.secret,
      if BearerPart in modified then EncryptIfNeeded(x, ivs.bearer, v.bearerToken) else v.bearerToken,
      if OAuth2Part in modified then EncryptIfNeeded(x, ivs.client, v.clientSecret) else v.clientSecret,
      if MtlsPart in modified then EncryptIfNeeded(x, ivs.private_, v.privateKey) else v.privateKey,
      if StoragePart in modified then EncryptIfNeeded(x, ivs.access, v.secretAccessKey) else v.secretAccessKey,
      if StoragePart in modified then EncryptIfNeeded(x, ivs.account, v.serviceAccountKey) else v.serviceAccountKey)
  }

  const ALL_PARTS := {SecretPart, BearerPart, OAuth2Part, MtlsPart, StoragePart}

  class EndpointDoc {
    var secret: Option<string>
    var bearerToken: Option<string>
    var clientSecret: Option<string>
    var privateKey: Option<string>
    var secretAccessKey: Option<string>
    var serviceAccountKey: Option<string>
    var modified: set<Part>

    ghost function Contents(): Values
      reads this
    {
      Values(secret, bearerToken, clientSecret, privateKey, secretAccessKey, serviceAccountKey)
    }

    constructor (v: Values, modified: set<Part>)
      ensures Contents() == v && this.modified == modified
    {
      secret, bearerToken, clientSecret := v.secret, v.bearerToken, v.clientSecret;
      privateKey, secretAccessKey, serviceAccountKey := v.privateKey, v.secretAccessKey, v.serviceAccountKey;
      this.modified := modified;
    }

    /** The save hook: every modified secret that is set and not yet an envelope is encrypted. */
    method BeforeSave<Key(!new)>(x: Context<Key>, ivs: Vectors)
      modifies this
      ensures modified == old(modified)
      ensures Contents() == EncryptValues(x, ivs, old(Contents()), modified)
      ensures Ideal(x.cipher) ==> StoredParts(x, old(Contents()), Contents(), modified)
    {
      ValuesAreStored(x, ivs, Contents(), modified);
      EncryptModified(x, ivs);
    }

    method EncryptModified<Key>(x: Context<Key>, ivs: Vectors)
      modifies this
      ensures modified == old(modified)
      ensures Contents() == EncryptValues(x, ivs, old(Contents()), modified)
    {
      if SecretPart in modified {
        secret := EncryptIfNeeded(x, ivs.secret, secret);
      }
      if BearerPart in modified {
        bearerToken := EncryptIfNeeded(x, ivs.bearer, bearerToken);
      }
      if OAuth2Part in modified && clientSecret.Some? {
        clientSecret := EncryptIfNeeded(x, ivs.client, clientSecret);
      }
      if MtlsPart in modified && privateKey.Some? {
        privateKey := EncryptIfNeeded(x, ivs.private_, privateKey);
      }
      if StoragePart in modified {
        if secretAccessKey.Some? {
          secretAccessKey := EncryptIfNeeded(x, ivs.access, secretAccessKey);
        }
        if serviceAccountKey.Some? {
          serviceAccountKey := EncryptIfNeeded(x, ivs.account, serviceAccountKey);
        }
      }
    }

    /** The update hook, on the fields of a patch. */
    method EncryptUpdatePatch<Key(!new)>(x: Context<Key>, ivs: Vectors)
      modifies this
      ensures modified == old(modified)
      ensures Contents() == EncryptValues(x, ivs, old(Contents()), ALL_PARTS)
      ensures Ideal(x.cipher) ==>
                StoredParts(x, old(Contents()), Contents(), {SecretPart, BearerPart, OAuth2Part, MtlsPart, StoragePart})
    {
      ValuesAreStored(x, ivs, Contents(), ALL_PARTS);
      EncryptPresent(x, ivs);
    }

    method EncryptPresent<Key>(x: Context<Key>, ivs: Vectors)
      modifies this
      ensures modified == old(modified)
      ensures Contents() == EncryptValues(x, ivs, old(Contents()), ALL_PARTS)
    {
      if secret.Some? {
        secret := EncryptIfNeeded(x, ivs.secret, secret);
      }
      if bearerToken.Some? {
        bearerToken := EncryptIfNeeded(x, ivs.bearer, bearerToken);
      }
      if clientSecret.Some? {
        clientSecret := EncryptIfNeeded(x, ivs.client, clientSecret);
      }
      if privateKey.Some? {
        privateKey := EncryptIfNeeded(x, ivs.private_, privateKey);
      }
      if secretAccessKey.Some? {
        secretAccessKey := EncryptIfNeeded(x, ivs.access, secretAccessKey);
      }
      if serviceAccountKey.Some? {
        serviceAccountKey := EncryptIfNeeded(x, ivs.account, serviceAccountKey);
      }
    }

    /** Decrypts in place; stops at the first field that no key opens. */
    method DecryptSecrets<Key(==)>(x: Context<Key>) returns (done: bool)
      modifies this
      ensures modified == old(modified)
      ensures done <==> DecryptValues(x, old(Contents())).Ok?
      ensures done ==> DecryptValues(x, old(Contents())) == Ok(Contents())
    {
      done := false;
      var r := DecryptField(x, secret);
      if r.Err? { return; }
      secret := r.value;
      r := DecryptField(x, bearerToken);
      if r.Err? { return; }
      bearerToken := r.value;
      r := DecryptField(x, clientSecret);
      if r.Err? { return; }
      clientSecret := r.value;
      r := DecryptField(x, privateKey);
      if r.Err? { return; }
      privateKey := r.value;
      r := DecryptField(x, secretAccessKey);
      if r.Err? { return; }
      secretAccessKey := r.value;
      r := DecryptField(x, serviceAccountKey);
      if r.Err? { return; }
      serviceAccountKey := r.value;
      done := true;
    }
  }

  function DecryptValues<Key(==)>(x: Context<Key>, v: Values): Result<Values, DecryptError> {
    var s, b, c := DecryptField(x, v.secret), DecryptField(x, v.bearerToken), DecryptField(x, v.clientSecret);
    var p, a, k := DecryptField(x, v.privateKey), DecryptField(x, v.secretAccessKey), DecryptField(x, v.serviceAccountKey);
    if s.Ok? && b.Ok? && c.Ok? && p.Ok? && a.Ok? && k.Ok?
    then Ok(Values(s.value, b.value, c.value, p.value, a.value, k.value))
    else Err(NoKeyFits)
  }

  function DecryptField<Key(==)>(x: Context<Key>, v: Option<string>): Result<Option<string>, DecryptError> {
    if v.None? then Ok(v)
    else
      var r := Decrypt(x.cipher, x.cfg, v.value);
      if r.Ok? then Ok(Some(r.value)) else Err(r.error)
  }

  lemma EncryptedOnce<Key>(x: Context<Key>, y: Context<Key>, iv: Bytes, iv': Bytes, v: Option<string>)
    requires x.cfg.current.Some?
    ensures EncryptIfNeeded(y, iv', EncryptIfNeeded(x, iv, v)) == EncryptIfNeeded(x, iv, v)
  {
    if v.Some? {
      EnvelopeStarts(Some(x.cfg.version), iv, x.cipher.seal(x.cfg.current.value, iv, v.value));
    }
  }

  /** Saving again changes nothing, even with other vectors, keys or versions in force. */
  lemma SaveIdempotent<Key>(x: Context<Key>, y: Context<Key>, ivs: Vectors, ivs': Vectors, v: Values, modified: set<Part>)
    requires x.cfg.current.Some?
    ensures var once := EncryptValues(x, ivs, v, modified);
            EncryptValues(y, ivs', once, modified) == once
  {
    EncryptedOnce(x, y, ivs.secret, ivs'.secret, v.secret);
    EncryptedOnce(x, y, ivs.bearer, ivs'.bearer, v.bearerToken);
    EncryptedOnce(x, y, ivs.client, ivs'.client, v.clientSecret);
    EncryptedOnce(x, y, ivs.private_, ivs'.private_, v.privateKey);
    EncryptedOnce(x, y, ivs.access, ivs'.access, v.secretAccessKey);
    EncryptedOnce(x, y, ivs.account, ivs'.account, v.serviceAccountKey);
  }

  /** Any key that was current in `x` is still configured in `later`, as current or previous, beside a current key. */
  predicate KeepsKey<Key(==)>(x: Context<Key>, later: Context<Key>) {
    x.cfg.current.Some? ==>
      later.cfg.current.Some? && (x.cfg.current == later.cfg.current || x.cfg.current == later.cfg.previous)
  }

  predicate TriedField<Key>(x: Context<Key>, v: Option<string>) {
    v.Some? && Tried(x.cfg, v.value)
  }

  /**
   A stored secret comes back, now and after one rotation, exactly when decryption tries no key on the secret itself: it
   lacks the prefix, does not have four or five parts, lacks a vector, a tag or data, or no key is picked for it.
   */
  lemma SecretComesBack<Key(!new)>(x: Context<Key>, later: Context<Key>, iv: Bytes, v: Option<string>)
    requires Sound(x) && later.cfg.version != "" && later.cipher == x.cipher && KeepsKey(x, later) && iv != []
    ensures DecryptField(later, EncryptIfNeeded(x, iv, v)) == Ok(v) <==> !TriedField(later, v)
  {
    if v.Some? {
      if v.value == "" || IsEnvelope(v.value) || x.cfg.current.None? {
        LeftAloneIffNotTried(later.cipher, later.cfg, v.value);
      } else {
        RecoveredAfterRotation(x.cipher, later.cfg, x.cfg.current.value, Some(x.cfg.version), iv, v.value);
      }
    }
  }

  /** A field saved at most twice. */
  function SavedField<Key>(x: Context<Key>, y: Context<Key>, iv: Bytes, iv': Bytes, v: Option<string>,
                           first: bool, second: bool): Option<string> {
    var once := if first then EncryptIfNeeded(x, iv, v) else v;
    if second then EncryptIfNeeded(y, iv', once) else once
  }

  lemma SavedFieldComesBack<Key(!new)>(x: Context<Key>, y: Context<Key>, later: Context<Key>, iv: Bytes, iv': Bytes,
                                       v: Option<string>, first: bool, second: bool)
    requires Sound(x) && Sound(y) && later.cfg.version != "" && later.cipher == x.cipher == y.cipher
    requires KeepsKey(x, later) && KeepsKey(y, later) && iv != [] && iv' != []
    ensures DecryptField(later, SavedField(x, y, iv, iv', v, first, second)) == Ok(v) <==> !TriedField(later, v)
  {
    if v.Some? {
      LeftAloneIffNotTried(later.cipher, later.cfg, v.value);
    }
    SecretComesBack(x, later, iv, v);
    SecretComesBack(y, later, iv', v);
    if x.cfg.current.Some? {
      EncryptedOnce(x, y, iv, iv', v);
    }
  }

  lemma SavedTwice<Key>(x: Context<Key>, y: Context<Key>, ivs: Vectors, ivs': Vectors, v: Values,
                        first: set<Part>, second: set<Part>)
    ensures EncryptValues(y, ivs', EncryptValues(x, ivs, v, first), second) ==
            Values(SavedField(x, y, ivs.secret, ivs'.secret, v.secret, SecretPart in first, SecretPart in second),
                   SavedField(x, y, ivs.bearer, ivs'.bearer, v.bearerToken, BearerPart in first, BearerPart in second),
                   SavedField(x, y, ivs.client, ivs'.client, v.clientSecret, OAuth2Part in first, OAuth2Part in second),
                   SavedField(x, y, ivs.private_, ivs'.private_, v.privateKey, MtlsPart in first, MtlsPart in second),
                   SavedField(x, y, ivs.access, ivs'.access, v.secretAccessKey, StoragePart in first, StoragePart in second),
                   SavedField(x, y, ivs.account, ivs'.account, v.serviceAccountKey, StoragePart in first, StoragePart in second))
  {
  }

  lemma DecryptedFieldwise<Key>(x: Context<Key>, stored: Values, v: Values)
    ensures DecryptValues(x, stored) == Ok(v) <==>
            && DecryptField(x, stored.secret) == Ok(v.secret) && DecryptField(x, stored.bearerToken) == Ok(v.bearerToken)
            && DecryptField(x, stored.clientSecret) == Ok(v.clientSecret) && DecryptField(x, stored.privateKey) == Ok(v.privateKey)
            && DecryptField(x, stored.secretAccessKey) == Ok(v.secretAccessKey)
            && DecryptField(x, stored.serviceAccountKey) == Ok(v.serviceAccountKey)
  {
  }

  /**
   A document saved twice, with any parts modified each time and a key rotation in between, decrypts to the secrets it
   was given exactly when decryption tries no key on a secret itself.
   */
  lemma SaveThenDecrypt<Key(!new)>(x: Context<Key>, y: Context<Key>, later: Context<Key>, ivs: Vectors, ivs': Vectors,
                                   v: Values, first: set<Part>, second: set<Part>)
    requires Sound(x) && Sound(y) && later.cfg.version != "" && later.cipher == x.cipher == y.cipher
    requires KeepsKey(x, later) && KeepsKey(y, later) && NonEmpty(ivs) && NonEmpty(ivs')
    ensures DecryptValues(later, EncryptValues(y, ivs', EncryptValues(x, ivs, v, first), second)) == Ok(v) <==>
            && !TriedField(later, v.secret) && !TriedField(later, v.bearerToken) && !TriedField(later, v.clientSecret)
            && !TriedField(later, v.privateKey) && !TriedField(later, v.secretAccessKey)
            && !TriedField(later, v.serviceAccountKey)
  {
    SavedTwice(x, y, ivs, ivs', v, first, second);
    DecryptedFieldwise(later, EncryptValues(y, ivs', EncryptValues(x, ivs, v, first), second), v);
    SavedFieldComesBack(x, y, later, ivs.secret, ivs'.secret, v.secret, SecretPart in first, SecretPart in second);
    SavedFieldComesBack(x, y, later, ivs.bearer, ivs'.bearer, v.bearerToken, BearerPart in first, BearerPart in second);
    SavedFieldComesBack(x, y, later, ivs.client, ivs'.client, v.clientSecret, OAuth2Part in first, OAuth2Part in second);
    SavedFieldComesBack(x, y, later, ivs.private_, ivs'.private_, v.privateKey, MtlsPart in first, MtlsPart in second);
    SavedFieldComesBack(x, y, later, ivs.access, ivs'.access, v.secretAccessKey, StoragePart in first, StoragePart in second);
    SavedFieldComesBack(x, y, later, ivs.account, ivs'.account, v.serviceAccountKey,
                        StoragePart in first, StoragePart in second);
  }

  /** A secret that is itself an envelope under a configured key is stored as it is and comes back opened. */
  lemma EnvelopeSecretIsLost<Key(!new)>(x: Context<Key>, iv: Bytes, iv': Bytes, inner: string)
    requires Sound(x) && x.cfg.current.Some? && inner != "" && iv != []
    ensures var v := Encrypt(x.cipher, x.cfg, iv, inner);
            DecryptField(x, EncryptIfNeeded(x, iv', Some(v))) == Ok(Some(inner)) && v != inner
  {
    var s := x.cipher.seal(x.cfg.current.value, iv, inner);
    assert |s.data| >= |inner|;
    EnvelopeStarts(Some(x.cfg.version), iv, s);
    EnvelopeLonger(Some(x.cfg.version), iv, s);
    DecryptInvertsEncrypt(x.cipher, x.cfg, iv, inner);
  }
}
