/** Which backup files can be read, and with which passphrases. */
module ContainerUnlocking {
  import opened Text
  import opened Container

  /** Opening a sealed text succeeds exactly on what sealing that very text gives, as AES-GCM does. */
  ghost predicate Authentic<M(!new)>(c: Codecs<M>) {
    forall k, n, x, a, b :: c.unseal(k, n, x, a) == Some(b) <==> x == c.seal(k, n, b, a)
  }

  /** The file is a header of a supported version, framed with a payload. */
  ghost predicate IsFile<M>(c: Codecs<M>, blob: Bytes, h: Value, bytes: Bytes, payload: Bytes) {
    && blob == Framed(bytes, payload) && NEWLINE !in bytes
    && c.readHeader(bytes) == Some(h) && h.Obj?
    && "v" in h.fields && exists v :: v <= 1 && h.fields["v"] == Int(v)
  }

  lemma HeaderIs<M>(c: Codecs<M>, blob: Bytes, h: Value, bytes: Bytes, payload: Bytes)
    ensures Header(c, blob) == Some((h, bytes, payload)) <==> IsFile(c, blob, h, bytes, payload)
  {
    hide Split, Framed;
    SplitIs(blob, bytes, payload);
    if h.Obj? && "v" in h.fields && h.fields["v"].Int? { assert h.fields["v"] == Int(h.fields["v"].n); }
  }

  /** The payload is `inner`, sealed with the key of the passphrase and the header. */
  ghost predicate SealedWith<M>(c: Codecs<M>, enc: Value, passphrase: string, bytes: Bytes, payload: Bytes,
    inner: Bytes)
  {
    exists q :: ReadParams(c, enc) == Ok(q)
      && payload == c.seal(c.derive(passphrase, q.salt, q.n, q.r, q.p), q.nonce, inner, bytes)
  }

  /** What the file holds for a reader with this passphrase. */
  ghost predicate Holds<M>(c: Codecs<M>, h: Value, bytes: Bytes, payload: Bytes, passphrase: Option<string>,
    inner: Bytes)
  {
    if Truthy(Enc(h)) then HasText(passphrase) && SealedWith(c, Enc(h), passphrase.value, bytes, payload, inner)
    else inner == payload
  }

  lemma SealedIs<M(!new)>(c: Codecs<M>, enc: Value, passphrase: string, bytes: Bytes, payload: Bytes, inner: Bytes)
    requires Authentic(c) && ReadParams(c, enc).Ok?
    ensures var q := ReadParams(c, enc).value;
      SealedWith(c, enc, passphrase, bytes, payload, inner)
      <==> c.unseal(c.derive(passphrase, q.salt, q.n, q.r, q.p), q.nonce, payload, bytes) == Some(inner)
  {
    hide ReadParams;
  }

  lemma ParamsNeedNoPassphrase<M>(c: Codecs<M>, enc: Value)
    ensures ReadParams(c, enc) != BadPassphrase
  {
    hide Acceptable;
    assert forall name :: BytesField(c, enc, name) != BadPassphrase;
    assert forall name :: IntField(c, enc, name) != BadPassphrase;
    hide BytesField, IntField;
  }

  lemma OneFile<M>(c: Codecs<M>, blob: Bytes)
    ensures forall h, bytes, payload ::
      IsFile(c, blob, h, bytes, payload) <==> Header(c, blob) == Some((h, bytes, payload))
  {
    hide IsFile, Header;
    forall h, bytes, payload
      ensures IsFile(c, blob, h, bytes, payload) <==> Header(c, blob) == Some((h, bytes, payload))
    {
      HeaderIs(c, blob, h, bytes, payload);
    }
  }

  /** A manifest is read exactly from the files that hold it for this passphrase. */
  lemma ReadExactly<M(!new)>(c: Codecs<M>, blob: Bytes, passphrase: Option<string>, m: M)
    requires Authentic(c)
    ensures Read(c, blob, passphrase) == Ok(m)
      <==> exists h, bytes, payload, inner ::
             && IsFile(c, blob, h, bytes, payload) && Holds(c, h, bytes, payload, passphrase, inner)
             && Unpack(c, inner) == Ok(m)
  {
    hide IsFile, Header, Truthy, Enc, ReadParams, Unpack, SealedWith, Authentic;
    OneFile(c, blob);
    if Header(c, blob).Some? {
      var (h, bytes, payload) := Header(c, blob).value;
      if HasText(passphrase) && ReadParams(c, Enc(h)).Ok? {
        forall inner { SealedIs(c, Enc(h), passphrase.value, bytes, payload, inner); }
      } else if HasText(passphrase) {
        NothingSealed(c, Enc(h), passphrase.value, bytes, payload);
      }
      assert Read(c, blob, passphrase) == Ok(m)
        <==> exists inner :: Holds(c, h, bytes, payload, passphrase, inner) && Unpack(c, inner) == Ok(m);
    }
  }

  lemma NothingSealed<M>(c: Codecs<M>, enc: Value, passphrase: string, bytes: Bytes, payload: Bytes)
    requires !ReadParams(c, enc).Ok?
    ensures forall inner :: !SealedWith(c, enc, passphrase, bytes, payload, inner)
  {
    hide ReadParams;
  }

  /** The passphrase is refused exactly on an encrypted file that it does not open. */
  lemma RefusedExactly<M(!new)>(c: Codecs<M>, blob: Bytes, passphrase: Option<string>)
    requires Authentic(c)
    ensures Read(c, blob, passphrase) == BadPassphrase
      <==> exists h, bytes, payload ::
             && IsFile(c, blob, h, bytes, payload) && Truthy(Enc(h))
             && (HasText(passphrase) ==> ReadParams(c, Enc(h)).Ok?)
             && forall inner :: !Holds(c, h, bytes, payload, passphrase, inner)
  {
    hide IsFile, Header, Truthy, Enc, ReadParams, SealedWith, Unpack, Authentic;
    OneFile(c, blob);
    UnpackNeedsNoPassphrase(c);
    if Header(c, blob).Some? {
      var (h, bytes, payload) := Header(c, blob).value;
      ParamsNeedNoPassphrase(c, Enc(h));
      if HasText(passphrase) && ReadParams(c, Enc(h)).Ok? {
        forall inner { SealedIs(c, Enc(h), passphrase.value, bytes, payload, inner); }
        var q := ReadParams(c, Enc(h)).value;
        var plain := c.unseal(c.derive(passphrase.value, q.salt, q.n, q.r, q.p), q.nonce, payload, bytes);
        if plain.Some? && Truthy(Enc(h)) { assert Holds(c, h, bytes, payload, passphrase, plain.value); }
      }
      assert !Truthy(Enc(h)) ==> Holds(c, h, bytes, payload, passphrase, payload);
      assert Read(c, blob, passphrase) == BadPassphrase
        <==> Truthy(Enc(h)) && (HasText(passphrase) ==> ReadParams(c, Enc(h)).Ok?)
               && forall inner :: !Holds(c, h, bytes, payload, passphrase, inner);
    }
  }

  /** Another passphrase on a written file: refused exactly if its key seals nothing into the same payload. */
  lemma OtherPassphrase<M(!new)>(c: Codecs<M>, m: M, mine: string, other: string, salt: Bytes, nonce: Bytes)
    requires Lawful(c) && Authentic(c) && |salt| == 16 && |nonce| == 12 && mine != "" && other != ""
    ensures var file := Write(c, m, Some(mine), salt, nonce);
      var header := c.printHeader(EncHeader(c, salt, nonce));
      var payload := c.seal(c.derive(mine, salt, N, R, P), nonce, c.zip(c.printManifest(m)), header);
      && (Read(c, file, Some(other)) == BadPassphrase
          <==> forall inner :: payload != c.seal(c.derive(other, salt, N, R, P), nonce, inner, header))
      && (c.derive(other, salt, N, R, P) == c.derive(mine, salt, N, R, P)
          ==> Read(c, file, Some(other)) == Read(c, file, Some(mine)))
  {
    hide Header, Framed, ReadParams, EncHeader, Truthy, Enc, Unpack;
    var h := EncHeader(c, salt, nonce);
    var bytes := c.printHeader(h);
    var payload := c.seal(c.derive(mine, salt, N, R, P), nonce, c.zip(c.printManifest(m)), bytes);
    EncHeaderFacts(c, salt, nonce);
    WrittenHeader(c, h, payload);
    WrittenParams(c, salt, nonce);
    var plain := c.unseal(c.derive(other, salt, N, R, P), nonce, payload, bytes);
    if plain.Some? { assert payload == c.seal(c.derive(other, salt, N, R, P), nonce, plain.value, bytes); }
    UnpackNeedsNoPassphrase(c);
  }

  lemma UnpackNeedsNoPassphrase<M(!new)>(c: Codecs<M>)
    ensures forall raw :: Unpack(c, raw) != BadPassphrase
  {
  }
}
