/**
 * `UnauthenticatedEncryptionStore`: a decorator that hides the wrapped
 * store's token id by encrypting its UTF-8 bytes with AES in counter mode,
 * without any integrity check. A token is the base64url IV, a dot, and the
 * base64url ciphertext. Counter mode XORs a key stream into the data, so an
 * attacker who flips ciphertext bits flips the same plaintext bits and the
 * store cannot tell.
 */
module UnauthenticatedEncryptionStore {
  import opened Common
  import opened JavaStrings
  import opened Base64url
  import opened ByteXor
  import opened TokenStore

  /** The AES block size: the IV length counter mode accepts. */
  const IvLength := 16

  /** The AES-CTR key stream of the store's key: `n` bytes for an IV. */
  type KeyStream = f: (seq<byte>, nat) -> seq<byte> | forall iv, n :: |f(iv, n)| == n
    witness (iv: seq<byte>, n: nat) => Zeros(n)

  /**
   * `Cipher.getInstance("AES/CTR/NoPadding")` under the store's key:
   * `keyAccepted` is false when `init` rejects the key.
   */
  datatype CtrCipher = CtrCipher(keyAccepted: bool, stream: KeyStream)

  /**
   * `encrypt`: with the IV the provider picks, the ciphertext is the data
   * XORed with the key stream; a rejected key is a `GeneralSecurityException`
   * rethrown as a `RuntimeException`.
   */
  function Encrypt(cipher: CtrCipher, iv: seq<byte>, data: seq<byte>): (r: Result<string, Exception>)
    requires |iv| == IvLength
    ensures r.Err? <==> !cipher.keyAccepted
    ensures r.Err? ==> r.error == RuntimeFailure
    ensures r.Ok? ==> var h := EncodeUrl(iv);
      IndexOf(r.value, '.') == |h| && r.value[..|h|] == h &&
      DecodeUrl(r.value[|h| + 1..]) == Some(XorBytes(data, cipher.stream(iv, |data|)))
  {
    if !cipher.keyAccepted then Err(RuntimeFailure)
    else
      var ciphertext := XorBytes(data, cipher.stream(iv, |data|));
      var h := EncodeUrl(iv);
      var r := h + "." + EncodeUrl(ciphertext);
      assert r[..|h|] == h && r[|h| + 1..] == EncodeUrl(ciphertext);
      RoundTrip(ciphertext);
      Ok(r)
  }

  /**
   * The bytes `decrypt` recovers: none without a dot; an IV or ciphertext
   * that is not base64url throws from the decoder; a rejected key or an IV
   * of the wrong length is a `GeneralSecurityException`, read as empty.
   */
  function DecryptBytes(cipher: CtrCipher, encrypted: string): (r: Result<Option<seq<byte>>, Exception>)
    ensures '.' !in encrypted ==> r == Ok(None)
    ensures r.Ok? && r.value.Some? ==> cipher.keyAccepted
    ensures '.' in encrypted ==>
      var i := IndexOf(encrypted, '.');
      var iv, ciphertext := DecodeUrl(encrypted[..i]), DecodeUrl(encrypted[i + 1..]);
      (iv.None? || ciphertext.None? ==> r == Err(IllegalArgument("Illegal base64 character"))) &&
      (iv.Some? && ciphertext.Some? && (!cipher.keyAccepted || |iv.value| != IvLength) ==> r == Ok(None)) &&
      (iv.Some? && ciphertext.Some? && cipher.keyAccepted && |iv.value| == IvLength ==>
        r == Ok(Some(XorBytes(ciphertext.value, cipher.stream(iv.value, |ciphertext.value|)))))
  {
    var index := IndexOf(encrypted, '.');
    if index == -1 then Ok(None)
    else
      match (DecodeUrl(encrypted[..index]), DecodeUrl(encrypted[index + 1..]))
      case (None, _) => Err(IllegalArgument("Illegal base64 character"))
      case (_, None) => Err(IllegalArgument("Illegal base64 character"))
      case (Some(iv), Some(ciphertext)) =>
        if !cipher.keyAccepted || |iv| != IvLength then Ok(None)
        else Ok(Some(XorBytes(ciphertext, cipher.stream(iv, |ciphertext|))))
  }

  /** `decrypt`: the recovered bytes read as UTF-8. */
  function Decrypt(cipher: CtrCipher, utf8: Utf8, encrypted: string): (r: Result<Option<string>, Exception>)
    ensures r.Err? <==> DecryptBytes(cipher, encrypted).Err?
    ensures r.Ok? ==> (r.value.Some? <==> DecryptBytes(cipher, encrypted).value.Some?)
    ensures r.Ok? && r.value.Some? ==> r.value.value == utf8.decode(DecryptBytes(cipher, encrypted).value.value)
  {
    match DecryptBytes(cipher, encrypted)
    case Err(e) => Err(e)
    case Ok(None) => Ok(None)
    case Ok(Some(plaintext)) => Ok(Some(utf8.decode(plaintext)))
  }

  /** `create`: the wrapped store's id, encrypted. */
  function Create(cipher: CtrCipher, utf8: Utf8, iv: seq<byte>, tokenId: string): (r: Result<string, Exception>)
    requires |iv| == IvLength
    ensures r.Err? <==> !cipher.keyAccepted
    ensures r.Ok? ==> DecryptBytes(cipher, r.value) == Ok(Some(utf8.encode(tokenId)))
  {
    var data := utf8.encode(tokenId);
    var r := Encrypt(cipher, iv, data);
    if r.Ok? then
      EncryptThenDecrypt(cipher, iv, data);
      r
    else r
  }

  /** Decryption undoes encryption under the same key and IV. */
  lemma EncryptThenDecrypt(cipher: CtrCipher, iv: seq<byte>, data: seq<byte>)
    requires |iv| == IvLength && cipher.keyAccepted
    ensures DecryptBytes(cipher, Encrypt(cipher, iv, data).value) == Ok(Some(data))
  {
    var ciphertext := XorBytes(data, cipher.stream(iv, |data|));
    assert Encrypt(cipher, iv, data).value == EncodeUrl(iv) + "." + EncodeUrl(ciphertext);
    DecryptToken(cipher, iv, ciphertext);
    XorBytesTwice(data, cipher.stream(iv, |data|));
  }

  /** `read`: the wrapped store's token for the decrypted id, without asking it otherwise. */
  function Read(cipher: CtrCipher, utf8: Utf8, delegate: Reader, tokenId: string): (r: Result<Option<Token>, Exception>)
    ensures r.Err? <==> Decrypt(cipher, utf8, tokenId).Err?
    ensures Decrypt(cipher, utf8, tokenId) == Ok(None) ==> r == Ok(None)
    ensures forall id :: Decrypt(cipher, utf8, tokenId) == Ok(Some(id)) ==> r == Ok(delegate(id))
  {
    match Decrypt(cipher, utf8, tokenId)
    case Err(e) => Err(e)
    case Ok(None) => Ok(None)
    case Ok(Some(id)) => Ok(delegate(id))
  }

  /** `revoke`: the id the wrapped store is asked to revoke, if any: the one `read` would look up. */
  function Revoke(cipher: CtrCipher, utf8: Utf8, tokenId: string): (revoked: Result<Option<string>, Exception>)
    ensures revoked.Err? <==> forall delegate: Reader :: Read(cipher, utf8, delegate, tokenId).Err?
    ensures revoked.Ok? && revoked.value.Some? ==> forall delegate: Reader ::
      Read(cipher, utf8, delegate, tokenId) == Ok(delegate(revoked.value.value))
    ensures revoked.Ok? && revoked.value.None? ==> forall delegate: Reader ::
      Read(cipher, utf8, delegate, tokenId) == Ok(None)
  {
    var r := Decrypt(cipher, utf8, tokenId);
    assert r.Ok? ==> Read(cipher, utf8, _ => None, tokenId).Ok?;
    r
  }

  /**
   * A created token reads back as the wrapped store's token, and revokes
   * the wrapped id, whenever the id survives the UTF-8 round trip.
   */
  lemma ReadCreate(cipher: CtrCipher, utf8: Utf8, delegate: Reader, iv: seq<byte>, tokenId: string)
    requires |iv| == IvLength && cipher.keyAccepted
    requires utf8.decode(utf8.encode(tokenId)) == tokenId
    ensures Create(cipher, utf8, iv, tokenId).Ok?
    ensures Read(cipher, utf8, delegate, Create(cipher, utf8, iv, tokenId).value) == Ok(delegate(tokenId))
    ensures Revoke(cipher, utf8, Create(cipher, utf8, iv, tokenId).value) == Ok(Some(tokenId))
  {
  }

  /** A well-formed token of an IV and a ciphertext decrypts to the ciphertext XORed with the key stream. */
  lemma DecryptToken(cipher: CtrCipher, iv: seq<byte>, ciphertext: seq<byte>)
    requires |iv| == IvLength && cipher.keyAccepted
    ensures DecryptBytes(cipher, EncodeUrl(iv) + "." + EncodeUrl(ciphertext)) ==
      Ok(Some(XorBytes(ciphertext, cipher.stream(iv, |ciphertext|))))
  {
    IndexOfJoined(EncodeUrl(iv), '.', EncodeUrl(ciphertext));
    RoundTrip(iv);
    RoundTrip(ciphertext);
  }

  /**
   * Counter mode without authentication is malleable: XORing any mask into
   * the ciphertext of a token XORs the same mask into the id the store
   * decrypts, and `read` passes that altered id on to the wrapped store.
   */
  lemma Malleable(cipher: CtrCipher, iv: seq<byte>, data: seq<byte>, mask: seq<byte>)
    requires |iv| == IvLength && cipher.keyAccepted && |mask| == |data|
    ensures var ciphertext := XorBytes(data, cipher.stream(iv, |data|));
      DecryptBytes(cipher, EncodeUrl(iv) + "." + EncodeUrl(XorBytes(ciphertext, mask))) ==
      Ok(Some(XorBytes(data, mask)))
  {
    var ks := cipher.stream(iv, |data|);
    var forged := XorBytes(XorBytes(data, ks), mask);
    DecryptToken(cipher, iv, forged);
    XorBytesSwap(data, ks, mask);
    XorBytesTwice(XorBytes(data, mask), ks);
  }
}
