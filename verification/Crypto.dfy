// The block cipher of src/common/crypto.c, which is built over either AES implementation.
module Crypto {
  import opened Aes
  import SlowAes
  import PolarAes

  // The build-time choice between USE_SLOWAES and USE_POLARSSL.
  datatype Backend = ByteOriented | TableDriven

  method AesEncrypt(backend: Backend, key: array<bv8>, plain: array<bv8>, encrypted: array<bv8>)
    requires key.Length == 32 && plain.Length == encrypted.Length == 16 && key != encrypted
    modifies encrypted
    ensures BlockAt(encrypted[..], 0) == Cipher(KeyAt(key[..]), old(BlockAt(plain[..], 0)))
  {
    match backend
    case ByteOriented => SlowAes.CryptoAesEncrypt(key, plain, encrypted);
    case TableDriven => PolarAes.CryptoAesEncrypt(key, plain, encrypted);
  }

  method AesDecrypt(backend: Backend, key: array<bv8>, encrypted: array<bv8>, decrypted: array<bv8>)
    requires key.Length == 32 && encrypted.Length == decrypted.Length == 16 && key != decrypted
    modifies decrypted
    ensures BlockAt(decrypted[..], 0) == InvCipher(KeyAt(key[..]), old(BlockAt(encrypted[..], 0)))
  {
    match backend
    case ByteOriented => SlowAes.CryptoAesDecrypt(key, encrypted, decrypted);
    case TableDriven => PolarAes.CryptoAesDecrypt(key, encrypted, decrypted);
  }

  // A block that one build encrypted, and either build decrypts, comes back byte for byte; and both
  // builds encrypt to the same bytes.
  method RoundTrip(b: Backend, c: Backend, key: array<bv8>, plain: array<bv8>)
    returns (encrypted: array<bv8>, other: array<bv8>, decrypted: array<bv8>)
    requires key.Length == 32 && plain.Length == 16
    ensures encrypted[..] == other[..]
    ensures decrypted[..] == plain[..]
  {
    hide Cipher, InvCipher, KeyAt, BlockAt;
    encrypted, other, decrypted := new bv8[16], new bv8[16], new bv8[16];
    AesEncrypt(b, key, plain, encrypted);
    AesEncrypt(c, key, plain, other);
    AesDecrypt(c, key, encrypted, decrypted);
    CipherInverse(KeyAt(key[..]), BlockAt(plain[..], 0));
    BlockDeterminesBytes(encrypted[..], other[..]);
    BlockDeterminesBytes(decrypted[..], plain[..]);
  }
}
