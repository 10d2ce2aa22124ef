/** fl_crypto_encrypt and fl_crypto_decrypt: ChaCha20 with a Poly1305 tag over the
    ciphertext, in place on the payload buffer. */
module Sealing {
  import opened Words
  import opened Bits
  import opened ChaCha20
  import opened Poly1305Finish
  import Poly1305

  datatype Status = Ok | AuthenticationFailed

  const NO_TAG: bytes := [0, 0, 0, 0, 0, 0, 0, 0, 0, 0, 0, 0, 0, 0, 0, 0]

  function Zeros(n: nat): (z: bytes)
    ensures |z| == n
  {
    seq(n, _ => 0)
  }

  /** The one-time key: the first 32 bytes of the stream at counter 0. */
  function OneTimeKey(key: bytes, nonce: bytes): (k: bytes)
    requires |key| == 32 && |nonce| == 12
    ensures |k| == 32
  {
    Ciphered(key, nonce, 0, Zeros(32))
  }

  /** What the message becomes, and the tag that goes with a ciphertext. */
  function Sealed(key: bytes, nonce: bytes, m: bytes): (c: bytes)
    requires |key| == 32 && |nonce| == 12
    ensures |c| == |m|
  {
    Ciphered(key, nonce, 1, m)
  }

  function TagOf(key: bytes, nonce: bytes, c: bytes): (t: bytes)
    requires |key| == 32 && |nonce| == 12
    ensures |t| == 16
  {
    MacTag(OneTimeKey(key, nonce), c)
  }

  /** Key and message take one stream, that of counter 0: the one-time key its first 32 bytes,
      the message those from byte 64 on. */
  lemma OneStream(key: bytes, nonce: bytes, m: bytes, k: bytes)
    requires |key| == 32 && |nonce| == 12
    requires |k| == 32 && forall i :: 0 <= i < 32 ==> k[i] == StreamByte(key, nonce, 0, i)
    ensures forall i :: 0 <= i < |m| ==>
              Sealed(key, nonce, m)[i] as nat == Xor(m[i], StreamByte(key, nonce, 0, 64 + i))
    ensures TagOf(key, nonce, m) == MacTag(k, m)
  {
    hide StreamByte, Xor, MacTag;
    forall i | 0 <= i < |m|
      ensures StreamByte(key, nonce, 0, 64 + i) == StreamByte(key, nonce, 1, i)
    {
      NextBlock(key, nonce, i);
    }
    forall i | 0 <= i < 32
      ensures OneTimeKey(key, nonce)[i] == k[i]
    {
      ZeroXor(StreamByte(key, nonce, 0, i));
    }
    assert OneTimeKey(key, nonce) == k;
  }

  lemma ZeroXor(x: u8)
    ensures Xor(0, x) == x
  {
  }

  lemma NextBlock(key: bytes, nonce: bytes, i: nat)
    requires |key| == 32 && |nonce| == 12
    ensures StreamByte(key, nonce, 0, 64 + i) == StreamByte(key, nonce, 1, i)
  {
    hide Serialized, BlockOf, Input;
    assert (64 + i) / 64 == 1 + i / 64 && (64 + i) % 64 == i % 64;
  }

  class Session {
    var key: bytes
    var encryptEnabled: bool
    var handshakeDone: bool

    constructor (key: bytes)
      requires |key| == 32
      ensures this.key == key && Active()
    {
      this.key := key;
      encryptEnabled, handshakeDone := true, true;
    }

    predicate Active()
      reads this
    {
      encryptEnabled && handshakeDone
    }

    /** fl_crypto_encrypt, in place.  An active session takes only the buffer lengths for which
        poly1305_finish stays inside its block. */
    method Encrypt(buf: array<u8>, nonce: bytes) returns (tag: bytes)
      requires |key| == 32 && |nonce| == 12 && buf.Length < TWO16
      requires Active() ==> buf.Length == 0 || buf.Length % 16 != 0
      modifies buf
      ensures !Active() ==> buf[..] == old(buf[..]) && tag == NO_TAG
      ensures Active() ==> buf[..] == Sealed(key, nonce, old(buf[..])) && tag == TagOf(key, nonce, buf[..])
    {
      hide Ciphered, MacTag;
      if !encryptEnabled || !handshakeDone {
        return NO_TAG;
      }
      var polyKey := new u8[32](_ => 0);
      assert polyKey[..] == Zeros(32);
      XorStream(key, nonce, 0, polyKey);
      XorStream(key, nonce, 1, buf);
      tag := Poly1305.Authenticate(polyKey[..], buf[..]);
    }

    /** Checks the tag before touching the buffer. */
    method Decrypt(buf: array<u8>, nonce: bytes, tag: bytes) returns (r: Status)
      requires |key| == 32 && |nonce| == 12 && |tag| == 16 && buf.Length < TWO16
      requires Active() ==> buf.Length == 0 || buf.Length % 16 != 0
      modifies buf
      ensures !Active() ==> r == Ok && buf[..] == old(buf[..])
      ensures Active() ==> (r == Ok <==> tag == TagOf(key, nonce, old(buf[..])))
      ensures Active() && r == Ok ==> buf[..] == Sealed(key, nonce, old(buf[..]))
      ensures r != Ok ==> buf[..] == old(buf[..])
    {
      hide Ciphered, MacTag;
      if !encryptEnabled || !handshakeDone {
        return Ok;
      }
      var polyKey := new u8[32](_ => 0);
      assert polyKey[..] == Zeros(32);
      XorStream(key, nonce, 0, polyKey);
      var expected := Poly1305.Authenticate(polyKey[..], buf[..]);
      var same := ConstantTimeEqual(tag, expected);
      if !same {
        return AuthenticationFailed;
      }
      XorStream(key, nonce, 1, buf);
      r := Ok;
    }
  }

  /** diff |= a[i] ^ b[i] over all sixteen bytes. */
  method ConstantTimeEqual(a: bytes, b: bytes) returns (same: bool)
    requires |a| == |b| == 16
    ensures same <==> a == b
  {
    var diff: nat := 0;
    for i := 0 to 16
      invariant diff == 0 <==> a[..i] == b[..i]
    {
      XorZero(a[i], b[i]);
      OrZero(diff, Xor(a[i], b[i]));
      assert a[..i + 1] == a[..i] + [a[i]] && b[..i + 1] == b[..i] + [b[i]];
      diff := Or(diff, Xor(a[i], b[i]));
    }
    assert a[..16] == a && b[..16] == b;
    same := diff == 0;
  }

  /** Two ends with the same session key: what one seals the other opens, for every
      nonce and every length the tag is computed for; with any other tag the buffer
      keeps the ciphertext. */
  method RoundTrip(sender: Session, receiver: Session, buf: array<u8>, nonce: bytes, arrived: bytes)
    returns (tag: bytes, r: Status)
    requires sender.Active() && receiver.Active() && sender.key == receiver.key
    requires |sender.key| == 32 && |nonce| == 12 && |arrived| == 16
    requires buf.Length < TWO16 && (buf.Length == 0 || buf.Length % 16 != 0)
    modifies buf
    ensures r == Ok <==> arrived == tag
    ensures r == Ok ==> buf[..] == old(buf[..])
    ensures r != Ok ==> buf[..] == Sealed(sender.key, nonce, old(buf[..]))
  {
    hide Ciphered, MacTag;
    ghost var m := buf[..];
    tag := sender.Encrypt(buf, nonce);
    r := receiver.Decrypt(buf, nonce, arrived);
    CipherTwice(sender.key, nonce, 1, m);
  }
}
