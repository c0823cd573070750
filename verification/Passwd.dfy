/** aidos/passwd.go: seeds and the pass phrase under AES in counter mode (section 6.5 of
    NIST SP 800-38A).  The block cipher appears only through the key stream it yields for an
    initial counter block; the random initial block is a parameter. */
module Passwd {
  import opened Gadk

  /** stream(iv) is the key stream that starts at the counter block iv. */
  datatype Cipher = Cipher(stream: seq<Byte> -> (nat -> Byte))

  const BLOCK_SIZE: nat := 16
  const PASS_PHRASE: seq<Byte> := [0x41, 0x69, 0x64, 0x6f, 0x73, 0x4b, 0x75, 0x6e, 0x65, 0x65, 0x6e]

  function XorStream(f: nat -> Byte, s: seq<Byte>): seq<Byte> {
    seq(|s|, i requires 0 <= i < |s| => s[i] ^ f(i))
  }

  function Encrypted(c: Cipher, iv: seq<Byte>, pt: seq<Byte>): seq<Byte> {
    iv + XorStream(c.stream(iv), pt)
  }

  function Decrypted(c: Cipher, ct: seq<Byte>): seq<Byte>
    requires |ct| >= BLOCK_SIZE
  {
    XorStream(c.stream(ct[..BLOCK_SIZE]), ct[BLOCK_SIZE..])
  }

  /** XORKeyStream of the Go standard library, from offset `at` of both buffers on. */
  method XorKeyStream(f: nat -> Byte, dst: array<Byte>, at: nat, src: seq<Byte>)
    requires dst.Length == at + |src|
    modifies dst
    ensures dst[..at] == old(dst[..at])
    ensures dst[at..] == XorStream(f, src)
  {
    for i := 0 to |src|
      invariant dst[..at] == old(dst[..at])
      invariant forall j :: 0 <= j < i ==> dst[at + j] == src[j] ^ f(j)
    {
      dst[at + i] := src[i] ^ f(i);
    }
  }

  method Encrypt(c: Cipher, iv: seq<Byte>, pt: seq<Byte>) returns (ct: array<Byte>)
    requires |iv| == BLOCK_SIZE
    ensures fresh(ct)
    ensures ct[..] == Encrypted(c, iv, pt)
  {
    ct := new Byte[BLOCK_SIZE + |pt|];
    for i := 0 to BLOCK_SIZE
      invariant ct[..i] == iv[..i]
    {
      ct[i] := iv[i];
    }
    XorKeyStream(c.stream(iv), ct, BLOCK_SIZE, pt);
    assert ct[..] == ct[..BLOCK_SIZE] + ct[BLOCK_SIZE..];
  }

  method Decrypt(c: Cipher, ct: seq<Byte>) returns (pt: array<Byte>)
    requires |ct| >= BLOCK_SIZE
    ensures fresh(pt)
    ensures pt[..] == Decrypted(c, ct)
  {
    pt := new Byte[|ct| - BLOCK_SIZE];
    XorKeyStream(c.stream(ct[..BLOCK_SIZE]), pt, 0, ct[BLOCK_SIZE..]);
    assert pt[..] == pt[0..];
  }

  /** Decryption with another cipher combines the two key streams. */
  lemma CrossDecrypt(c: Cipher, d: Cipher, iv: seq<Byte>, pt: seq<Byte>)
    requires |iv| == BLOCK_SIZE
    ensures Decrypted(d, Encrypted(c, iv, pt)) == XorStream(d.stream(iv), XorStream(c.stream(iv), pt))
  {
    var ct := Encrypted(c, iv, pt);
    assert ct[..BLOCK_SIZE] == iv && ct[BLOCK_SIZE..] == XorStream(c.stream(iv), pt);
  }

  /** Decryption undoes encryption, for every length and every initial block. */
  lemma DecryptUndoesEncrypt(c: Cipher, iv: seq<Byte>, pt: seq<Byte>)
    requires |iv| == BLOCK_SIZE
    ensures Decrypted(c, Encrypted(c, iv, pt)) == pt
  {
    CrossDecrypt(c, c, iv, pt);
    forall i | 0 <= i < |pt|
      ensures XorStream(c.stream(iv), XorStream(c.stream(iv), pt))[i] == pt[i]
    {
      XorTwice(pt[i], c.stream(iv)(i));
    }
  }

  lemma XorTwice(x: Byte, k: Byte)
    ensures (x ^ k) ^ k == x
  {
  }

  lemma XorSame(x: Byte, k: Byte, l: Byte, y: Byte)
    requires y == (x ^ k) ^ l
    ensures y == x <==> k == l
  {
  }

  /** The pass_phrase bucket, and the cipher every later encryption uses. */
  class PassStore {
    var bucket: Option<seq<Byte>>
    var block: Option<Cipher>

    constructor ()
      ensures bucket == None && block == None
    {
      bucket, block := None, None;
    }

    ghost predicate Valid()
      reads this
    {
      bucket.Some? ==> |bucket.value| >= BLOCK_SIZE
    }

    /** Checks the password whose cipher is c.  The first password is stored.  The cipher is
        replaced before the check, also by a password that is refused. */
    method Password(c: Cipher, iv: seq<Byte>) returns (ok: bool)
      requires Valid() && |iv| == BLOCK_SIZE
      modifies this
      ensures Valid() && block == Some(c)
      ensures old(bucket).None? ==> ok && bucket == Some(Encrypted(c, iv, PASS_PHRASE))
      ensures old(bucket).Some? ==> bucket == old(bucket) && (ok <==> Decrypted(c, bucket.value) == PASS_PHRASE)
    {
      block := Some(c);
      if bucket.None? {
        var ct := Encrypt(c, iv, PASS_PHRASE);
        bucket := Some(ct[..]);
        return true;
      }
      var pt := Decrypt(c, bucket.value);
      ok := pt[..] == PASS_PHRASE;
    }
  }

  /** A password is accepted on the database another one created exactly when both ciphers
      yield the same key stream over the pass phrase; in particular the creating password
      always is. */
  lemma AcceptedIff(created: Cipher, offered: Cipher, iv: seq<Byte>)
    requires |iv| == BLOCK_SIZE
    ensures Decrypted(offered, Encrypted(created, iv, PASS_PHRASE)) == PASS_PHRASE <==>
            forall i :: 0 <= i < |PASS_PHRASE| ==> offered.stream(iv)(i) == created.stream(iv)(i)
  {
    CrossDecrypt(created, offered, iv, PASS_PHRASE);
    SameStreamIff(created.stream(iv), offered.stream(iv), PASS_PHRASE);
  }

  lemma SameStreamIff(f: nat -> Byte, g: nat -> Byte, pt: seq<Byte>)
    ensures XorStream(g, XorStream(f, pt)) == pt <==> forall i :: 0 <= i < |pt| ==> g(i) == f(i)
  {
    var back := XorStream(g, XorStream(f, pt));
    forall i | 0 <= i < |pt|
      ensures back[i] == pt[i] <==> g(i) == f(i)
    {
      XorSame(pt[i], f(i), g(i), back[i]);
    }
    assert back == pt <==> forall i :: 0 <= i < |pt| ==> back[i] == pt[i];
  }
}
