/** The authorization digest that `getValidationArgs` asks the vault engine to
    sign, and the decomposition of the engine's hex signature string into the
    protocol fields `v`, `r` and `s`. */
module Signing {
  import opened JsString

  type Byte = b: int | 0 <= b < 256
  type Bytes = seq<Byte>

  /** One argument of web3's `soliditySha3`: an explicitly typed `{t, v}`
      object, or a bare string whose Solidity type web3 infers itself. */
  datatype Sha3Arg = Address(address: string) | Uint(n: nat) | Inferred(s: string)

  /** The two halves of web3's `soliditySha3`, neither of which is part of
      this model: `encode` gives the bytes one argument contributes to the
      tightly packed input, `keccak` hashes a byte string to its hex digest. */
  datatype Web3 = Web3(encode: Sha3Arg -> Bytes, keccak: Bytes -> string)

  /** Tight packing: the arguments' encodings, one after another, with no
      length or separator between them. */
  function Pack(encode: Sha3Arg -> Bytes, args: seq<Sha3Arg>): Bytes
  {
    if |args| == 0 then [] else encode(args[0]) + Pack(encode, args[1..])
  }

  /** `soliditySha3(args...)`: the keccak hash of the packed arguments. */
  function SoliditySha3(web3: Web3, args: seq<Sha3Arg>): string
  {
    web3.keccak(Pack(web3.encode, args))
  }

  /** The domain-separation prefix of the `personal_sign` scheme (version byte
      0x45 of EIP-191) for a 32-byte message. */
  const PersonalMessagePrefix: string := "\U{19}Ethereum Signed Message:\n32"

  predicate IsAscii(s: string)
  {
    forall i :: 0 <= i < |s| ==> s[i] as int < 128
  }

  /** The bytes of an ASCII string, which are also its UTF-8 encoding. */
  function AsciiBytes(s: string): (bytes: Bytes)
    requires IsAscii(s)
    ensures |bytes| == |s|
    ensures forall i :: 0 <= i < |s| ==> bytes[i] == s[i] as int
  {
    seq(|s|, i requires 0 <= i < |s| => s[i] as int)
  }

  /** The 28 bytes the prefix contributes to the signed input. */
  function PrefixBytes(): (bytes: Bytes)
    ensures |bytes| == 28
  {
    assert IsAscii(PersonalMessagePrefix) by {
      forall i | 0 <= i < |PersonalMessagePrefix| ensures PersonalMessagePrefix[i] as int < 128 {
      }
    }
    AsciiBytes(PersonalMessagePrefix)
  }

  /** What the model relies on in web3's per-argument encoding: an address
      takes 20 bytes, an unsigned integer 32, and the prefix, a plain ASCII
      string that is neither hex nor a number, its UTF-8 bytes. */
  ghost predicate Web3Encoding(encode: Sha3Arg -> Bytes)
  {
    && (forall a :: |encode(Address(a))| == 20)
    && (forall n :: |encode(Uint(n))| == 32)
    && encode(Inferred(PersonalMessagePrefix)) == PrefixBytes()
  }

  /** A hash without collisions on byte strings. */
  ghost predicate CollisionFree(keccak: Bytes -> string)
  {
    forall x, y :: keccak(x) == keccak(y) ==> x == y
  }

  /** Distinct digests stay distinct when passed back to `soliditySha3` as
      bare hex strings, which web3 decodes to their bytes. */
  ghost predicate DigestsReencodeInjectively(web3: Web3)
  {
    forall x, y :: web3.encode(Inferred(web3.keccak(x))) == web3.encode(Inferred(web3.keccak(y)))
                   ==> web3.keccak(x) == web3.keccak(y)
  }

  /** First stage: the hash of the packed (address, address, uint) triple. */
  function PackedHash(web3: Web3, a: string, b: string, nonce: nat): (h: string)
    ensures h == web3.keccak(web3.encode(Address(a)) + web3.encode(Address(b)) + web3.encode(Uint(nonce)))
  {
    PackThree(web3.encode, Address(a), Address(b), Uint(nonce));
    SoliditySha3(web3, [Address(a), Address(b), Uint(nonce)])
  }

  /** The bytes hashed in the second stage: the prefix, then the first-stage
      digest. */
  function SignedPreimage(web3: Web3, a: string, b: string, nonce: nat): Bytes
  {
    Pack(web3.encode, [Inferred(PersonalMessagePrefix), Inferred(PackedHash(web3, a, b, nonce))])
  }

  /** The data `getValidationArgs` hands to `signMessage`: the prefixed
      re-hash of the first-stage digest. */
  function AuthorizationDigest(web3: Web3, a: string, b: string, nonce: nat): (digest: string)
    ensures Web3Encoding(web3.encode) ==>
              digest == web3.keccak(PrefixBytes() + web3.encode(Inferred(PackedHash(web3, a, b, nonce))))
  {
    PackTwo(web3.encode, Inferred(PersonalMessagePrefix), Inferred(PackedHash(web3, a, b, nonce)));
    web3.keccak(SignedPreimage(web3, a, b, nonce))
  }

  lemma PackTwo(encode: Sha3Arg -> Bytes, x: Sha3Arg, y: Sha3Arg)
    ensures Pack(encode, [x, y]) == encode(x) + encode(y)
  {
    assert [x, y][1..] == [y];
    assert [y][1..] == [];
    calc {
      Pack(encode, [x, y]);
      encode(x) + Pack(encode, [y]);
      encode(x) + (encode(y) + Pack(encode, []));
    }
  }

  lemma PackThree(encode: Sha3Arg -> Bytes, x: Sha3Arg, y: Sha3Arg, z: Sha3Arg)
    ensures Pack(encode, [x, y, z]) == encode(x) + encode(y) + encode(z)
  {
    assert [x, y, z][1..] == [y, z];
    PackTwo(encode, y, z);
  }

  /** The signed input always starts with the 28 prefix bytes, whatever
      (a, b, nonce) are. */
  lemma SignedPreimageStartsWithPrefix(web3: Web3, a: string, b: string, nonce: nat)
    requires Web3Encoding(web3.encode)
    ensures |SignedPreimage(web3, a, b, nonce)| >= 28
    ensures SignedPreimage(web3, a, b, nonce)[..28] == PrefixBytes()
  {
    var inner := Inferred(PackedHash(web3, a, b, nonce));
    PackTwo(web3.encode, Inferred(PersonalMessagePrefix), inner);
    assert SignedPreimage(web3, a, b, nonce) == PrefixBytes() + web3.encode(inner);
  }

  /** Domain separation: with a keccak free of collisions, no byte string
      that does not start with the prefix bytes (a raw transaction payload,
      say) hashes to an authorization digest. */
  lemma DigestIsDomainSeparated(web3: Web3, message: Bytes, a: string, b: string, nonce: nat)
    requires Web3Encoding(web3.encode)
    requires CollisionFree(web3.keccak)
    requires |message| < 28 || message[..28] != PrefixBytes()
    ensures web3.keccak(message) != AuthorizationDigest(web3, a, b, nonce)
  {
    SignedPreimageStartsWithPrefix(web3, a, b, nonce);
    assert message != SignedPreimage(web3, a, b, nonce);
  }

  /** The digest binds the three inputs as web3 encodes them: two digests
      are equal exactly when the two addresses and the nonce encode to the
      same bytes. This assumes keccak has no collisions and that distinct
      first-stage digests re-encode to distinct bytes. */
  lemma DigestBindsInputs(web3: Web3, a: string, b: string, nonce: nat,
                          a': string, b': string, nonce': nat)
    requires Web3Encoding(web3.encode)
    requires CollisionFree(web3.keccak)
    requires DigestsReencodeInjectively(web3)
    ensures AuthorizationDigest(web3, a, b, nonce) == AuthorizationDigest(web3, a', b', nonce')
            <==> && web3.encode(Address(a)) == web3.encode(Address(a'))
                 && web3.encode(Address(b)) == web3.encode(Address(b'))
                 && web3.encode(Uint(nonce)) == web3.encode(Uint(nonce'))
  {
    var enc := web3.encode;
    var first := Pack(enc, [Address(a), Address(b), Uint(nonce)]);
    var first' := Pack(enc, [Address(a'), Address(b'), Uint(nonce')]);
    PackThree(enc, Address(a), Address(b), Uint(nonce));
    PackThree(enc, Address(a'), Address(b'), Uint(nonce'));
    var h, h' := PackedHash(web3, a, b, nonce), PackedHash(web3, a', b', nonce');
    PackTwo(enc, Inferred(PersonalMessagePrefix), Inferred(h));
    PackTwo(enc, Inferred(PersonalMessagePrefix), Inferred(h'));
    if AuthorizationDigest(web3, a, b, nonce) == AuthorizationDigest(web3, a', b', nonce') {
      var m, m' := SignedPreimage(web3, a, b, nonce), SignedPreimage(web3, a', b', nonce');
      assert m == m';
      assert enc(Inferred(h)) == m[28..] == m'[28..] == enc(Inferred(h'));
      assert h == h';
      assert first == first';
      assert enc(Address(a)) == first[..20] == first'[..20] == enc(Address(a'));
      assert enc(Address(b)) == first[20..40] == first'[20..40] == enc(Address(b'));
      assert enc(Uint(nonce)) == first[40..] == first'[40..] == enc(Uint(nonce'));
    }
  }

  /** The signature fields exactly as `getValidationArgs` resolves them,
      `[v, r, s]`: `r` is the first 66 characters (with the signature's own
      "0x"), `s` is "0x" and the 64 characters from offset 66, `v` is "0x"
      and the 2 characters from offset 130. */
  function ValidationFields(signature: string): (fields: seq<string>)
    ensures |fields| == 3
    ensures fields[1] <= signature
    ensures |fields[0]| >= 2 && fields[0][..2] == "0x"
    ensures |fields[2]| >= 2 && fields[2][..2] == "0x"
    ensures |signature| >= 132 ==> |fields[0]| == 4 && |fields[1]| == 66 && |fields[2]| == 66
  {
    var r := Substr(signature, 0, 66);
    var s := "0x" + Substr(signature, 66, 64);
    var v := "0x" + Substr(signature, 130, 2);
    [v, r, s]
  }

  /** A 65-byte signature written as "0x" and 130 hex digits, as fields:
      r, s and v are the slices at offsets 0, 66 and 130, the last two
      re-prefixed with "0x". */
  lemma FieldsOfFullSignature(signature: string)
    requires |signature| == 132
    ensures ValidationFields(signature)
         == ["0x" + signature[130..132], signature[..66], "0x" + signature[66..130]]
  {
  }

  /** The fields reassemble the part of the signature they were cut from: r,
      then s and v without their added "0x", give back the first 132
      characters (all of a 132-character signature). */
  lemma FieldsReassemble(signature: string)
    ensures var f := ValidationFields(signature);
            f[1] + f[2][2..] + f[0][2..] == signature[..Min(|signature|, 132)]
  {
  }

  /** Fields of the shape `getValidationArgs` produces for a full signature:
      a 66-character r, and s and v with their "0x" and 64 and 2 characters. */
  predicate WellFormedFields(v: string, r: string, s: string)
  {
    && |r| == 66
    && |s| == 66 && s[..2] == "0x"
    && |v| == 4 && v[..2] == "0x"
  }

  /** The inverse of the decomposition: the signature string the fields were
      cut from. */
  function JoinFields(v: string, r: string, s: string): (signature: string)
    requires WellFormedFields(v, r, s)
    ensures |signature| == 132
  {
    r + s[2..] + v[2..]
  }

  /** Decomposing a joined signature gives back the fields it was joined
      from, in the order [v, r, s]. */
  lemma FieldsOfJoined(v: string, r: string, s: string)
    requires WellFormedFields(v, r, s)
    ensures ValidationFields(JoinFields(v, r, s)) == [v, r, s]
  {
    var signature := JoinFields(v, r, s);
    assert signature[..66] == r;
    assert signature[66..130] == s[2..];
    assert signature[130..132] == v[2..];
    assert "0x" + s[2..] == s by { assert s == s[..2] + s[2..]; }
    assert "0x" + v[2..] == v by { assert v == v[..2] + v[2..]; }
    FieldsOfFullSignature(signature);
  }
}
