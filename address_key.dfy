/**
 * The cache key of an address: `Buffer.from(address).toString("base64url")`
 * (api/src/index.ts:55), the primary key `addr_hash` of the `buildings`
 * table (api/src/index.ts:24).
 */
module AddressKey {
  import opened Wrappers
  import Utf8
  import Base64Url

  function KeyFor(address: string): (key: string)
    ensures forall i :: 0 <= i < |key| ==> Base64Url.IsUrlSafe(key[i])
    ensures key == [] <==> address == []
  {
    Utf8.EncodeEmpty(address);
    Base64Url.Encode(Utf8.Encode(address))
  }

  /** The address a key was formed from, if it is a key at all. */
  ghost function AddressOf(key: string): Option<string> {
    match Base64Url.Decode(key)
    case None => None
    case Some(bytes) => Utf8.Decode(bytes)
  }

  /** Every key names its address back. */
  lemma AddressOfKeyFor(address: string)
    ensures AddressOf(KeyFor(address)) == Some(address)
  {
    Base64Url.DecodeEncode(Utf8.Encode(address));
    Utf8.DecodeEncode(address);
  }

  /** Two addresses share a key exactly when they are the same address. */
  lemma KeyForInjective(a: string, b: string)
    ensures KeyFor(a) == KeyFor(b) <==> a == b
  {
    AddressOfKeyFor(a);
    AddressOfKeyFor(b);
  }

  /** "hi" is the bytes 0x68 0x69, whose unpadded base64url is "aGk". */
  lemma Example()
    ensures KeyFor("hi") == "aGk"
  {
    assert Utf8.Encode("hi") == [0x68, 0x69];
  }
}
