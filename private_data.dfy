/**
 * The peer's private data store, as the chaincode sees it through its stub:
 * content per (collection, key), and the hash of that content that the peer
 * records and publishes for every write.
 */
module PrivateData {

  /** An element of a `Uint8Array`. */
  newtype byte = x: int | 0 <= x < 256

  type Bytes = seq<byte>

  /** A SHA-256 digest is 32 bytes long. */
  const DigestLength: nat := 32

  type Digest = d: Bytes | |d| == DigestLength witness seq(32, _ => 0 as byte)

  class Ledger {
    /** The hash function the peer applies to private data content. */
    const hash: Bytes -> Digest
    /** Private data content, keyed by (collection name, key). */
    var priv: map<(string, string), Bytes>

    constructor (hash: Bytes -> Digest)
      ensures this.hash == hash && priv == map[]
    {
      this.hash := hash;
      priv := map[];
    }

    /** The recorded hash of a key's content; empty when nothing is stored under it. */
    function GetPrivateDataHash(collection: string, key: string): (d: Bytes)
      reads this
      ensures |d| > 0 <==> (collection, key) in priv
      ensures (collection, key) in priv ==> d == hash(priv[(collection, key)])
    {
      if (collection, key) in priv then hash(priv[(collection, key)]) else []
    }

    /** The stored content of a key; empty when nothing is stored under it. */
    function GetPrivateData(collection: string, key: string): (b: Bytes)
      reads this
      ensures (collection, key) in priv ==> b == priv[(collection, key)]
      ensures (collection, key) !in priv ==> b == []
    {
      if (collection, key) in priv then priv[(collection, key)] else []
    }

    /** Stores content under a key; the recorded hash follows it. */
    method PutPrivateData(collection: string, key: string, value: Bytes)
      modifies this
      ensures priv == old(priv)[(collection, key) := value]
      ensures GetPrivateDataHash(collection, key) == hash(value)
    {
      priv := priv[(collection, key) := value];
    }

    /** Removes a key together with its recorded hash. */
    method DeletePrivateData(collection: string, key: string)
      modifies this
      ensures priv == old(priv) - {(collection, key)}
      ensures GetPrivateDataHash(collection, key) == []
    {
      priv := priv - {(collection, key)};
    }
  }
}
