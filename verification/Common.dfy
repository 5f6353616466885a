/** Small value types shared by every module. */
module Common {
  datatype Option<+T> = None | Some(value: T)

  /** What the network does with one request and its reply. */
  datatype Fate = Delivered | RequestLost | ReplyLost

  type Byte = b: int | 0 <= b < 256

  /** The 32-byte keys and other binary values of the source, as values. */
  type Bytes = seq<Byte>
}

/** Ideal cryptography: what the repository relies on, with the algorithms left out. */
module Crypto {
  import opened Common

  /** An AES-256-GCM blob. Only the key it was sealed under opens it. */
  datatype Blob<T> = Sealed(key: Bytes, plain: T)

  function Encrypt<T>(key: Bytes, plain: T): Blob<T> {
    Sealed(key, plain)
  }

  /** `None` stands for the exception that a failed authentication tag raises. */
  function Decrypt<T>(key: Bytes, blob: Blob<T>): Option<T> {
    if blob.key == key then Some(blob.plain) else None
  }

  /** A stored public key string: a real Ed25519 key, or text that no key parses from. */
  datatype PublicKey = Key(holder: nat) | Malformed(text: string)

  /** An ideal signature names the signing key and the exact message. */
  datatype Signature = Signature(holder: nat, message: string)

  /** `None` is the exception `verifyMessage` raises for a key that does not parse. */
  function VerifyMessage(publicKey: PublicKey, message: string, signature: Signature): Option<bool> {
    match publicKey
    case Malformed(_) => None
    case Key(holder) => Some(signature == Signature(holder, message))
  }
}
