/** Authenticator data: section 6.1 of W3C Web Authentication Level 2. */
module AuthData {
  import opened Common
  import opened Cbor

  datatype Reason = TooShort | RpIdMismatch | UserNotPresent | NoCredential | Cut | MalformedKey

  datatype Credential = Credential(id: Bytes, cose: seq<Entry>)

  datatype Checked =
    | Accepted(signCount: nat, credential: Option<Credential>)
    | Refused(reason: Reason)
    | Throws(error: Error)

  /** A 32-bit bit pattern as the signed number the shift operators give. */
  function ToInt32(n: nat): int {
    if n % TWO32 < 0x8000_0000 then n % TWO32 else n % TWO32 - TWO32
  }

  /** `n >>> 0`. */
  function ToUint32(n: int): nat {
    n % TWO32
  }

  predicate UserPresent(flags: Byte) {
    flags % 2 == 1
  }

  predicate HasCredential(flags: Byte) {
    flags / 0x40 % 2 == 1
  }

  /** Four bytes put together with 32-bit shifts: the top one can make the number negative. */
  function Joined(b0: int, b1: int, b2: int, b3: int): int
    requires 0 <= b0 < 256
  {
    ToInt32(b0 * 0x1000000) + b1 * 0x10000 + b2 * 0x100 + b3
  }

  function SignCount(authData: Bytes): int
    requires |authData| >= 37
  {
    Joined(authData[33], authData[34], authData[35], authData[36])
  }

  /** `rpHash` is the hash of the configured relying party. */
  function CheckAuthData(rpHash: Bytes, authData: Bytes, requireCredential: bool): Checked {
    if |authData| < 37 then Refused(TooShort)
    else if authData[..32] != rpHash then Refused(RpIdMismatch)
    else if !UserPresent(authData[32]) then Refused(UserNotPresent)
    else
      var signCount := ToUint32(SignCount(authData));
      if !requireCredential then Accepted(signCount, None)
      else if !HasCredential(authData[32]) then Refused(NoCredential)
      else ReadCredential(authData, signCount)
  }

  /** The attested credential: its id, and the first CBOR item behind it, which has to be a map. */
  function ReadCredential(authData: Bytes, signCount: nat): Checked
    requires |authData| >= 37
  {
    var idEnd := 55 + BitsAt(authData, 53) * 0x100 + BitsAt(authData, 54);
    if |authData| < idEnd then Refused(Cut)
    else
      match DecodeFirst(authData[idEnd..])
      case Err(e) => Throws(e)
      case Ok(key) =>
        if !key.value.Dict? then Refused(MalformedKey)
        else Accepted(signCount, Some(Credential(authData[55..idEnd], key.value.entries)))
  }
}
