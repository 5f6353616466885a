/** The standard's layout of authenticator data, and which of it, and what besides it, the parser accepts. */
module AuthLayout {
  import opened Common
  import opened Cbor
  import opened CborRoundTrip
  import opened CborBounds
  import opened AuthData

  // -------- the layout the standard gives --------

  function Be16(n: nat): Bytes
    requires n < 0x10000
  {
    [n / 0x100, n % 0x100]
  }

  function Be32(n: nat): Bytes
    requires n < TWO32
  {
    [n / 0x1000000, n / 0x10000 % 0x100, n / 0x100 % 0x100, n % 0x100]
  }

  /** rpIdHash, flags, signCount, and whatever follows. */
  function Layout(rpHash: Bytes, flags: Byte, signCount: nat, rest: Bytes): Bytes
    requires signCount < TWO32
  {
    rpHash + [flags] + Be32(signCount) + rest
  }

  /** aaguid, credentialIdLength, credentialId, and whatever follows. */
  function Attested(aaguid: Bytes, id: Bytes, rest: Bytes): Bytes
    requires |id| < 0x10000
  {
    aaguid + Be16(|id|) + id + rest
  }

  lemma LayoutParts(rpHash: Bytes, flags: Byte, signCount: nat, rest: Bytes)
    requires |rpHash| == 32 && signCount < TWO32
    ensures var all := Layout(rpHash, flags, signCount, rest);
            && |all| == 37 + |rest| && all[..32] == rpHash && all[32] == flags && all[37..] == rest
            && ToUint32(SignCount(all)) == signCount
  {
    var all := Layout(rpHash, flags, signCount, rest);
    var count := Be32(signCount);
    assert all[33] == count[0] && all[34] == count[1] && all[35] == count[2] && all[36] == count[3];
    JoinedBack(signCount);
  }

  /** Taking a counter apart and joining it gives it back, past 2^31 as well. */
  lemma JoinedBack(n: nat)
    requires n < TWO32
    ensures ToUint32(Joined(n / 0x1000000, n / 0x10000 % 0x100, n / 0x100 % 0x100, n % 0x100)) == n
  {
    FourBytes(n);
    SmallQuotients(n);
    JoinedSum(n / 0x1000000, n / 0x10000 % 0x100, n / 0x100 % 0x100, n % 0x100);
  }

  lemma SmallQuotients(n: nat)
    requires n < TWO32
    ensures n % TWO32 == n && n / 0x1000000 % 0x100 == n / 0x1000000
  {
  }

  /** As an unsigned number, four joined bytes are worth what they spell. */
  lemma JoinedSum(b0: int, b1: int, b2: int, b3: int)
    requires 0 <= b0 < 0x100 && 0 <= b1 < 0x100 && 0 <= b2 < 0x100 && 0 <= b3 < 0x100
    ensures ToUint32(Joined(b0, b1, b2, b3)) == b0 * 0x1000000 + b1 * 0x10000 + b2 * 0x100 + b3
  {
  }

  lemma AttestedParts(head: Bytes, aaguid: Bytes, id: Bytes, rest: Bytes)
    requires |head| == 37 && |aaguid| == 16 && |id| < 0x10000
    ensures var all := head + Attested(aaguid, id, rest);
            && |all| == 55 + |id| + |rest|
            && BitsAt(all, 53) * 0x100 + BitsAt(all, 54) == |id|
            && all[55..55 + |id|] == id && all[55 + |id|..] == rest
  {
    var all := head + Attested(aaguid, id, rest);
    assert all[53] == Be16(|id|)[0] && all[54] == Be16(|id|)[1];
  }

  /** Without a credential: any string in the layout gives exactly its counter, if the hash and the UP flag fit. */
  lemma AssertionDataReads(rpHash: Bytes, hash: Bytes, flags: Byte, signCount: nat, rest: Bytes)
    requires |hash| == 32 && signCount < TWO32
    ensures CheckAuthData(rpHash, Layout(hash, flags, signCount, rest), false) ==
            if hash != rpHash then Refused(RpIdMismatch)
            else if !UserPresent(flags) then Refused(UserNotPresent)
            else Accepted(signCount, None)
  {
    LayoutParts(hash, flags, signCount, rest);
  }

  /**
   * With one: any string in the layout, with a COSE map the codec carries and
   * any extension bytes behind it, gives exactly its counter, credential id and map.
   */
  lemma RegistrationDataReads(rpHash: Bytes, hash: Bytes, flags: Byte, signCount: nat, aaguid: Bytes, id: Bytes,
                              cose: seq<Entry>, extensions: Bytes)
    requires |hash| == 32 && signCount < TWO32 && |aaguid| == 16 && |id| < 0x10000
    requires Plain(Dict(cose)) && Sized(Dict(cose)) && Exact(Dict(cose))
    ensures CheckAuthData(rpHash, Layout(hash, flags, signCount,
            Attested(aaguid, id, Encode(Dict(cose)) + extensions)), true) ==
            if hash != rpHash then Refused(RpIdMismatch)
            else if !UserPresent(flags) then Refused(UserNotPresent)
            else if !HasCredential(flags) then Refused(NoCredential)
            else Accepted(signCount, Some(Credential(id, cose)))
  {
    var rest := Encode(Dict(cose)) + extensions;
    LayoutParts(hash, flags, signCount, Attested(aaguid, id, rest));
    CoseReads(cose, extensions);
    CredentialReads(hash + [flags] + Be32(signCount), aaguid, id, rest, signCount, cose);
  }

  lemma CoseReads(cose: seq<Entry>, extensions: Bytes)
    requires Plain(Dict(cose)) && Sized(Dict(cose)) && Exact(Dict(cose))
    ensures Holding(Encode(Dict(cose)) + extensions, cose)
  {
    FirstItemOfEncoding(Dict(cose), extensions);
    NormalKeepsExactly(Dict(cose));
  }

  /** What the decoder reads first of these bytes is this map. */
  predicate Holding(rest: Bytes, cose: seq<Entry>) {
    DecodeFirst(rest).Ok? && DecodeFirst(rest).value.value == Dict(cose)
  }

  lemma CredentialReads(head: Bytes, aaguid: Bytes, id: Bytes, rest: Bytes, signCount: nat, cose: seq<Entry>)
    requires |head| == 37 && |aaguid| == 16 && |id| < 0x10000 && Holding(rest, cose)
    ensures ReadCredential(head + Attested(aaguid, id, rest), signCount) ==
            Accepted(signCount, Some(Credential(id, cose)))
  {
    AttestedParts(head, aaguid, id, rest);
  }

  /** The string is framed as the standard says, with both flags, and `rest` comes behind the credential id. */
  predicate Framed(rpHash: Bytes, authData: Bytes, signCount: nat, id: Bytes, flags: Byte, aaguid: Bytes, rest: Bytes) {
    && UserPresent(flags) && HasCredential(flags)
    && signCount < TWO32 && |aaguid| == 16 && |id| < 0x10000
    && authData == Layout(rpHash, flags, signCount, Attested(aaguid, id, rest))
  }

  /** The string is framed so, and what comes behind the id begins with the credential's map. */
  ghost predicate InLayout(rpHash: Bytes, authData: Bytes, signCount: nat, credential: Credential) {
    exists flags: Byte, aaguid: Bytes, rest: Bytes ::
      && Framed(rpHash, authData, signCount, credential.id, flags, aaguid, rest)
      && BeginsWith(rest, Dict(credential.cose))
  }

  /** What comes behind a credential id. */
  function KeyBytes(authData: Bytes, id: Bytes): Bytes {
    if 55 + |id| <= |authData| then authData[55 + |id|..] else []
  }

  lemma FrameParts(rpHash: Bytes, authData: Bytes, signCount: nat, id: Bytes, flags: Byte, aaguid: Bytes, rest: Bytes)
    requires |rpHash| == 32 && Framed(rpHash, authData, signCount, id, flags, aaguid, rest)
    ensures KeyBytes(authData, id) == rest
  {
    LayoutParts(rpHash, flags, signCount, Attested(aaguid, id, rest));
    assert |Attested(aaguid, id, rest)| == 18 + |id| + |rest|;
    assert authData[55 + |id|..] == authData[37..][18 + |id|..];
    assert Attested(aaguid, id, rest)[18 + |id|..] == rest;
  }

  lemma AcceptedIsFramed(rpHash: Bytes, authData: Bytes, signCount: nat, credential: Credential)
    requires |rpHash| == 32 && CheckAuthData(rpHash, authData, true) == Accepted(signCount, Some(credential))
    ensures |authData| > 53 + |credential.id|
    ensures Framed(rpHash, authData, signCount, credential.id, authData[32], authData[37..53],
                   KeyBytes(authData, credential.id))
    ensures Holding(KeyBytes(authData, credential.id), credential.cose)
  {
    CounterBytes(authData, signCount);
    AttestedBytes(authData, credential.id);
    assert authData == authData[..32] + [authData[32]] + authData[33..37] + authData[37..];
  }

  lemma FramedIsAccepted(rpHash: Bytes, authData: Bytes, signCount: nat, credential: Credential,
                         flags: Byte, aaguid: Bytes, rest: Bytes)
    requires |rpHash| == 32 && Framed(rpHash, authData, signCount, credential.id, flags, aaguid, rest)
    requires Holding(rest, credential.cose)
    ensures CheckAuthData(rpHash, authData, true) == Accepted(signCount, Some(credential))
  {
    LayoutParts(rpHash, flags, signCount, Attested(aaguid, credential.id, rest));
    CredentialReads(rpHash + [flags] + Be32(signCount), aaguid, credential.id, rest, signCount, credential.cose);
  }

  /**
   * A string is in the layout with a result if and only if it is accepted with
   * that result and the reading of its key stops inside the string, behind the
   * credential id; and of the accepted strings those are outside the layout
   * whose key was read with bytes that are not there.
   */
  lemma LayoutIsAcceptedExactly(rpHash: Bytes, authData: Bytes, signCount: nat, credential: Credential)
    requires |rpHash| == 32
    ensures InLayout(rpHash, authData, signCount, credential) <==>
            && CheckAuthData(rpHash, authData, true) == Accepted(signCount, Some(credential))
            && StopsInside(KeyBytes(authData, credential.id))
    ensures CheckAuthData(rpHash, authData, true) == Accepted(signCount, Some(credential)) ==>
              var rest := KeyBytes(authData, credential.id);
              && DecodeFirst(rest).Ok?
              && (InLayout(rpHash, authData, signCount, credential) <==>
                  TookReal(rest, DecodeFirst(rest).value.log))
  {
    var rest := KeyBytes(authData, credential.id);
    FirstItemIsThereExactly(rest, Dict(credential.cose));
    if InLayout(rpHash, authData, signCount, credential) {
      var flags, aaguid, behind :| Framed(rpHash, authData, signCount, credential.id, flags, aaguid, behind) &&
                                   BeginsWith(behind, Dict(credential.cose));
      FrameParts(rpHash, authData, signCount, credential.id, flags, aaguid, behind);
      FramedIsAccepted(rpHash, authData, signCount, credential, flags, aaguid, rest);
    }
    if CheckAuthData(rpHash, authData, true) == Accepted(signCount, Some(credential)) {
      AcceptedIsFramed(rpHash, authData, signCount, credential);
      StopsInsideExactly(rest);
    }
  }

  /** A map of one entry whose value, a byte string, is cut off behind the first byte of its head. */
  const CUT_KEY: Bytes := [0xA1, 0x01, 0x58]

  lemma CutKeyReads()
    ensures Holding(CUT_KEY, [Entry(Int(1), Blob([]))]) && !StopsInside(CUT_KEY)
  {
    assert ReadLength(CUT_KEY, 1, 1).value.value == Count(1);
    assert DecodeItem(CUT_KEY, Index(1)).Ok? && DecodeItem(CUT_KEY, Index(1)).value.value == Int(1);
    assert DecodeItem(CUT_KEY, Index(1)).value.next == Index(2);
    assert DecodeItem(CUT_KEY, Index(2)).Ok? && DecodeItem(CUT_KEY, Index(2)).value.value == Blob([]);
    assert DecodeItem(CUT_KEY, Index(2)).value.next == Nowhere;
    var pairs := DecodePairs(CUT_KEY, Index(1), 1);
    assert pairs.Ok? && pairs.value.value == [Entry(Int(1), Blob([]))] && pairs.value.next == Nowhere;
    assert FromPairs([Entry(Int(1), Blob([]))]) == [Entry(Int(1), Blob([]))];
  }

  lemma HeldKeyIsAccepted(rpHash: Bytes, flags: Byte, signCount: nat, aaguid: Bytes, id: Bytes, rest: Bytes,
                          cose: seq<Entry>)
    requires |rpHash| == 32 && signCount < TWO32 && |aaguid| == 16 && |id| < 0x10000
    requires UserPresent(flags) && HasCredential(flags) && Holding(rest, cose)
    ensures CheckAuthData(rpHash, Layout(rpHash, flags, signCount, Attested(aaguid, id, rest)), true) ==
            Accepted(signCount, Some(Credential(id, cose)))
  {
    var authData := Layout(rpHash, flags, signCount, Attested(aaguid, id, rest));
    FramedIsAccepted(rpHash, authData, signCount, Credential(id, cose), flags, aaguid, rest);
  }

  /** Such strings exist: with a cut key the data is accepted, and it is not in the layout. */
  lemma CutKeyIsAccepted(rpHash: Bytes, signCount: nat, aaguid: Bytes, id: Bytes)
    requires |rpHash| == 32 && signCount < TWO32 && |aaguid| == 16 && |id| < 0x10000
    ensures var authData := Layout(rpHash, 0x41, signCount, Attested(aaguid, id, CUT_KEY));
            var credential := Credential(id, [Entry(Int(1), Blob([]))]);
            && CheckAuthData(rpHash, authData, true) == Accepted(signCount, Some(credential))
            && !InLayout(rpHash, authData, signCount, credential)
  {
    var authData := Layout(rpHash, 0x41, signCount, Attested(aaguid, id, CUT_KEY));
    var credential := Credential(id, [Entry(Int(1), Blob([]))]);
    CutKeyReads();
    FrameParts(rpHash, authData, signCount, id, 0x41, aaguid, CUT_KEY);
    HeldKeyIsAccepted(rpHash, 0x41, signCount, aaguid, id, CUT_KEY, credential.cose);
    LayoutIsAcceptedExactly(rpHash, authData, signCount, credential);
  }

  lemma CounterBytes(authData: Bytes, signCount: nat)
    requires |authData| >= 37 && signCount == ToUint32(SignCount(authData))
    ensures signCount < TWO32 && authData[33..37] == Be32(signCount)
  {
    JoinedIsBe32(authData[33], authData[34], authData[35], authData[36]);
  }

  lemma JoinedIsBe32(b0: Byte, b1: Byte, b2: Byte, b3: Byte)
    ensures Be32(ToUint32(Joined(b0, b1, b2, b3))) == [b0, b1, b2, b3]
  {
    JoinedSum(b0, b1, b2, b3);
    Quotients(b0, b1, b2, b3);
  }

  /** The bytes of a number that four bytes spell. */
  lemma Quotients(a: int, b: int, c: int, d: int)
    requires 0 <= a < 0x100 && 0 <= b < 0x100 && 0 <= c < 0x100 && 0 <= d < 0x100
    ensures var n := a * 0x1000000 + b * 0x10000 + c * 0x100 + d;
            n / 0x1000000 == a && n / 0x10000 % 0x100 == b && n / 0x100 % 0x100 == c && n % 0x100 == d
  {
    var n := a * 0x1000000 + b * 0x10000 + c * 0x100 + d;
    assert n / 0x100 == a * 0x10000 + b * 0x100 + c;
    assert n / 0x10000 == a * 0x100 + b;
  }

  lemma AttestedBytes(authData: Bytes, id: Bytes)
    requires var idEnd := 55 + BitsAt(authData, 53) * 0x100 + BitsAt(authData, 54);
             idEnd <= |authData| && id == authData[55..idEnd]
    ensures |id| < 0x10000 && authData[37..] == Attested(authData[37..53], id, authData[55 + |id|..])
  {
    var n := |id|;
    assert authData[53] == n / 0x100 && authData[54] == n % 0x100;
    assert authData[53..55] == Be16(n);
    assert authData[37..] == authData[37..53] + authData[53..55] + authData[55..55 + n] + authData[55 + n..];
  }
}
