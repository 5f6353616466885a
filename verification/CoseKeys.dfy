/** Registration judged by what the decoded maps bind: which key is stored, and which maps are refused. */
module CoseKeys {
  import opened Common
  import opened AuthData
  import opened Passkeys
  import Cbor
  import RoundTrip = CborRoundTrip

  /** The map binds this integer label to this value. */
  predicate Binds(cose: seq<Cbor.Entry>, k: int, value: Cbor.Value) {
    Cbor.Entry(Cbor.Int(k), value) in cose
  }

  /** What a COSE key of RFC 9053 binds: its type, its algorithm, its curve if it has one, and its parameters. */
  predicate Spells(cose: seq<Cbor.Entry>, key: Jwk) {
    match key
    case Ec(x, y) =>
      && Binds(cose, 1, Cbor.Int(2)) && Binds(cose, 3, Cbor.Int(-7)) && Binds(cose, -1, Cbor.Int(1))
      && Binds(cose, -2, Cbor.Blob(x)) && Binds(cose, -3, Cbor.Blob(y))
    case Okp(x) =>
      && Binds(cose, 1, Cbor.Int(1)) && Binds(cose, 3, Cbor.Int(-8)) && Binds(cose, -1, Cbor.Int(6))
      && Binds(cose, -2, Cbor.Blob(x))
    case Rsa(n, e) =>
      && Binds(cose, 1, Cbor.Int(3)) && Binds(cose, 3, Cbor.Int(-257))
      && Binds(cose, -1, Cbor.Blob(n)) && Binds(cose, -2, Cbor.Blob(e))
  }

  lemma {:induction false} EntriesHaveKeys(entries: seq<Cbor.Entry>, key: Cbor.Value, value: Cbor.Value)
    requires Cbor.Entry(key, value) in entries
    ensures key in RoundTrip.KeySet(entries)
    decreases |entries|
  {
    if entries[0] != Cbor.Entry(key, value) {
      assert Cbor.Entry(key, value) in entries[1..];
      EntriesHaveKeys(entries[1..], key, value);
    }
  }

  /** With distinct keys, a lookup finds a value exactly if the map binds the key to it, in whatever place. */
  lemma {:induction false} FindsWhatIsBound(entries: seq<Cbor.Entry>, key: Cbor.Value, value: Cbor.Value)
    requires RoundTrip.DistinctKeys(entries)
    ensures Find(entries, key) == Some(value) <==> Cbor.Entry(key, value) in entries
    decreases |entries|
  {
    if entries != [] {
      assert entries == [entries[0]] + entries[1..];
      FindsWhatIsBound(entries[1..], key, value);
      if entries[0].key == key && Cbor.Entry(key, value) in entries[1..] {
        EntriesHaveKeys(entries[1..], key, value);
      }
    }
  }

  lemma FindsBytesThatAreBound(entries: seq<Cbor.Entry>, key: Cbor.Value)
    requires RoundTrip.DistinctKeys(entries)
    ensures forall b :: FindBytes(entries, key) == Some(b) <==> Cbor.Entry(key, Cbor.Blob(b)) in entries
  {
    forall b ensures FindBytes(entries, key) == Some(b) <==> Cbor.Entry(key, Cbor.Blob(b)) in entries {
      FindsWhatIsBound(entries, key, Cbor.Blob(b));
    }
  }

  /** A key is made of a map exactly if the map spells it. */
  lemma KeyIsSpelledExactly(cose: seq<Cbor.Entry>, key: Jwk)
    requires RoundTrip.DistinctKeys(cose)
    ensures CoseToJwk(cose) == Some(key) <==> Spells(cose, key)
  {
    FindsWhatIsBound(cose, Cbor.Int(1), Cbor.Int(1));
    FindsWhatIsBound(cose, Cbor.Int(1), Cbor.Int(2));
    FindsWhatIsBound(cose, Cbor.Int(1), Cbor.Int(3));
    FindsWhatIsBound(cose, Cbor.Int(3), Cbor.Int(-7));
    FindsWhatIsBound(cose, Cbor.Int(3), Cbor.Int(-8));
    FindsWhatIsBound(cose, Cbor.Int(3), Cbor.Int(-257));
    FindsWhatIsBound(cose, Cbor.Int(-1), Cbor.Int(1));
    FindsWhatIsBound(cose, Cbor.Int(-1), Cbor.Int(6));
    FindsBytesThatAreBound(cose, Cbor.Int(-1));
    FindsBytesThatAreBound(cose, Cbor.Int(-2));
    FindsBytesThatAreBound(cose, Cbor.Int(-3));
  }

  /** A map that the decoder returns holds each key once. */
  lemma DecodedKeysDiffer(buf: Bytes)
    requires Cbor.DecodeFirst(buf).Ok? && Cbor.DecodeFirst(buf).value.value.Dict?
    ensures RoundTrip.DistinctKeys(Cbor.DecodeFirst(buf).value.value.entries)
  {
    var head := Cbor.ReadLength(buf, 1, buf[0] % 32).value;
    assert Cbor.DecodeContent(buf, buf[0] / 32, head.value, head.next).value.value ==
           Cbor.DecodeFirst(buf).value.value;
    var pairs := Cbor.DecodePairs(buf, head.next, Cbor.Times(head.value));
    RoundTrip.FromPairsKeeps(pairs.value.value);
  }

  // -------- registration --------

  /** The attestation is a map. */
  predicate IsMap(attestation: Bytes) {
    Cbor.Decode(attestation).Ok? && Cbor.Decode(attestation).value.Dict?
  }

  /** It binds "authData", in UTF-8, to these bytes. */
  predicate HasAuthData(attestation: Bytes, authData: Bytes) {
    && IsMap(attestation)
    && Cbor.Entry(Cbor.Text([0x61, 0x75, 0x74, 0x68, 0x44, 0x61, 0x74, 0x61]), Cbor.Blob(authData))
       in Cbor.Decode(attestation).value.entries
  }

  lemma AuthDataIsFound(attestation: Bytes)
    ensures AttestedData(attestation).Some? <==> IsMap(attestation)
    ensures forall authData ::
              AttestedData(attestation) == Some(Some(authData)) <==> HasAuthData(attestation, authData)
  {
    if IsMap(attestation) {
      DecodedKeysDiffer(attestation);
      FindsBytesThatAreBound(Cbor.Decode(attestation).value.entries, Cbor.Text(AUTH_DATA));
    }
  }

  /** The attestation holds a well-formed new credential: `found` with this counter. */
  predicate Offers(cfg: Config, attestation: Bytes, authData: Bytes, signCount: nat, found: Credential) {
    && HasAuthData(attestation, authData)
    && CheckAuthData(cfg.rpHash, authData, true) == Accepted(signCount, Some(found))
  }

  lemma OfferedKeysDiffer(cfg: Config, attestation: Bytes, authData: Bytes, signCount: nat, found: Credential)
    requires Offers(cfg, attestation, authData, signCount, found)
    ensures RoundTrip.DistinctKeys(found.cose)
  {
    var idEnd := 55 + Cbor.BitsAt(authData, 53) * 0x100 + Cbor.BitsAt(authData, 54);
    DecodedKeysDiffer(authData[idEnd..]);
  }

  /**
   * What becomes of the credential an attestation offers: its id, counter and
   * the key that its map spells, in any order of the entries, are stored for
   * the user; an id in use and a map that spells no key are refused.
   */
  lemma OfferIsStoredExactly(cfg: Config, credentials: map<Bytes, Passkey>, user: string, attestation: Bytes,
                             authData: Bytes, signCount: nat, found: Credential)
    requires Offers(cfg, attestation, authData, signCount, found)
    ensures var result := NewCredential(cfg, credentials, user, attestation);
            && (result.0 == Failure(AlreadyRegistered) <==> found.id in credentials)
            && (result.0 == Failure(UnsupportedKey) <==>
               found.id !in credentials && forall key :: !Spells(found.cose, key))
            && (forall key ::
                  result == (Success, credentials[found.id := Passkey(user, key, signCount)]) <==>
                  found.id !in credentials && Spells(found.cose, key))
  {
    AuthDataIsFound(attestation);
    OfferedKeysDiffer(cfg, attestation, authData, signCount, found);
    forall key ensures CoseToJwk(found.cose) == Some(key) <==> Spells(found.cose, key) {
      KeyIsSpelledExactly(found.cose, key);
    }
    forall key, other |
      credentials[found.id := Passkey(user, key, signCount)] == credentials[found.id := Passkey(user, other, signCount)]
      ensures key == other
    {
      assert credentials[found.id := Passkey(user, key, signCount)][found.id] == Passkey(user, key, signCount);
    }
  }

  /** The attestation offers `found`, whose id is new, and whose map spells `key`. */
  ghost predicate Registers(cfg: Config, credentials: map<Bytes, Passkey>, attestation: Bytes, authData: Bytes,
                            signCount: nat, found: Credential, key: Jwk)
  {
    Offers(cfg, attestation, authData, signCount, found) && found.id !in credentials && Spells(found.cose, key)
  }

  /** Nothing else is stored, and an attestation without a map, or without authenticator data in it, says so. */
  lemma OnlyOffersAreStored(cfg: Config, credentials: map<Bytes, Passkey>, user: string, attestation: Bytes)
    ensures var outcome := NewCredential(cfg, credentials, user, attestation).0;
            && (outcome == Failure(MalformedAttestation) <==> !IsMap(attestation))
            && (outcome == Failure(MissingAuthData) <==>
               IsMap(attestation) && forall authData :: !HasAuthData(attestation, authData))
            && (outcome == Success <==> exists authData, signCount, found, key ::
                  Registers(cfg, credentials, attestation, authData, signCount, found, key))
  {
    AuthDataIsFound(attestation);
    if NewCredential(cfg, credentials, user, attestation).0 == Success {
      var authData := AttestedData(attestation).value.value;
      var checked := CheckAuthData(cfg.rpHash, authData, true);
      var found := checked.credential.value;
      OfferedKeysDiffer(cfg, attestation, authData, checked.signCount, found);
      KeyIsSpelledExactly(found.cose, CoseToJwk(found.cose).value);
      assert Registers(cfg, credentials, attestation, authData, checked.signCount, found, CoseToJwk(found.cose).value);
    }
    forall authData, signCount, found, key |
      Registers(cfg, credentials, attestation, authData, signCount, found, key)
      ensures NewCredential(cfg, credentials, user, attestation).0 == Success
    {
      OfferIsStoredExactly(cfg, credentials, user, attestation, authData, signCount, found);
    }
  }

  /**
   * A registration succeeds exactly when it answers a pending challenge of its
   * user, from an allowed origin and in time, and its attestation offers a new
   * credential with a key for one of the three algorithms; then it stores that one.
   */
  lemma RegistrationSucceedsExactly(cfg: Config, s: State, a: Action)
    requires a.Register?
    ensures Step(cfg, s, a).0 == Success <==>
            && Answers(cfg, a, s.challenges)
            && exists authData, signCount, found, key ::
                 Registers(cfg, s.credentials, a.attestation, authData, signCount, found, key)
    ensures Step(cfg, s, a).0 == Success ==>
              forall authData, signCount, found, key ::
                Registers(cfg, s.credentials, a.attestation, authData, signCount, found, key) ==>
                  Step(cfg, s, a).1.credentials == s.credentials[found.id := Passkey(a.user, key, signCount)]
  {
    ClientDecides(cfg, s, a);
    OnlyOffersAreStored(cfg, s.credentials, a.user, a.attestation);
    if Step(cfg, s, a).0 == Success {
      forall authData, signCount, found, key |
        Registers(cfg, s.credentials, a.attestation, authData, signCount, found, key)
        ensures Step(cfg, s, a).1.credentials == s.credentials[found.id := Passkey(a.user, key, signCount)]
      {
        OfferIsStoredExactly(cfg, s.credentials, a.user, a.attestation, authData, signCount, found);
      }
    }
  }
}
