/** A whole registration: from the bytes an authenticator sends to the stored credential, and a run with one. */
module Registration {
  import opened Common
  import opened Utf8
  import opened AuthData
  import opened AuthLayout
  import opened Passkeys
  import opened CoseKeys
  import Cbor
  import RoundTrip = CborRoundTrip

  /**
   * From the authenticator's bytes to the stored record: an attestation object
   * that holds authenticator data in the standard's layout registers exactly
   * the credential id and counter that were put into it, with the key that the
   * COSE map spells in any order of its entries, and is refused if that map spells none.
   */
  lemma RegistrationStoresWhatWasSent(cfg: Config, credentials: map<Bytes, Passkey>, user: string,
                                      attestation: seq<Cbor.Entry>, name: Bytes,
                                      flags: Byte, signCount: nat, aaguid: Bytes, id: Bytes, cose: seq<Cbor.Entry>,
                                      extensions: Bytes)
    requires |cfg.rpHash| == 32 && signCount < Cbor.TWO32 && |aaguid| == 16 && |id| < 0x10000
    requires UserPresent(flags) && HasCredential(flags) && id !in credentials
    requires Cbor.Plain(Cbor.Dict(cose)) && RoundTrip.Sized(Cbor.Dict(cose)) && RoundTrip.Exact(Cbor.Dict(cose))
    requires Cbor.Plain(Cbor.Dict(attestation)) && RoundTrip.Sized(Cbor.Dict(attestation)) &&
             RoundTrip.Exact(Cbor.Dict(attestation))
    requires name == [0x61, 0x75, 0x74, 0x68, 0x44, 0x61, 0x74, 0x61]
    requires Cbor.Entry(Cbor.Text(name), Cbor.Blob(Layout(cfg.rpHash, flags, signCount,
             Attested(aaguid, id, Cbor.Encode(Cbor.Dict(cose)) + extensions)))) in attestation
    ensures var result := NewCredential(cfg, credentials, user, Cbor.Encode(Cbor.Dict(attestation)));
            && (forall key ::
                  result == (Success, credentials[id := Passkey(user, key, signCount)]) <==> Spells(cose, key))
            && (result == (Failure(UnsupportedKey), credentials) <==> forall key :: !Spells(cose, key))
  {
    var rest := Attested(aaguid, id, Cbor.Encode(Cbor.Dict(cose)) + extensions);
    var authData := Layout(cfg.rpHash, flags, signCount, rest);
    RoundTrip.RoundTripExactly(Cbor.Dict(attestation));
    RegistrationDataReads(cfg.rpHash, cfg.rpHash, flags, signCount, aaguid, id, cose, extensions);
    assert HasAuthData(Cbor.Encode(Cbor.Dict(attestation)), authData);
    OfferIsStoredExactly(cfg, credentials, user, Cbor.Encode(Cbor.Dict(attestation)), authData, signCount,
                         Credential(id, cose));
  }

  // -------- a refused attempt that spares its challenge --------

  /** An attempt whose client data name the other ceremony is refused before its challenge is looked at. */
  lemma WrongCeremonyIsHarmless(cfg: Config, s: State, a: Action)
    requires !a.Mint? && cfg.parse(a.clientData).Fields? && cfg.parse(a.clientData).ceremony != CeremonyOf(a)
    ensures Step(cfg, s, a) == (Failure(WrongCeremony), s)
  {
  }

  const ZEROS: Bytes := [0, 0, 0, 0, 0, 0, 0, 0, 0, 0, 0, 0, 0, 0, 0, 0]

  /** A COSE map with an Ed25519 key of no bytes. */
  const COSE: seq<Cbor.Entry> :=
    [Cbor.Entry(Cbor.Int(1), Cbor.Int(1))] + ([Cbor.Entry(Cbor.Int(3), Cbor.Int(-8))] +
    ([Cbor.Entry(Cbor.Int(-1), Cbor.Int(6))] + ([Cbor.Entry(Cbor.Int(-2), Cbor.Blob([]))] + [])))

  /** Client data of one byte name a registration, all others a login; each names challenge 7. */
  function Sample(): Config {
    Config(ZEROS + ZEROS, {"o"}, 1, data => Fields(if |data| == 1 then Create else Get, Some(7), Some("o")),
           data => data, (key, data, signature) => None)
  }

  /** What `RegistrationStoresWhatWasSent` asks of a map it embeds. */
  ghost predicate Fits(entries: seq<Cbor.Entry>) {
    && Cbor.PlainPairs(entries) && RoundTrip.SizedPairs(entries)
    && RoundTrip.CarriedPairs(entries, false) && RoundTrip.DistinctKeys(entries)
  }

  lemma FitsStep(e: Cbor.Entry, rest: seq<Cbor.Entry>)
    requires Fits(rest) && e.key !in RoundTrip.KeySet(rest)
    requires Cbor.PlainEntry(e) && RoundTrip.SizedEntry(e) && RoundTrip.CarriedEntry(e, false)
    ensures Fits([e] + rest) && RoundTrip.KeySet([e] + rest) == {e.key} + RoundTrip.KeySet(rest)
    ensures Cbor.EncodePairs([e] + rest) == Cbor.EncodeEntry(e) + Cbor.EncodePairs(rest)
    ensures forall key :: Find([e] + rest, key) == if e.key == key then Some(e.value) else Find(rest, key)
  {
    assert ([e] + rest)[1..] == rest;
  }

  lemma SmallEntry(key: int, value: int)
    requires -24 <= key < 24 && -24 <= value < 24
    ensures var e := Cbor.Entry(Cbor.Int(key), Cbor.Int(value));
            Cbor.PlainEntry(e) && RoundTrip.SizedEntry(e) && RoundTrip.CarriedEntry(e, false) &&
              |Cbor.EncodeEntry(e)| == 2
  {
  }

  lemma CoseFits()
    ensures Fits(COSE) && |COSE| == 4 && |Cbor.EncodePairs(COSE)| == 8 && CoseToJwk(COSE) == Some(Okp([]))
  {
    var last := Cbor.Entry(Cbor.Int(-2), Cbor.Blob([]));
    assert Cbor.EncodeEntry(last) == [0x21] + [0x40];
    FitsStep(last, []);
    SmallEntry(-1, 6);
    FitsStep(Cbor.Entry(Cbor.Int(-1), Cbor.Int(6)), [last] + []);
    SmallEntry(3, -8);
    FitsStep(Cbor.Entry(Cbor.Int(3), Cbor.Int(-8)), [Cbor.Entry(Cbor.Int(-1), Cbor.Int(6))] + ([last] + []));
    SmallEntry(1, 1);
    FitsStep(Cbor.Entry(Cbor.Int(1), Cbor.Int(1)), COSE[1..]);
  }

  ghost function AttestationOf(key: Bytes, authData: Bytes): seq<Cbor.Entry> {
    [Cbor.Entry(Cbor.Text(key), Cbor.Blob(authData))] + []
  }

  lemma NothingFits()
    ensures Fits([]) && RoundTrip.KeySet([]) == {}
  {
  }

  lemma FittingDict(entries: seq<Cbor.Entry>)
    requires Fits(entries) && |entries| < Cbor.TWO32
    ensures Cbor.Plain(Cbor.Dict(entries)) && RoundTrip.Sized(Cbor.Dict(entries)) && RoundTrip.Exact(Cbor.Dict(entries))
  {
  }

  lemma TextEntryFits(e: Cbor.Entry)
    requires e.key.Text? && WellFormed(e.key.utf8) && !StartsWithBom(e.key.utf8) && |e.key.utf8| < Cbor.TWO32
    requires e.value.Blob? && |e.value.bytes| < Cbor.TWO32
    ensures Cbor.PlainEntry(e) && RoundTrip.SizedEntry(e) && RoundTrip.CarriedEntry(e, false)
  {
  }

  lemma AttestationFits(key: Bytes, authData: Bytes)
    requires |authData| < Cbor.TWO32 && |key| < Cbor.TWO32 && WellFormed(key) && !StartsWithBom(key)
    ensures Fits(AttestationOf(key, authData))
    ensures Find(AttestationOf(key, authData), Cbor.Text(key)) == Some(Cbor.Blob(authData))
  {
    var e := Cbor.Entry(Cbor.Text(key), Cbor.Blob(authData));
    NothingFits();
    TextEntryFits(e);
    FitsStep(e, []);
  }

  lemma AuthDataIsText()
    ensures WellFormed(AUTH_DATA) && !StartsWithBom(AUTH_DATA) && |AUTH_DATA| == 8
  {
    AsciiIsText(AUTH_DATA);
  }

  lemma {:induction false} AsciiIsText(s: Bytes)
    requires forall i :: 0 <= i < |s| ==> s[i] < 0x80
    ensures WellFormed(s)
    decreases |s|
  {
    if s != [] {
      AsciiIsText(s[1..]);
    }
  }

  /** An attestation object of just these authenticator data registers their key. */
  lemma BareAttestationRegisters(cfg: Config, name: Bytes, flags: Byte, signCount: nat, aaguid: Bytes, id: Bytes,
                                 cose: seq<Cbor.Entry>, key: Jwk)
    returns (attestation: Bytes)
    requires |cfg.rpHash| == 32 && |aaguid| == 16 && UserPresent(flags) && HasCredential(flags) &&
             signCount < Cbor.TWO32
    requires |id| < 0x10000 && name == AUTH_DATA
    requires Fits(cose) && |cose| < 24 && |Cbor.EncodePairs(cose)| < 24 && CoseToJwk(cose) == Some(key)
    ensures NewCredential(cfg, map[], "u", attestation).0 == Success
  {
    FittingDict(cose);
    var rest := Attested(aaguid, id, Cbor.Encode(Cbor.Dict(cose)) + []);
    var authData := Layout(cfg.rpHash, flags, signCount, rest);
    LayoutParts(cfg.rpHash, flags, signCount, rest);
    AuthDataIsText();
    AttestationFits(name, authData);
    var entries := AttestationOf(name, authData);
    FittingDict(entries);
    attestation := Cbor.Encode(Cbor.Dict(entries));
    RegistrationStoresWhatWasSent(cfg, map[], "u", entries, name, flags, signCount, aaguid, id, cose, []);
    KeyIsSpelledExactly(cose, key);
  }

  /** Some bytes are a registration that `Sample` accepts. */
  lemma SampleRegisters() returns (attestation: Bytes)
    ensures NewCredential(Sample(), map[], "u", attestation).0 == Success
  {
    CoseFits();
    attestation := BareAttestationRegisters(Sample(), AUTH_DATA, 0x41, 0, ZEROS, [], COSE, Okp([]));
  }

  /** The service's state after a challenge was minted for the user's registration. */
  const MINTED := State(map[7 := Challenge("u", Create, 1)], map[])

  lemma ThreeSteps(cfg: Config, run: seq<Action>)
    requires |run| == 3
    ensures var s := Step(cfg, INIT, run[0]).1;
            && OutcomeOf(cfg, run, 1) == Step(cfg, s, run[1]).0
            && OutcomeOf(cfg, run, 2) == Step(cfg, Step(cfg, s, run[1]).1, run[2]).0
  {
    StepOf(cfg, run, 0);
    StepOf(cfg, run, 1);
  }

  lemma SpareSteps(attestation: Bytes)
    ensures Step(Sample(), INIT, Mint("u", Create, 7, 0)).1 == MINTED
    ensures Step(Sample(), MINTED, Register("u", [], attestation, 0)) == (Failure(WrongCeremony), MINTED)
    ensures Step(Sample(), MINTED, Register("u", [0], attestation, 0)).0 ==
            NewCredential(Sample(), map[], "u", attestation).0
  {
    WrongCeremonyIsHarmless(Sample(), MINTED, Register("u", [], attestation, 0));
    var client := CheckClientData(Sample(), MINTED.challenges, 0, Fields(Create, Some(7), Some("o")), "u", Create);
    assert client.0 == Success;
  }

  /**
   * A challenge can survive a refused attempt: it is minted for a
   * registration, a registration whose client data name a login is refused,
   * and the next one succeeds on the same challenge.
   */
  lemma RefusedAttemptSparesItsChallenge() returns (run: seq<Action>)
    ensures |run| == 3 && run[0] == Mint("u", Create, 7, 0) && run[1].Register? && run[2].Register?
    ensures OutcomeOf(Sample(), run, 1) == Failure(WrongCeremony) && OutcomeOf(Sample(), run, 2) == Success
    ensures ChallengeOf(Sample(), run[1]) == ChallengeOf(Sample(), run[2]) == Some(7)
  {
    var attestation := SampleRegisters();
    run := [Mint("u", Create, 7, 0), Register("u", [], attestation, 0), Register("u", [0], attestation, 0)];
    SpareSteps(attestation);
    ThreeSteps(Sample(), run);
  }

  // -------- a key that is cut off --------

  /** The Ed25519 key of `COSE` without the length of its bytes: the map ends behind `58`. */
  const CUT_COSE: Bytes := [0xA4, 0x01, 0x01, 0x03, 0x27, 0x20, 0x06, 0x21, 0x58]

  lemma PairReads(buf: Bytes, at: Cbor.Pos, mid: Cbor.Pos, end: Cbor.Pos, count: nat, key: Cbor.Value, val: Cbor.Value)
    requires count > 0 && Cbor.IsKey(key)
    requires Cbor.DecodeItem(buf, at).Ok? && Cbor.DecodeItem(buf, at).value.value == key
    requires Cbor.DecodeItem(buf, at).value.next == mid
    requires Cbor.DecodeItem(buf, mid).Ok? && Cbor.DecodeItem(buf, mid).value.value == val
    requires Cbor.DecodeItem(buf, mid).value.next == end
    requires Cbor.DecodePairs(buf, end, count - 1).Ok?
    ensures var r := Cbor.DecodePairs(buf, at, count);
            r.Ok? && r.value.value == [Cbor.Entry(key, val)] + Cbor.DecodePairs(buf, end, count - 1).value.value
  {
  }

  /** One item that is a byte below 24 or from 32 to 55: a small number. */
  lemma SmallNumberReads(buf: Bytes, at: nat)
    requires at < |buf| && (buf[at] < 24 || 0x20 <= buf[at] < 0x38)
    ensures var r := Cbor.DecodeItem(buf, Cbor.Index(at));
            && r.Ok? && r.value.next == Cbor.Index(at + 1)
            && r.value.value == Cbor.Int(if buf[at] < 24 then buf[at] else 31 - buf[at] as int)
  {
  }

  lemma CutPairsRead()
    ensures var r := Cbor.DecodePairs(CUT_COSE, Cbor.Index(1), 4); r.Ok? && r.value.value == COSE
  {
    var buf := CUT_COSE;
    SmallNumberReads(buf, 1);
    SmallNumberReads(buf, 2);
    SmallNumberReads(buf, 3);
    SmallNumberReads(buf, 4);
    SmallNumberReads(buf, 5);
    SmallNumberReads(buf, 6);
    SmallNumberReads(buf, 7);
    CutStringReads(buf, 8);
    var cut := Cbor.Entry(Cbor.Int(-2), Cbor.Blob([]));
    PairReads(buf, Cbor.Index(7), Cbor.Index(8), Cbor.Nowhere, 1, cut.key, cut.value);
    PairReads(buf, Cbor.Index(5), Cbor.Index(6), Cbor.Index(7), 2, Cbor.Int(-1), Cbor.Int(6));
    PairReads(buf, Cbor.Index(3), Cbor.Index(4), Cbor.Index(5), 3, Cbor.Int(3), Cbor.Int(-8));
    PairReads(buf, Cbor.Index(1), Cbor.Index(2), Cbor.Index(3), 4, Cbor.Int(1), Cbor.Int(1));
  }

  lemma CutStringReads(buf: Bytes, at: nat)
    requires at == |buf| - 1 && buf[at] == 0x58
    ensures var r := Cbor.DecodeItem(buf, Cbor.Index(at));
            r.Ok? && r.value.value == Cbor.Blob([]) && r.value.next == Cbor.Nowhere
  {
  }

  lemma SmallMapReads(buf: Bytes, count: nat, entries: seq<Cbor.Entry>)
    requires buf != [] && count < 24 && buf[0] == 0xA0 + count && RoundTrip.DistinctKeys(entries)
    requires var r := Cbor.DecodePairs(buf, Cbor.Index(1), count); r.Ok? && r.value.value == entries
    ensures Holding(buf, entries)
  {
    RoundTrip.FromPairsKeeps(entries);
    assert buf[0] / 32 == 5 && buf[0] % 32 == count;
    var content := Cbor.DecodeContent(buf, 5, Cbor.Count(count), Cbor.Index(1));
    assert content.Ok? && content.value.value == Cbor.Dict(entries);
  }

  lemma CutCoseReads()
    ensures Holding(CUT_COSE, COSE)
  {
    CoseFits();
    CutPairsRead();
    SmallMapReads(CUT_COSE, 4, COSE);
  }

  /** Such a credential is accepted as an Ed25519 key of no bytes, although its map is not there in full. */
  lemma CutKeyIsAKey(rpHash: Bytes, flags: Byte, signCount: nat, aaguid: Bytes, id: Bytes, cut: Bytes,
                     cose: seq<Cbor.Entry>)
    requires |rpHash| == 32 && signCount < Cbor.TWO32 && |aaguid| == 16 && |id| < 0x10000
    requires UserPresent(flags) && HasCredential(flags) && cut == CUT_COSE && cose == COSE
    ensures CheckAuthData(rpHash, Layout(rpHash, flags, signCount, Attested(aaguid, id, cut)), true) ==
            Accepted(signCount, Some(Credential(id, cose)))
    ensures CoseToJwk(cose) == Some(Okp([]))
  {
    CoseFits();
    CutCoseReads();
    HeldKeyIsAccepted(rpHash, flags, signCount, aaguid, id, cut, cose);
  }
}
