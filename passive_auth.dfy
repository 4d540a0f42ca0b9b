/** Passive authentication (`doPassiveAuth`): the signed data-group hashes,
    the CSCA master list loaded into a key store, the validity and path
    validation of the document-signer certificates, and the signature over
    the SOD content. Every step that can throw is fail-closed: the answer is
    then `false`. Hashing, certificate decoding, path validation and
    signature verification are the fields of `Crypto`. */
module PassiveAuth {
  import opened Outcomes
  import opened Lds
  import Text

  /** A `KeyStore` holding trusted certificate entries under their alias. */
  type KeyStore = map<string, Certificate>

  datatype PssParameterSpec = PssParameterSpec(
    digestName: string,
    mgfName: string,
    mgfDigest: string,
    saltLength: int,
    trailerField: int)

  /** `PSSParameterSpec("SHA-256", "MGF1", MGF1ParameterSpec.SHA256, 32, 1)`. */
  const Sha256Pss := PssParameterSpec("SHA-256", "MGF1", "SHA-256", 32, 1)

  /** One use of `java.security.Signature`: algorithm, optional PSS
      parameters, signer, signed content and signature bytes. */
  datatype SignatureCheck = SignatureCheck(
    algorithm: string,
    parameters: Option<PssParameterSpec>,
    signer: Certificate,
    content: Bytes,
    signature: Bytes)

  /** The master-list asset as `ASN1InputStream.readObject` delivers it: the
      top-level objects, then either the end of the stream or an exception. */
  datatype Asn1Stream = Asn1Stream(objects: seq<Asn1Value>, failsAfterObjects: bool)

  /** The security providers and the master-list asset.
      - digestAvailable: `MessageDigest.getInstance` does not throw;
      - digest: `MessageDigest.digest`;
      - masterList: opening the "masterList" asset;
      - toCertificate: `Certificate.getInstance`, `encoded` and
        `CertificateFactory.generateCertificate` on one set element;
      - checkValidity: `X509Certificate.checkValidity()` does not throw now;
      - validatePath: `generateCertPath` and `CertPathValidator.validate` with
        the given key store and revocation flag do not throw;
      - verify: `Signature.getInstance`, `setParameter`, `initVerify`,
        `update` and `verify`. */
  datatype Crypto = Crypto(
    digestAvailable: string -> bool,
    digest: (string, Bytes) -> Bytes,
    masterList: Outcome<Asn1Stream>,
    toCertificate: Asn1Value -> Outcome<Certificate>,
    checkValidity: Certificate -> bool,
    validatePath: (seq<Certificate>, KeyStore, bool) -> bool,
    verify: SignatureCheck -> Outcome<bool>)

  // ---------------------------------------------------------------------
  // Hash comparison

  /** `Arrays.equals(actual, dataHashes[dataGroup])`: a missing entry reads
      as null and never equals a computed digest. */
  predicate HashMatches(hashes: map<int, Bytes>, dataGroup: int, actual: Bytes) {
    dataGroup in hashes && hashes[dataGroup] == actual
  }

  /** The DG14 digest compared: the digest of the DG14 bytes when chip
      authentication succeeded and bytes were supplied, else the empty array. */
  function Dg14Hash(crypto: Crypto, algorithm: string, dg14Encoded: Option<Bytes>, chipAuthSucceeded: bool): (h: Bytes)
    ensures dg14Encoded.None? ==> h == []
  {
    if chipAuthSucceeded && dg14Encoded.Some? then crypto.digest(algorithm, dg14Encoded.value) else []
  }

  predicate HashStagePasses(crypto: Crypto, sod: SodFile, dg1: Dg1File, dg2: Dg2File, dg14Encoded: Option<Bytes>, chipAuthSucceeded: bool) {
    var algorithm := sod.digestAlgorithm;
    && HashMatches(sod.dataGroupHashes, 1, crypto.digest(algorithm, dg1.encoded))
    && HashMatches(sod.dataGroupHashes, 2, crypto.digest(algorithm, dg2.encoded))
    && (!chipAuthSucceeded || HashMatches(sod.dataGroupHashes, 14, Dg14Hash(crypto, algorithm, dg14Encoded, chipAuthSucceeded)))
  }

  // ---------------------------------------------------------------------
  // Master list

  /** Adds the certificates of one set under the aliases "0", "1", ... in
      order, overwriting what the store already holds under those aliases;
      None when a certificate does not decode. */
  function InsertCertificates(certs: seq<Asn1Value>, toCertificate: Asn1Value -> Outcome<Certificate>, ks: KeyStore): Option<KeyStore>
    decreases |certs|
  {
    if |certs| == 0 then Some(ks)
    else
      match InsertCertificates(certs[..|certs| - 1], toCertificate, ks)
      case None => None
      case Some(prev) =>
        match toCertificate(certs[|certs| - 1])
        case Threw(_) => None
        case Returned(c) => Some(prev[Text.DecimalString(|certs| - 1) := c])
  }

  /** A top-level master-list object is a two-element sequence whose second
      element is the certificate set. */
  predicate IsMasterListEntry(obj: Asn1Value) {
    obj.Asn1Sequence? && |obj.items| == 2 && obj.items[1].Asn1Set?
  }

  function LoadEntry(obj: Asn1Value, toCertificate: Asn1Value -> Outcome<Certificate>, ks: KeyStore): Option<KeyStore> {
    if IsMasterListEntry(obj) then InsertCertificates(obj.items[1].items, toCertificate, ks) else None
  }

  function LoadEntries(objs: seq<Asn1Value>, toCertificate: Asn1Value -> Outcome<Certificate>): Option<KeyStore>
    decreases |objs|
  {
    if |objs| == 0 then Some(map[])
    else
      match LoadEntries(objs[..|objs| - 1], toCertificate)
      case None => None
      case Some(ks) => LoadEntry(objs[|objs| - 1], toCertificate, ks)
  }

  /** The key store the master list yields, or None when loading throws. */
  function MasterListKeyStore(masterList: Outcome<Asn1Stream>, toCertificate: Asn1Value -> Outcome<Certificate>): Option<KeyStore> {
    match masterList
    case Threw(_) => None
    case Returned(stream) =>
      if stream.failsAfterObjects then None else LoadEntries(stream.objects, toCertificate)
  }

  lemma {:induction false} InsertCertificatesFailureSticks(certs: seq<Asn1Value>, toCertificate: Asn1Value -> Outcome<Certificate>, ks: KeyStore, i: nat)
    requires i <= |certs|
    requires InsertCertificates(certs[..i], toCertificate, ks) == None
    ensures InsertCertificates(certs, toCertificate, ks) == None
    decreases |certs| - i
  {
    if i < |certs| {
      assert certs[..i + 1][..i] == certs[..i];
      InsertCertificatesFailureSticks(certs, toCertificate, ks, i + 1);
    } else {
      assert certs[..i] == certs;
    }
  }

  lemma {:induction false} LoadEntriesFailureSticks(objs: seq<Asn1Value>, toCertificate: Asn1Value -> Outcome<Certificate>, i: nat)
    requires i <= |objs|
    requires LoadEntries(objs[..i], toCertificate) == None
    ensures LoadEntries(objs, toCertificate) == None
    decreases |objs| - i
  {
    if i < |objs| {
      assert objs[..i + 1][..i] == objs[..i];
      LoadEntriesFailureSticks(objs, toCertificate, i + 1);
    } else {
      assert objs[..i] == objs;
    }
  }

  /** One malformed top-level object anywhere in the list makes loading fail. */
  lemma MalformedEntryRejectsList(objs: seq<Asn1Value>, toCertificate: Asn1Value -> Outcome<Certificate>, k: nat)
    requires k < |objs| && !IsMasterListEntry(objs[k])
    ensures LoadEntries(objs, toCertificate) == None
  {
    assert objs[..k + 1][..k] == objs[..k];
    assert LoadEntries(objs[..k + 1], toCertificate) == None;
    LoadEntriesFailureSticks(objs, toCertificate, k + 1);
  }

  /** Inserting a set succeeds exactly when every certificate of the set
      decodes, whatever the store already holds. */
  lemma {:induction false} InsertCertificatesSucceedsIff(certs: seq<Asn1Value>, toCertificate: Asn1Value -> Outcome<Certificate>, ks: KeyStore)
    ensures InsertCertificates(certs, toCertificate, ks).Some? <==>
              forall j :: 0 <= j < |certs| ==> toCertificate(certs[j]).Returned?
    decreases |certs|
  {
    if |certs| > 0 {
      var n := |certs| - 1;
      InsertCertificatesSucceedsIff(certs[..n], toCertificate, ks);
      assert forall j :: 0 <= j < n ==> certs[..n][j] == certs[j];
    }
  }

  /** A master-list object that loads: an entry whose certificates all decode. */
  predicate EntryLoads(obj: Asn1Value, toCertificate: Asn1Value -> Outcome<Certificate>) {
    && IsMasterListEntry(obj)
    && forall j :: 0 <= j < |obj.items[1].items| ==> toCertificate(obj.items[1].items[j]).Returned?
  }

  /** The object list loads exactly when every object is an entry whose
      certificates all decode. */
  lemma {:induction false} LoadEntriesSucceedsIff(objs: seq<Asn1Value>, toCertificate: Asn1Value -> Outcome<Certificate>)
    ensures LoadEntries(objs, toCertificate).Some? <==> forall i :: 0 <= i < |objs| ==> EntryLoads(objs[i], toCertificate)
    decreases |objs|
  {
    if |objs| > 0 {
      var n := |objs| - 1;
      LoadEntriesSucceedsIff(objs[..n], toCertificate);
      assert forall i :: 0 <= i < n ==> objs[..n][i] == objs[i];
      var last := objs[n];
      match LoadEntries(objs[..n], toCertificate)
      case None =>
      case Some(ks) =>
        if IsMasterListEntry(last) {
          InsertCertificatesSucceedsIff(last.items[1].items, toCertificate, ks);
        }
    }
  }

  /** The master list yields a store exactly when the asset opens and parses
      to its end and every top-level object is an entry whose certificates
      all decode: loading fails only where the source throws. */
  lemma MasterListLoadsIff(masterList: Outcome<Asn1Stream>, toCertificate: Asn1Value -> Outcome<Certificate>)
    ensures MasterListKeyStore(masterList, toCertificate).Some? <==>
              && masterList.Returned? && !masterList.value.failsAfterObjects
              && forall i :: 0 <= i < |masterList.value.objects| ==> EntryLoads(masterList.value.objects[i], toCertificate)
  {
    if masterList.Returned? {
      LoadEntriesSucceedsIff(masterList.value.objects, toCertificate);
    }
  }

  /** Inserting one set: certificate j of the set is stored under the alias
      of j (a later certificate never overwrites an earlier one of the same
      set, because aliases of distinct indices never collide). */
  lemma {:induction false} InsertCertificatesStores(certs: seq<Asn1Value>, toCertificate: Asn1Value -> Outcome<Certificate>, ks: KeyStore, ks': KeyStore)
    requires InsertCertificates(certs, toCertificate, ks) == Some(ks')
    ensures forall j: nat :: j < |certs| ==>
              toCertificate(certs[j]).Returned? && Text.DecimalString(j) in ks' && ks'[Text.DecimalString(j)] == toCertificate(certs[j]).value
    decreases |certs|
  {
    if |certs| > 0 {
      var n := |certs| - 1;
      assert InsertCertificates(certs[..n], toCertificate, ks).Some?;
      var prev := InsertCertificates(certs[..n], toCertificate, ks).value;
      InsertCertificatesStores(certs[..n], toCertificate, ks, prev);
      assert ks' == prev[Text.DecimalString(n) := toCertificate(certs[n]).value];
      OtherIndicesOtherAliases(n);
      forall j: nat | j < n
        ensures toCertificate(certs[j]).Returned? && Text.DecimalString(j) in ks'
        ensures ks'[Text.DecimalString(j)] == toCertificate(certs[j]).value
      {
        assert certs[..n][j] == certs[j];
        assert Text.DecimalString(j) != Text.DecimalString(n);
        assert ks'[Text.DecimalString(j)] == prev[Text.DecimalString(j)];
      }
    }
  }

  /** Inserting one set leaves every alias whose index the set does not
      reach as it was, present or absent. */
  lemma {:induction false} InsertCertificatesKeepsOthers(certs: seq<Asn1Value>, toCertificate: Asn1Value -> Outcome<Certificate>, ks: KeyStore, ks': KeyStore)
    requires InsertCertificates(certs, toCertificate, ks) == Some(ks')
    ensures forall j: nat :: j >= |certs| ==>
              (Text.DecimalString(j) in ks' <==> Text.DecimalString(j) in ks)
              && (Text.DecimalString(j) in ks ==> ks'[Text.DecimalString(j)] == ks[Text.DecimalString(j)])
    decreases |certs|
  {
    if |certs| > 0 {
      var n := |certs| - 1;
      assert InsertCertificates(certs[..n], toCertificate, ks).Some?;
      var prev := InsertCertificates(certs[..n], toCertificate, ks).value;
      InsertCertificatesKeepsOthers(certs[..n], toCertificate, ks, prev);
      assert ks' == prev[Text.DecimalString(n) := toCertificate(certs[n]).value];
      OtherIndicesOtherAliases(n);
    }
  }

  /** `a` is the alias of an index below `m`. */
  ghost predicate IsAliasBelow(a: string, m: nat) {
    exists j: nat :: j < m && a == Text.DecimalString(j)
  }

  /** Inserting one set adds no alias but those of its indices. */
  lemma {:induction false} InsertCertificatesNewAliases(certs: seq<Asn1Value>, toCertificate: Asn1Value -> Outcome<Certificate>, ks: KeyStore, ks': KeyStore)
    requires InsertCertificates(certs, toCertificate, ks) == Some(ks')
    ensures forall a :: a in ks' ==> a in ks || IsAliasBelow(a, |certs|)
    decreases |certs|
  {
    if |certs| > 0 {
      var n := |certs| - 1;
      assert InsertCertificates(certs[..n], toCertificate, ks).Some?;
      var prev := InsertCertificates(certs[..n], toCertificate, ks).value;
      InsertCertificatesNewAliases(certs[..n], toCertificate, ks, prev);
      var alias := Text.DecimalString(n);
      assert ks' == prev[alias := toCertificate(certs[n]).value];
      forall a | a in ks'
        ensures a in ks || IsAliasBelow(a, |certs|)
      {
        if a == alias {
          assert n < |certs| && a == Text.DecimalString(n);
        } else if a !in ks {
          assert a in prev && IsAliasBelow(a, n);
          var j: nat :| j < n && a == Text.DecimalString(j);
          assert j < |certs| && a == Text.DecimalString(j);
        }
      }
    }
  }

  /** Aliases of distinct indices never collide. */
  lemma OtherIndicesOtherAliases(n: nat)
    ensures forall j: nat :: j != n ==> Text.DecimalString(j) != Text.DecimalString(n)
  {
    forall j: nat | j != n
      ensures Text.DecimalString(j) != Text.DecimalString(n)
    {
      if Text.DecimalString(j) == Text.DecimalString(n) {
        Text.DecimalStringInjective(j, n);
      }
    }
  }

  /** Appending a top-level entry overwrites exactly the aliases "0" .. "m-1"
      of its m certificates: a later set overwrites earlier entries with the
      same index and leaves the others. */
  lemma LaterEntryOverwrites(objs: seq<Asn1Value>, obj: Asn1Value, toCertificate: Asn1Value -> Outcome<Certificate>, ks: KeyStore, ks': KeyStore)
    requires LoadEntries(objs, toCertificate) == Some(ks)
    requires LoadEntries(objs + [obj], toCertificate) == Some(ks')
    ensures IsMasterListEntry(obj)
    ensures forall j: nat :: j < |obj.items[1].items| ==>
              toCertificate(obj.items[1].items[j]).Returned?
              && Text.DecimalString(j) in ks' && ks'[Text.DecimalString(j)] == toCertificate(obj.items[1].items[j]).value
    ensures forall j: nat :: j >= |obj.items[1].items| ==>
              (Text.DecimalString(j) in ks' <==> Text.DecimalString(j) in ks)
              && (Text.DecimalString(j) in ks ==> ks'[Text.DecimalString(j)] == ks[Text.DecimalString(j)])
  {
    assert (objs + [obj])[..|objs|] == objs;
    InsertCertificatesStores(obj.items[1].items, toCertificate, ks, ks');
    InsertCertificatesKeepsOthers(obj.items[1].items, toCertificate, ks, ks');
  }

  ghost predicate IsIndexAlias(alias: string) {
    exists j: nat :: alias == Text.DecimalString(j)
  }

  /** Every alias in a loaded store is the decimal rendering of an index. */
  lemma {:induction false} AliasesAreIndices(objs: seq<Asn1Value>, toCertificate: Asn1Value -> Outcome<Certificate>, ks: KeyStore)
    requires LoadEntries(objs, toCertificate) == Some(ks)
    ensures forall a :: a in ks ==> IsIndexAlias(a)
    decreases |objs|
  {
    if |objs| > 0 {
      var n := |objs| - 1;
      assert LoadEntries(objs[..n], toCertificate).Some?;
      var prev := LoadEntries(objs[..n], toCertificate).value;
      AliasesAreIndices(objs[..n], toCertificate, prev);
      assert IsMasterListEntry(objs[n]);
      var certs := objs[n].items[1].items;
      assert InsertCertificates(certs, toCertificate, prev) == Some(ks);
      InsertCertificatesNewAliases(certs, toCertificate, prev, ks);
      forall a | a in ks
        ensures IsIndexAlias(a)
      {
        if a !in prev {
          assert IsAliasBelow(a, |certs|);
          var j: nat :| j < |certs| && a == Text.DecimalString(j);
        }
      }
    }
  }

  /** Entries whose certificate sets are all empty load no trusted entry. */
  lemma {:induction false} EmptySetsLoadNothing(objs: seq<Asn1Value>, toCertificate: Asn1Value -> Outcome<Certificate>)
    requires forall k :: 0 <= k < |objs| ==> IsMasterListEntry(objs[k]) ==> objs[k].items[1].items == []
    ensures LoadEntries(objs, toCertificate) == None || LoadEntries(objs, toCertificate) == Some(map[])
    decreases |objs|
  {
    if |objs| > 0 {
      EmptySetsLoadNothing(objs[..|objs| - 1], toCertificate);
    }
  }

  // ---------------------------------------------------------------------
  // Signature algorithm

  /** The signer certificate's `sigAlgName`, with "SSAwithRSA/PSS" rewritten
      to "SHA256withRSA/PSS" and given explicit PSS parameters (SHA-256,
      MGF1 with SHA-256, salt 32, trailer 1); any other name is used as it is
      with no parameters. */
  function SignatureAlgorithm(sigAlgName: string): (r: (string, Option<PssParameterSpec>))
    ensures r.1.Some? <==> sigAlgName == "SSAwithRSA/PSS"
    ensures r.1.Some? ==> r.0 == "SHA256withRSA/PSS" && r.1.value == Sha256Pss
    ensures r.1.None? ==> r.0 == sigAlgName
    ensures r.0 != "SSAwithRSA/PSS"
  {
    if sigAlgName == "SSAwithRSA/PSS" then ("SHA256withRSA/PSS", Some(Sha256Pss)) else (sigAlgName, None)
  }

  // ---------------------------------------------------------------------
  // The whole check

  predicate CertificatesValid(crypto: Crypto, certs: seq<Certificate>) {
    forall c :: c in certs ==> crypto.checkValidity(c)
  }

  /** The master list loads into a store with at least one trusted entry
      (`PKIXParameters(keystore)` throws otherwise), every signer certificate
      is currently valid, and the path validates with revocation checking off. */
  predicate TrustChainValid(crypto: Crypto, sod: SodFile) {
    var ks := MasterListKeyStore(crypto.masterList, crypto.toCertificate);
    && ks.Some?
    && CertificatesValid(crypto, sod.docSigningCertificates)
    && |ks.value| > 0
    && crypto.validatePath(sod.docSigningCertificates, ks.value, false)
  }

  function SignatureCheckFor(sod: SodFile, signer: Certificate): SignatureCheck {
    var (algorithm, parameters) := SignatureAlgorithm(signer.sigAlgName);
    SignatureCheck(algorithm, parameters, signer, sod.eContent, sod.encryptedDigest)
  }

  predicate SignatureVerifies(crypto: Crypto, sod: SodFile) {
    && sod.docSigningCertificate.Some?
    && crypto.verify(SignatureCheckFor(sod, sod.docSigningCertificate.value)) == Returned(true)
  }

  /** When `doPassiveAuth` answers true. */
  predicate PassiveAuthHolds(crypto: Crypto, sodFile: Option<SodFile>, dg1File: Option<Dg1File>, dg2File: Option<Dg2File>, dg14Encoded: Option<Bytes>, chipAuthSucceeded: bool) {
    && sodFile.Some?
    && crypto.digestAvailable(sodFile.value.digestAlgorithm)
    && dg1File.Some? && dg2File.Some?
    && HashStagePasses(crypto, sodFile.value, dg1File.value, dg2File.value, dg14Encoded, chipAuthSucceeded)
    && TrustChainValid(crypto, sodFile.value)
    && SignatureVerifies(crypto, sodFile.value)
  }

  // ---------------------------------------------------------------------
  // The imperative code

  /** The inner loop of the master-list load: certificate i of the set goes
      in under the alias `i.toString()`, and the first certificate that does
      not parse ends the load. */
  method InsertCertificateSet(certSet: seq<Asn1Value>, toCertificate: Asn1Value -> Outcome<Certificate>, before: KeyStore)
    returns (loaded: Option<KeyStore>)
    ensures loaded == InsertCertificates(certSet, toCertificate, before)
  {
    var ks := before;
    var i := 0;
    while i < |certSet|
      invariant 0 <= i <= |certSet|
      invariant InsertCertificates(certSet[..i], toCertificate, before) == Some(ks)
    {
      assert certSet[..i + 1][..i] == certSet[..i];
      match toCertificate(certSet[i]) {
        case Threw(_) =>
          InsertCertificatesFailureSticks(certSet, toCertificate, before, i + 1);
          return None;
        case Returned(c) =>
          ks := ks[Text.DecimalString(i) := c];
      }
      i := i + 1;
    }
    assert certSet[..i] == certSet;
    return Some(ks);
  }

  /** The master-list loop: each top-level object must be a two-element
      sequence whose second element is a set; certificate i of a set goes in
      under the alias `i.toString()`. */
  method LoadMasterList(crypto: Crypto) returns (keystore: Option<KeyStore>)
    ensures keystore == MasterListKeyStore(crypto.masterList, crypto.toCertificate)
  {
    if crypto.masterList.Threw? {
      return None;
    }
    var stream := crypto.masterList.value;
    var objects := stream.objects;
    var ks: KeyStore := map[];
    var n := 0;
    while n < |objects|
      invariant 0 <= n <= |objects|
      invariant LoadEntries(objects[..n], crypto.toCertificate) == Some(ks)
    {
      var p := objects[n];
      assert objects[..n + 1][..n] == objects[..n];
      if !p.Asn1Sequence? || |p.items| != 2 || !p.items[1].Asn1Set? {
        // ASN1Sequence.getInstance, require(size == 2) or ASN1Set.getInstance throws
        MalformedEntryRejectsList(objects, crypto.toCertificate, n);
        return None;
      }
      var loaded := InsertCertificateSet(p.items[1].items, crypto.toCertificate, ks);
      if loaded.None? {
        // Certificate.getInstance or generateCertificate throws
        LoadEntriesFailureSticks(objects, crypto.toCertificate, n + 1);
        return None;
      }
      ks := loaded.value;
      n := n + 1;
    }
    if stream.failsAfterObjects {
      return None;
    }
    assert objects[..n] == objects;
    return Some(ks);
  }

  /** `doPassiveAuth`: true exactly when every step succeeds and the
      signature verifies; a null SOD, a null DG1 or DG2 (`!!`), a hash
      mismatch or any exception gives false. */
  method DoPassiveAuth(crypto: Crypto, sodFile: Option<SodFile>, dg1File: Option<Dg1File>, dg2File: Option<Dg2File>,
                       dg14Encoded: Option<Bytes>, chipAuthSucceeded: bool)
    returns (ok: bool)
    ensures ok == PassiveAuthHolds(crypto, sodFile, dg1File, dg2File, dg14Encoded, chipAuthSucceeded)
    ensures ok ==> sodFile.Some? && dg1File.Some? && dg2File.Some?
  {
    if sodFile.None? {
      return false;
    }
    var sod := sodFile.value;
    if !crypto.digestAvailable(sod.digestAlgorithm) {
      return false;
    }
    var dataHashes := sod.dataGroupHashes;
    var dg14Hash := if chipAuthSucceeded && dg14Encoded.Some? then crypto.digest(sod.digestAlgorithm, dg14Encoded.value) else [];
    if dg1File.None? || dg2File.None? {
      return false;
    }
    var dg1Hash := crypto.digest(sod.digestAlgorithm, dg1File.value.encoded);
    var dg2Hash := crypto.digest(sod.digestAlgorithm, dg2File.value.encoded);
    if !(HashMatches(dataHashes, 1, dg1Hash) && HashMatches(dataHashes, 2, dg2Hash)
         && (!chipAuthSucceeded || HashMatches(dataHashes, 14, dg14Hash))) {
      return false;
    }

    var keystore := LoadMasterList(crypto);
    if keystore.None? {
      return false;
    }

    var certs := sod.docSigningCertificates;
    var i := 0;
    while i < |certs|
      invariant 0 <= i <= |certs|
      invariant forall j :: 0 <= j < i ==> crypto.checkValidity(certs[j])
    {
      if !crypto.checkValidity(certs[i]) {
        return false;
      }
      i := i + 1;
    }

    if |keystore.value| == 0 {
      // PKIXParameters(keystore) throws on a store with no trusted entry
      return false;
    }
    if !crypto.validatePath(certs, keystore.value, false) {
      return false;
    }

    if sod.docSigningCertificate.None? {
      return false;
    }
    var signer := sod.docSigningCertificate.value;
    var (algorithm, parameters) := SignatureAlgorithm(signer.sigAlgName);
    var verified := crypto.verify(SignatureCheck(algorithm, parameters, signer, sod.eContent, sod.encryptedDigest));
    ok := verified == Returned(true);
  }

  // ---------------------------------------------------------------------
  // Properties

  /** Fail-closed: true requires a SOD, DG1 and DG2, both hashes equal to the
      signed ones, a loaded master list with a trusted entry, valid signer
      certificates, path validation without revocation, and a signature that
      verified (an exception from `verify` is never true). */
  lemma PassiveAuthFailClosed(crypto: Crypto, sodFile: Option<SodFile>, dg1File: Option<Dg1File>, dg2File: Option<Dg2File>,
                              dg14Encoded: Option<Bytes>, chipAuthSucceeded: bool)
    requires PassiveAuthHolds(crypto, sodFile, dg1File, dg2File, dg14Encoded, chipAuthSucceeded)
    ensures sodFile.Some? && dg1File.Some? && dg2File.Some?
    ensures var sod := sodFile.value;
            && HashMatches(sod.dataGroupHashes, 1, crypto.digest(sod.digestAlgorithm, dg1File.value.encoded))
            && HashMatches(sod.dataGroupHashes, 2, crypto.digest(sod.digestAlgorithm, dg2File.value.encoded))
    ensures var ks := MasterListKeyStore(crypto.masterList, crypto.toCertificate);
            ks.Some? && |ks.value| > 0 && crypto.validatePath(sodFile.value.docSigningCertificates, ks.value, false)
    ensures forall j :: 0 <= j < |sodFile.value.docSigningCertificates| ==> crypto.checkValidity(sodFile.value.docSigningCertificates[j])
    ensures sodFile.value.docSigningCertificate.Some?
    ensures crypto.verify(SignatureCheckFor(sodFile.value, sodFile.value.docSigningCertificate.value)) == Returned(true)
  {
    var certs := sodFile.value.docSigningCertificates;
    forall j | 0 <= j < |certs| ensures crypto.checkValidity(certs[j]) {
      assert certs[j] in certs;
    }
  }

  /** Without chip authentication the DG14 entry of the SOD and the DG14
      bytes play no part: the answer is the same whatever they are. */
  lemma Dg14IgnoredWithoutChipAuth(crypto: Crypto, sod: SodFile, dg1File: Option<Dg1File>, dg2File: Option<Dg2File>,
                                   e1: Option<Bytes>, e2: Option<Bytes>, h: Bytes)
    ensures PassiveAuthHolds(crypto, Some(sod), dg1File, dg2File, e1, false)
        == PassiveAuthHolds(crypto, Some(sod.(dataGroupHashes := sod.dataGroupHashes[14 := h])), dg1File, dg2File, e2, false)
  {
    var sod' := sod.(dataGroupHashes := sod.dataGroupHashes[14 := h]);
    assert SignatureCheckFor(sod, sod.docSigningCertificate.GetOr(Certificate([], "")))
        == SignatureCheckFor(sod', sod'.docSigningCertificate.GetOr(Certificate([], "")));
  }

  /** With chip authentication but no DG14 bytes, the DG14 digest compared is
      the empty array: the answer can be true only if the SOD's DG14 entry is
      itself empty. */
  lemma Dg14WithoutBytesNeedsEmptyEntry(crypto: Crypto, sodFile: Option<SodFile>, dg1File: Option<Dg1File>, dg2File: Option<Dg2File>)
    requires PassiveAuthHolds(crypto, sodFile, dg1File, dg2File, None, true)
    ensures 14 in sodFile.value.dataGroupHashes && sodFile.value.dataGroupHashes[14] == []
  {
  }

  /** A data group whose digest differs from the signed one (one altered
      byte, with a collision-free digest) fails, whatever else matches. */
  lemma AlteredDataGroupFails(crypto: Crypto, sod: SodFile, dg1: Dg1File, dg2: Dg2File, dg2': Dg2File,
                              dg14Encoded: Option<Bytes>, chipAuthSucceeded: bool)
    requires PassiveAuthHolds(crypto, Some(sod), Some(dg1), Some(dg2), dg14Encoded, chipAuthSucceeded)
    requires crypto.digest(sod.digestAlgorithm, dg2'.encoded) != crypto.digest(sod.digestAlgorithm, dg2.encoded)
    ensures !PassiveAuthHolds(crypto, Some(sod), Some(dg1), Some(dg2'), dg14Encoded, chipAuthSucceeded)
  {
  }

  /** A master list whose certificate sets are all empty yields no trust
      anchor, so passive authentication fails. */
  lemma NoTrustAnchorFails(crypto: Crypto, sodFile: Option<SodFile>, dg1File: Option<Dg1File>, dg2File: Option<Dg2File>,
                           dg14Encoded: Option<Bytes>, chipAuthSucceeded: bool)
    requires crypto.masterList.Returned?
    requires var objs := crypto.masterList.value.objects;
             forall k :: 0 <= k < |objs| ==> IsMasterListEntry(objs[k]) ==> objs[k].items[1].items == []
    ensures !PassiveAuthHolds(crypto, sodFile, dg1File, dg2File, dg14Encoded, chipAuthSucceeded)
  {
    EmptySetsLoadNothing(crypto.masterList.value.objects, crypto.toCertificate);
  }

  /** Revocation is never consulted: two providers that differ only in what
      path validation with revocation enabled would say give the same answer. */
  lemma RevocationNeverConsulted(c1: Crypto, c2: Crypto, sodFile: Option<SodFile>, dg1File: Option<Dg1File>, dg2File: Option<Dg2File>,
                                 dg14Encoded: Option<Bytes>, chipAuthSucceeded: bool)
    requires c2 == c1.(validatePath := c2.validatePath)
    requires forall certs, ks :: c1.validatePath(certs, ks, false) == c2.validatePath(certs, ks, false)
    ensures PassiveAuthHolds(c1, sodFile, dg1File, dg2File, dg14Encoded, chipAuthSucceeded)
        == PassiveAuthHolds(c2, sodFile, dg1File, dg2File, dg14Encoded, chipAuthSucceeded)
  {
  }
}
