# Passport NFC reader: a verified model

This project models the Android side of the `nfc_passport_reader` Flutter
plugin in Dafny. The plugin reads an ICAO Doc 9303 e-passport over NFC and
covers:

- the method call that starts a read;
- the NFC tag intent that launches it;
- the read pipeline: PACE or BAC, the mandatory data groups, chip
  authentication, passive authentication and the images;
- the reply map sent back to Flutter.

Every library call the Kotlin code makes is an oracle: a parameter that says
what the call returned or that it threw. This covers JMRTD, scuba,
BouncyCastle, `java.security` and Android. Around those calls the model
keeps the code's own decisions and assembly: its branches, loops, error
codes and messages, and its constants.

Modules (one per concern; all files are verified together):

- `Outcomes` (`outcomes.dfy`): `Option`, exceptions by kind, and the
  `Outcome` of a call (returned or threw).
- `Lds` (`lds.dfy`): the decoded JMRTD objects. These are the BAC key,
  security infos, the MRZ, DG1, DG2, DG7, DG11, DG14, the SOD, certificates
  and master-list ASN.1 values.
- `Text` (`text.dfy`): Kotlin's `isWhitespace`, `filterNot`, `replace`,
  `joinToString` and `Int.toString`.
- `DateFormat` (`date_format.dfy`): `convertDate`.
- `PassiveAuth` (`passive_auth.dfy`): `doPassiveAuth`. This covers:
  - the hash stage;
  - the master-list key store, a nested loop;
  - certificate validity and path validation;
  - the RSASSA-PSS name rewrite;
  - the signature.
- `NfcReader` (`nfc_reader.dfy`): `readPassport`, `doChipAuth` and
  `DG11File.getData`.
  - `ReadPassport` is a method with the source's mutable locals.
  - The method is proved equal to the specification function
    `ReadPassportSpec`.
  - It also returns the protocol calls it made (`DoPace`, `SelectApplet`,
    `ReadEfCom`, `DoBac`, `DoEacCa`), so properties can speak about which
    calls happen.
- `NfcPassportReaderPlugin` (`plugin.dfy`): the plugin class. Its fields
  are the activity, `pendingResult`, the three stored arguments and the
  foreground-dispatch flag. Two more fields make the Flutter replies
  observable: a count of the method calls received, and the log of replies.
  - `Plugin.Valid` states the Flutter rule: a call's `Result` is answered at
    most once, and the pending call is still unanswered.
  - Every method preserves `Valid`.

Paths in the table are relative to the repository root. `R` stands for
`android/src/main/kotlin/com/smartify/nfc_passport_reader/NfcReader.kt` and
`P` for `android/src/main/kotlin/com/smartify/nfc_passport_reader/NfcPassportReaderPlugin.kt`
in the prose below; the table cells spell them out.

## Model

| member | source | states |
|---|---|---|
| Text.FilterNotWhitespace | android/src/main/kotlin/com/smartify/nfc_passport_reader/NfcPassportReaderPlugin.kt:171-176 | `filterNot { isWhitespace() }`: the result has no whitespace and is no longer than the input |
| Text.FilterNotWhitespaceCounts | android/src/main/kotlin/com/smartify/nfc_passport_reader/NfcPassportReaderPlugin.kt:171-176 | every non-whitespace character survives as often as the input has it, and no whitespace survives |
| Text.FilterNotWhitespaceAppend | android/src/main/kotlin/com/smartify/nfc_passport_reader/NfcPassportReaderPlugin.kt:172 | filtering distributes over concatenation, so surviving characters keep their order |
| Text.FilterNotWhitespaceIdentity | android/src/main/kotlin/com/smartify/nfc_passport_reader/NfcPassportReaderPlugin.kt:172 | text without whitespace is unchanged (the filter is idempotent) |
| Text.ReplaceChar | android/src/main/kotlin/com/smartify/nfc_passport_reader/NfcPassportReaderPlugin.kt:156-157 | `replace("<", " ")`: same length, each '<' becomes a space, every other character stays in place, no '<' remains |
| Text.JoinToString | android/src/main/kotlin/com/smartify/nfc_passport_reader/NfcReader.kt:322-323 | `joinToString()`: an empty list gives "", one part gives that part, otherwise the parts' lengths plus two per ", " separator |
| Text.JoinToStringAppend | android/src/main/kotlin/com/smartify/nfc_passport_reader/NfcReader.kt:322-323 | appending a part appends ", " and that part |
| Text.DecimalString | android/src/main/kotlin/com/smartify/nfc_passport_reader/NfcReader.kt:243 | `i.toString()` for an index: non-empty, all decimal digits, one digit exactly below 10 |
| Text.DecimalStringInjective | android/src/main/kotlin/com/smartify/nfc_passport_reader/NfcReader.kt:243 | distinct indices give distinct aliases |
| DateFormat.TwoDigits | android/src/main/kotlin/com/smartify/nfc_passport_reader/NfcPassportReaderPlugin.kt:206 | a two-digit field of `yyMMdd` is two decimal digits |
| DateFormat.FormatYyMmDd | android/src/main/kotlin/com/smartify/nfc_passport_reader/NfcPassportReaderPlugin.kt:206 | `format` with `yyMMdd` gives six decimal digits |
| DateFormat.ConvertDate | android/src/main/kotlin/com/smartify/nfc_passport_reader/NfcPassportReaderPlugin.kt:203-213 | null maps to null; the result is null exactly when parsing fails; a result is six digits, so never empty |
| DateFormat.ConvertIsoDate | android/src/main/kotlin/com/smartify/nfc_passport_reader/NfcPassportReaderPlugin.kt:203-213 | a well-formed `yyyy-MM-dd` date converts to the last two year digits, then the month, then the day |
| PassiveAuth.Dg14Hash | android/src/main/kotlin/com/smartify/nfc_passport_reader/NfcReader.kt:214-216 | without DG14 bytes the DG14 digest compared is the empty array |
| PassiveAuth.InsertCertificateSet | android/src/main/kotlin/com/smartify/nfc_passport_reader/NfcReader.kt:239-244 | the inner loop over one certificate set yields exactly `InsertCertificates` of the set, None at the first certificate that does not parse |
| PassiveAuth.LoadMasterList | android/src/main/kotlin/com/smartify/nfc_passport_reader/NfcReader.kt:226-245 | the outer loop builds exactly the key store of `MasterListKeyStore` (left fold over the master list), or fails as it does |
| PassiveAuth.InsertCertificatesFailureSticks | android/src/main/kotlin/com/smartify/nfc_passport_reader/NfcReader.kt:239-244 | a certificate that does not decode makes loading its whole set fail |
| PassiveAuth.LoadEntriesFailureSticks | android/src/main/kotlin/com/smartify/nfc_passport_reader/NfcReader.kt:233-245 | once a prefix of the master list fails to load, the whole list fails |
| PassiveAuth.MalformedEntryRejectsList | android/src/main/kotlin/com/smartify/nfc_passport_reader/NfcReader.kt:233-238 | a top-level object that is not a two-element sequence with a set second fails the list |
| PassiveAuth.InsertCertificatesSucceedsIff | android/src/main/kotlin/com/smartify/nfc_passport_reader/NfcReader.kt:239-244 | inserting a set succeeds exactly when every certificate of the set decodes |
| PassiveAuth.LoadEntriesSucceedsIff | android/src/main/kotlin/com/smartify/nfc_passport_reader/NfcReader.kt:233-245 | the objects load exactly when each is a two-element sequence with a set second whose certificates all decode |
| PassiveAuth.MasterListLoadsIff | android/src/main/kotlin/com/smartify/nfc_passport_reader/NfcReader.kt:226-245 | the master list yields a store exactly when the asset opens and parses to its end and every object loads |
| PassiveAuth.InsertCertificatesStores | android/src/main/kotlin/com/smartify/nfc_passport_reader/NfcReader.kt:239-244 | certificate j of a set is stored under alias `j.toString()` |
| PassiveAuth.InsertCertificatesKeepsOthers | android/src/main/kotlin/com/smartify/nfc_passport_reader/NfcReader.kt:239-244 | the alias of an index beyond the set keeps the entry it had |
| PassiveAuth.InsertCertificatesNewAliases | android/src/main/kotlin/com/smartify/nfc_passport_reader/NfcReader.kt:239-244 | every alias in the resulting store was there before or is `j.toString()` for an index j of the set |
| PassiveAuth.LaterEntryOverwrites | android/src/main/kotlin/com/smartify/nfc_passport_reader/NfcReader.kt:233-245 | a later set overwrites exactly the aliases "0" to "m-1" of the store so far and leaves the rest |
| PassiveAuth.AliasesAreIndices | android/src/main/kotlin/com/smartify/nfc_passport_reader/NfcReader.kt:243 | every alias in a loaded store is the decimal rendering of an index |
| PassiveAuth.EmptySetsLoadNothing | android/src/main/kotlin/com/smartify/nfc_passport_reader/NfcReader.kt:233-245 | a master list whose sets are all empty loads no trusted entry |
| PassiveAuth.SignatureAlgorithm | android/src/main/kotlin/com/smartify/nfc_passport_reader/NfcReader.kt:261-273 | "SSAwithRSA/PSS" becomes "SHA256withRSA/PSS" with PSS parameters SHA-256, MGF1/SHA-256, salt 32, trailer 1; any other name is unchanged and has no parameters |
| PassiveAuth.DoPassiveAuth | android/src/main/kotlin/com/smartify/nfc_passport_reader/NfcReader.kt:202-283 | the answer is `PassiveAuthHolds` (hash stage, trust chain, signature); true needs a SOD, DG1 and DG2 |
| PassiveAuth.PassiveAuthFailClosed | android/src/main/kotlin/com/smartify/nfc_passport_reader/NfcReader.kt:209-282 | true implies both hashes match the signed ones, the store loaded with a trusted entry, all signer certificates are valid, the path validated without revocation, and `verify` returned true |
| PassiveAuth.Dg14IgnoredWithoutChipAuth | android/src/main/kotlin/com/smartify/nfc_passport_reader/NfcReader.kt:221-223 | without chip authentication the DG14 entry and the DG14 bytes do not affect the answer |
| PassiveAuth.Dg14WithoutBytesNeedsEmptyEntry | android/src/main/kotlin/com/smartify/nfc_passport_reader/NfcReader.kt:214-223 | with chip authentication but no DG14 bytes, true requires the SOD's DG14 hash to be the empty array |
| PassiveAuth.AlteredDataGroupFails | android/src/main/kotlin/com/smartify/nfc_passport_reader/NfcReader.kt:218-223 | a DG2 whose digest differs from the accepted one fails |
| PassiveAuth.NoTrustAnchorFails | android/src/main/kotlin/com/smartify/nfc_passport_reader/NfcReader.kt:254-256 | with no trusted entry (`PKIXParameters` throws) the answer is false |
| PassiveAuth.RevocationNeverConsulted | android/src/main/kotlin/com/smartify/nfc_passport_reader/NfcReader.kt:254-259 | two validators that agree with revocation off give the same answer |
| NfcReader.GetData | android/src/main/kotlin/com/smartify/nfc_passport_reader/NfcReader.kt:318-326 | place of birth and address are joined with ", " (an empty list gives ""); the other fields are copied |
| NfcReader.FirstPace | android/src/main/kotlin/com/smartify/nfc_passport_reader/NfcReader.kt:82-83 | the index of the first PACEInfo, or none if there is none |
| NfcReader.PaceAbortedIff | android/src/main/kotlin/com/smartify/nfc_passport_reader/NfcReader.kt:82-95 | the PACE loop is left early exactly when some `doPACE` throws |
| NfcReader.PaceSucceededIff | android/src/main/kotlin/com/smartify/nfc_passport_reader/NfcReader.kt:82-95 | `paceSucceeded` is true exactly when the first PACEInfo's `doPACE` returned |
| NfcReader.PaceAttemptsCalls | android/src/main/kotlin/com/smartify/nfc_passport_reader/NfcReader.kt:82-92 | the PACE calls are a prefix of one call per PACEInfo, and all of them when none throws (no break) |
| NfcReader.SetUpChannel | android/src/main/kotlin/com/smartify/nfc_passport_reader/NfcReader.kt:78-104 | the loop and the fallback yield exactly `ChannelSetup`; set-up succeeds exactly when the applet selection returns and PACE succeeded, EF.COM reads or BAC returns; `paceSucceeded` is the PACE stage's verdict |
| NfcReader.BacOnlyAsFallback | android/src/main/kotlin/com/smartify/nfc_passport_reader/NfcReader.kt:97-104 | `doBAC` is called, with the caller's key, exactly when PACE did not succeed, applet selection returned and reading EF.COM threw |
| NfcReader.FirstChipAuthInfo | android/src/main/kotlin/com/smartify/nfc_passport_reader/NfcReader.kt:184-185 | the index of the first ChipAuthenticationPublicKeyInfo, or none if there is none |
| NfcReader.DoChipAuth | android/src/main/kotlin/com/smartify/nfc_passport_reader/NfcReader.kt:178-200 | true exactly when DG14 reads and `doEACCA` returns on the first ChipAuthenticationPublicKeyInfo; at most one call, with id-CA-ECDH-AES-CBC-CMAC-256 and that entry's key |
| NfcReader.ReadImageBytes | android/src/main/kotlin/com/smartify/nfc_passport_reader/NfcReader.kt:125-130 | the buffer holds exactly `imageLength` bytes of the stream; a negative length or a short stream throws |
| NfcReader.ProcessImage | android/src/main/kotlin/com/smartify/nfc_passport_reader/NfcReader.kt:122-136 | reads, decodes and Base64-encodes one image as `DecodedImage` does |
| NfcReader.ReadPassport | android/src/main/kotlin/com/smartify/nfc_passport_reader/NfcReader.kt:50-176 | the method with its mutable locals returns the result and call trace of `ReadPassportSpec` |
| NfcReader.MandatoryFailuresAbort | android/src/main/kotlin/com/smartify/nfc_passport_reader/NfcReader.kt:107-113 | a failure opening, in channel set-up, or reading DG1, DG2, SOD or DG11 gives Error, never Success |
| NfcReader.ReadSucceedsIff | android/src/main/kotlin/com/smartify/nfc_passport_reader/NfcReader.kt:107-171 | a read succeeds exactly when opening, channel set-up, DG1, DG2, SOD, DG11 and the first face image do not throw; the record holds DG1, `getData()` of DG11, `doChipAuth`'s flag and the passive-authentication verdict computed without DG14 bytes |
| NfcReader.BacFailureAborts | android/src/main/kotlin/com/smartify/nfc_passport_reader/NfcReader.kt:97-104 | a failing BAC gives Error with BAC's exception |
| NfcReader.SignatureImageOptional | android/src/main/kotlin/com/smartify/nfc_passport_reader/NfcReader.kt:138-159 | DG7 changes neither success nor any field except the two signature fields; the signature is set exactly when DG7 reads, has an image and that image reads and decodes, so any DG7 failure leaves it null |
| NfcReader.SignatureIsFirstDg7Image | android/src/main/kotlin/com/smartify/nfc_passport_reader/NfcReader.kt:138-159 | both signature fields are set together, exactly when the first DG7 image reads and decodes; they hold that image's bitmap and the Base64 of exactly `imageLength` bytes |
| NfcReader.FaceImageIsFirstImage | android/src/main/kotlin/com/smartify/nfc_passport_reader/NfcReader.kt:122-136 | `imageBase64` is null exactly when DG2 has no image, and otherwise encodes exactly `imageLength` bytes of the first image |
| NfcReader.PassiveAuthWithoutDg14 | android/src/main/kotlin/com/smartify/nfc_passport_reader/NfcReader.kt:116-119 | passive auth runs on the SOD, DG1 and DG2 read, with no DG14 bytes; after chip authentication it can pass only if the DG14 hash is empty |
| NfcReader.AtMostOneChipAuthCall | android/src/main/kotlin/com/smartify/nfc_passport_reader/NfcReader.kt:178-200 | a read makes at most one `doEACCA` call, always with id-CA-ECDH-AES-CBC-CMAC-256, and at most one `doBAC` call |
| NfcReader.PaceForEveryInfo | android/src/main/kotlin/com/smartify/nfc_passport_reader/NfcReader.kt:82-92 | when no attempt throws, every PACEInfo is attempted in order |
| NfcReader.GenuineChipAuthenticatedDocumentFails | android/src/main/kotlin/com/smartify/nfc_passport_reader/NfcReader.kt:119 | as written, a genuine document with successful chip authentication and a non-empty DG14 digest gets `passiveAuthSuccess == false` |
| NfcReader.Dg14ForPassiveAuth | android/src/main/kotlin/com/smartify/nfc_passport_reader/NfcReader.kt:119 | the intended DG14 argument: the DG14 bytes, present exactly when chip authentication succeeded |
| NfcReader.IntendedDg14CheckAcceptsGenuine | android/src/main/kotlin/com/smartify/nfc_passport_reader/NfcReader.kt:214-223 | with the intended argument a genuine document passes, with or without chip authentication |
| NfcReader.IntendedDg14CheckRejectsAltered | android/src/main/kotlin/com/smartify/nfc_passport_reader/NfcReader.kt:214-223 | with the intended argument a DG14 whose digest is not the signed one fails after chip authentication |
| NfcPassportReaderPlugin.StartReply | android/src/main/kotlin/com/smartify/nfc_passport_reader/NfcPassportReaderPlugin.kt:70-98 | no adapter gives NFC_NOT_AVAILABLE and a disabled one NFC_DISABLED; only an enabled adapter sends no reply |
| NfcPassportReaderPlugin.DecideOnIntent | android/src/main/kotlin/com/smartify/nfc_passport_reader/NfcPassportReaderPlugin.kt:103-133 | only an IsoDep TECH_DISCOVERED intent is handled; it launches a read exactly when the number is non-empty, both dates convert and the key is accepted, and the key is the number with the converted birth and expiry dates, in that order (six digits each); BAC_KEYS_ERROR exactly when all three are present but the key is refused, INVALID_ARGS otherwise, each with its message |
| NfcPassportReaderPlugin.CaughtError | android/src/main/kotlin/com/smartify/nfc_passport_reader/NfcPassportReaderPlugin.kt:187-192 | TAG_LOST with "Lost connection to passport. Please try again." exactly for an IOException; otherwise READ_FAILED with the exception's message, or "Unknown error occurred" when it has none |
| NfcPassportReaderPlugin.BaseData | android/src/main/kotlin/com/smartify/nfc_passport_reader/NfcPassportReaderPlugin.kt:155-170 | the map literal holds exactly the fourteen base keys |
| NfcPassportReaderPlugin.PassportDataKeys | android/src/main/kotlin/com/smartify/nfc_passport_reader/NfcPassportReaderPlugin.kt:155-176 | the keys are the base keys, plus "photo" and "signature" exactly when their Base64 text is non-null |
| NfcPassportReaderPlugin.PassportDataFirstName | android/src/main/kotlin/com/smartify/nfc_passport_reader/NfcPassportReaderPlugin.kt:156 | firstName is the secondary identifier with every '<' replaced by a space, so it has the same length and no '<' |
| NfcPassportReaderPlugin.PassportDataLastName | android/src/main/kotlin/com/smartify/nfc_passport_reader/NfcPassportReaderPlugin.kt:157 | lastName is the primary identifier with every '<' replaced by a space, so it has the same length and no '<' |
| NfcPassportReaderPlugin.PassportDataFlags | android/src/main/kotlin/com/smartify/nfc_passport_reader/NfcPassportReaderPlugin.kt:161-162 | the two authentication flags are reported as read |
| NfcPassportReaderPlugin.PassportDataDg11Defaults | android/src/main/kotlin/com/smartify/nfc_passport_reader/NfcPassportReaderPlugin.kt:163-169 | without DG11 data every DG11 key is still present: fullName, personalNumber, placeOfBirth, residence, phoneNumber and profession are "" and otherNames is empty |
| NfcPassportReaderPlugin.PassportDataDg11Present | android/src/main/kotlin/com/smartify/nfc_passport_reader/NfcPassportReaderPlugin.kt:163-169 | with DG11 data each DG11 key carries its field, and a null field gives "" (`?: ""`) |
| NfcPassportReaderPlugin.PassportDataPhoto | android/src/main/kotlin/com/smartify/nfc_passport_reader/NfcPassportReaderPlugin.kt:171-173 | "photo" is the reader's `imageBase64` with whitespace removed (not the JPEG re-encoded locally), and is absent when that is null |
| NfcPassportReaderPlugin.PassportDataSignature | android/src/main/kotlin/com/smartify/nfc_passport_reader/NfcPassportReaderPlugin.kt:174-176 | "signature" is the reader's `signatureImageBase64` with whitespace removed, and is absent when that is null |
| NfcPassportReaderPlugin.PassportDataMrzFields | android/src/main/kotlin/com/smartify/nfc_passport_reader/NfcPassportReaderPlugin.kt:158-160 | gender, state and nationality are the MRZ's gender, issuing state and nationality |
| NfcPassportReaderPlugin.AssemblePassportData | android/src/main/kotlin/com/smartify/nfc_passport_reader/NfcPassportReaderPlugin.kt:155-176 | the map built and then updated in place is `PassportData` |
| NfcPassportReaderPlugin.CompletionReply | android/src/main/kotlin/com/smartify/nfc_passport_reader/NfcPassportReaderPlugin.kt:139-185 | a success reply exactly for Success with an MRZ, and its data is `PassportData` of that MRZ and record; otherwise READ_FAILED: "Failed to read MRZ info" for a missing MRZ, and for an Error the exception's message or "Failed to read passport" |
| NfcPassportReaderPlugin.LostTagReportedAsReadFailed | android/src/main/kotlin/com/smartify/nfc_passport_reader/NfcPassportReaderPlugin.kt:183-192 | as written, a read ending in an IOException is answered READ_FAILED with its message, not TAG_LOST |
| NfcPassportReaderPlugin.IntendedCompletionReply | android/src/main/kotlin/com/smartify/nfc_passport_reader/NfcPassportReaderPlugin.kt:183-192 | the intended reply: TAG_LOST exactly for an IOException from the read; otherwise as `CompletionReply` |
| NfcPassportReaderPlugin.Plugin.constructor | android/src/main/kotlin/com/smartify/nfc_passport_reader/NfcPassportReaderPlugin.kt:34-40 | no activity, no pending call, no arguments, no calls and no replies; `Valid` holds |
| NfcPassportReaderPlugin.Plugin.AttachToActivity | android/src/main/kotlin/com/smartify/nfc_passport_reader/NfcPassportReaderPlugin.kt:219-222 | the activity is attached; nothing else changes. `onReattachedToActivityForConfigChanges` (lines 228-231) does the same |
| NfcPassportReaderPlugin.Plugin.DetachFromActivity | android/src/main/kotlin/com/smartify/nfc_passport_reader/NfcPassportReaderPlugin.kt:224-226 | the activity is detached; nothing else changes. `onDetachedFromActivityForConfigChanges` (lines 233-235) does the same |
| NfcPassportReaderPlugin.Plugin.AnswerPending | android/src/main/kotlin/com/smartify/nfc_passport_reader/NfcPassportReaderPlugin.kt:197-200 | the pending call, if any, gets the reply; the slot is then null; `Valid` is kept, so no call is answered twice |
| NfcPassportReaderPlugin.Plugin.ReportError | android/src/main/kotlin/com/smartify/nfc_passport_reader/NfcPassportReaderPlugin.kt:196-201 | with an activity the pending call gets the error and the slot is cleared; without one nothing changes |
| NfcPassportReaderPlugin.Plugin.StartNfcReading | android/src/main/kotlin/com/smartify/nfc_passport_reader/NfcPassportReaderPlugin.kt:67-101 | with an activity, `StartReply` answers the pending call and clears it, or dispatch is enabled and the call stays pending; without one nothing changes |
| NfcPassportReaderPlugin.Plugin.OnMethodCall | android/src/main/kotlin/com/smartify/nfc_passport_reader/NfcPassportReaderPlugin.kt:47-65 | other methods get notImplemented; missing or empty arguments get INVALID_ARGS without touching `pendingResult`; otherwise the call becomes pending and NFC starts |
| NfcPassportReaderPlugin.Plugin.OnNewIntent | android/src/main/kotlin/com/smartify/nfc_passport_reader/NfcPassportReaderPlugin.kt:103-133 | returns true and launches a read with `DecideOnIntent`'s key exactly when it says Launch; a rejection is reported to the pending call |
| NfcPassportReaderPlugin.Plugin.CompleteRead | android/src/main/kotlin/com/smartify/nfc_passport_reader/NfcPassportReaderPlugin.kt:135-194 | with an activity the pending call gets `CompletionReply` and the slot is cleared; without one, `activity!!` throws before the read and nothing can be reported |

The specification functions that the methods above are proved equal to, and that the lemmas are stated over, model these lines (paths under `android/src/main/kotlin/com/smartify/nfc_passport_reader/`):

- `Text.IsWhitespace`: Kotlin's `Char.isWhitespace`, used by the `filterNot` at NfcPassportReaderPlugin.kt:172 and 175.
- `DateFormat.ParseDate`: `SimpleDateFormat("yyyy-MM-dd").parse` at NfcPassportReaderPlugin.kt:207.
- `PassiveAuth.InsertCertificates`, `PassiveAuth.LoadEntries` and `PassiveAuth.MasterListKeyStore`: the master-list loops at NfcReader.kt:226-245.
- `PassiveAuth.HashStagePasses` and `PassiveAuth.PassiveAuthHolds`: `doPassiveAuth` at NfcReader.kt:202-283.
- `NfcReader.PaceAttempts`, `NfcReader.PaceStage` and `NfcReader.ChannelSetup`: the PACE loop and the BAC fallback at NfcReader.kt:78-104.
- `NfcReader.ChipAuth`: `doChipAuth` at NfcReader.kt:178-200.
- `NfcReader.ImageBytes` and `NfcReader.DecodedImage`: the image reads at NfcReader.kt:122-136 and 138-153.
- `NfcReader.ReadPassportSpec`: `readPassport` at NfcReader.kt:50-176.
- `NfcPassportReaderPlugin.PassportData`: the map built at NfcPassportReaderPlugin.kt:155-176.

## Left out

- JMRTD, scuba, BouncyCastle and `java.security` are oracles: `PassportService`, `Crypto` and `Platform` fields. This covers `CardService`, `PassportService`, the `DG*File`, `SODFile` and `CardAccessFile` parsers, `doPACE`, `doBAC`, `doEACCA`, `sendSelectApplet`, `MessageDigest`, `CertificateFactory`, `CertPathValidator`, `KeyStore` and `Signature`. Each call's outcome is given, not computed: their sources are not part of this model.
- Key derivation, secure messaging and the chip-authentication key agreement happen inside JMRTD, and are not part of this model.
- `doPACE` is recorded with the PACEInfo's parameter id in place of `PACEInfo.toParameterSpec(parameterId)`.
- `ImageUtil.decodeImage` and `Base64.encodeToString` are opaque functions of the platform. Only the whitespace filter applied to Base64 output is modelled.
- The JPEG re-encoding of the bitmap (`P`, lines 148-153) is left out. Its result goes to a local `imageBase64` that is never read: the map takes `result.imageBase64`.
- `isoDep.timeout = 10000` and the opening of the card and passport services are one `open` outcome.
- The DG11 and DG14 byte copies through `IOUtils` are part of the read outcome of those files.
- DateFormat.ConvertDate: only a strictly well-formed `yyyy-MM-dd` date in the Gregorian calendar (year 1583 or later) is parsed by the model. Every other input goes to the `lenient` parameter, which stands for `SimpleDateFormat`'s lenient parsing (rollover, trailing text, Julian dates). The default time zone is not modelled.
- `BACKey`'s own argument checks are JMRTD's. Whether the constructor throws is the `bacKeyAccepted` parameter.
- Threads, coroutines and `runOnUiThread` are not modelled: events are sequential.
  - `CompleteRead` is the read coroutine run after `NfcReader.ReadPassport` has produced its result.
  - Interleavings, such as the activity detaching while a read runs, are not modelled.
- The Flutter `MethodChannel` registration, `onAttachedToEngine` and `onDetachedFromEngine` are plumbing and are left out.
- The `PendingIntent` and the IsoDep tech filter of foreground dispatch are one `foregroundDispatch` flag.
- The API-level branch for `getParcelableExtra` reads the same tag either way, and is one `tag` field.
- `call.argument` of a non-string value (a `ClassCastException`) is not modelled: arguments are strings.
- Logging (`Log.w`) is left out.
- The iOS plugin is not part of this model.
- `doPassiveAuth` hashes DG14 when `chipAuthSucceeded && dg14Encoded != null` (NfcReader.kt:214-216) and compares the digest at line 223. `readPassport` passes its outer `dg14Encoded` (line 60, line 119), which is never assigned, because `doChipAuth` reads DG14 into its own local (line 181). So the empty array is compared. The model follows the code; see Findings.
- NfcReader.ReadImageBytes: an `imageLength` too large to allocate makes `ByteArray(imageLength)` (NfcReader.kt:127, 146) throw `OutOfMemoryError`. That is an `Error`, not an `Exception`, so no handler catches it (NfcReader.kt:156, 173; NfcPassportReaderPlugin.kt:187). It escapes the `CoroutineScope(Dispatchers.IO).launch` coroutine, which has no exception handler, and reaches the thread's uncaught-exception handler, which on Android ends the app process; the pending call is never answered. The model has no allocation limit: every non-negative length is allocated, and only a negative length or a short stream throws.

## Findings

| source | as written | input that shows it | evidently intended | confidence | as-written member | corrected member |
|---|---|---|---|---|---|---|
| android/src/main/kotlin/com/smartify/nfc_passport_reader/NfcReader.kt:119 | `dg14Encoded` is declared null (line 60) and never assigned, so after a successful chip authentication the DG14 digest compared with the SOD is the empty array | a genuine passport whose chip authentication succeeds and whose SOD holds the true, non-empty DG14 digest: `passiveAuthSuccess` is false | pass the DG14 bytes `doChipAuth` read, so that the signed DG14 hash is checked | not executed; high | NfcReader.GenuineChipAuthenticatedDocumentFails | NfcReader.Dg14ForPassiveAuth |
| android/src/main/kotlin/com/smartify/nfc_passport_reader/NfcPassportReaderPlugin.kt:187-192 | `NfcReader.readPassport` catches every exception and returns `Error` (R lines 173-175), so the plugin's IOException branch is never reached | the tag leaves the field during the read, so reading DG1 throws `TagLostException`, an IOException: the reply is READ_FAILED with that message | answer TAG_LOST, "Lost connection to passport. Please try again." | not executed; medium | NfcPassportReaderPlugin.LostTagReportedAsReadFailed | NfcPassportReaderPlugin.IntendedCompletionReply |

Both corrections are proved as separate definitions. `NfcReader.ReadPassport` and `Plugin.CompleteRead` keep the behaviour as written, so the model stays a faithful account of the shipped code.
