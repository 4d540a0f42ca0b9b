/** The passport read pipeline of `NfcReader`: channel set-up (PACE for each
    advertised PACEInfo, applet selection, BAC only when EF.COM cannot be
    read), the mandatory DG1, DG2, SOD and DG11 reads, chip authentication,
    passive authentication, the first face image and the optional DG7
    signature image, ending in a tagged Success or Error.

    What the chip does is given by `PassportService`: one outcome per call
    the pipeline makes (PACE indexed by the position of its PACEInfo). What
    the platform does (image decoding, Base64, security providers) is given
    by `Platform`. Each read also yields the protocol calls it made, in order. */
module NfcReader {
  import opened Outcomes
  import opened Lds
  import Text
  import PassiveAuth

  /** JMRTD's `ChipAuthenticationPublicKeyInfo.ID_CA_ECDH_AES_CBC_CMAC_256`:
      the object identifier id-CA-ECDH-AES-CBC-CMAC-256 of BSI TR-03110. */
  const ID_CA_ECDH_AES_CBC_CMAC_256 := "0.4.0.127.0.7.2.2.3.2.4"

  /** The protocol calls a read makes. `DoPace` is one PACE attempt
      (`PACEInfo.toParameterSpec` and `doPACE`). */
  datatype ChipCall =
    | DoPace(key: BacKey, objectIdentifier: string, parameterId: int)
    | SelectApplet(paceSucceeded: bool)
    | ReadEfCom
    | DoBac(key: BacKey)
    | DoEacCa(keyId: Option<int>, caOid: string, publicKeyOid: string, publicKey: Bytes)

  /** The chip's answer to each call of one read.
      - open: setting the timeout and opening the card and passport services;
      - cardAccess: reading and parsing EF.CardAccess;
      - pace(k): the PACE attempt for entry k of EF.CardAccess;
      - selectApplet(p): `sendSelectApplet(p)`;
      - efCom: reading the first byte of EF.COM;
      - bac: `doBAC`;
      - dg1, dg2, sod, dg11, dg14, dg7: reading and parsing that file;
      - eacCa: `doEACCA`. */
  datatype PassportService = PassportService(
    open: Outcome<()>,
    cardAccess: Outcome<seq<SecurityInfo>>,
    pace: nat -> Outcome<()>,
    selectApplet: bool -> Outcome<()>,
    efCom: Outcome<()>,
    bac: Outcome<()>,
    dg1: Outcome<Dg1File>,
    dg2: Outcome<Dg2File>,
    sod: Outcome<SodFile>,
    dg11: Outcome<Dg11File>,
    dg14: Outcome<Dg14File>,
    eacCa: Outcome<()>,
    dg7: Outcome<Dg7File>)

  /** `ImageUtil.decodeImage`, `Base64.encodeToString(_, DEFAULT)` and the
      security providers. */
  datatype Platform = Platform(
    crypto: PassiveAuth.Crypto,
    decodeImage: (string, Bytes) -> Outcome<Bitmap>,
    base64Encode: Bytes -> string)

  datatype Dg11Data = Dg11Data(
    fullName: Option<string>,
    otherNames: seq<string>,
    personalNumber: Option<string>,
    placeOfBirth: Option<string>,
    residence: Option<string>,
    phoneNumber: Option<string>,
    profession: Option<string>)

  /** The fields of `PassportReadResult.Success`. */
  datatype PassportRecord = PassportRecord(
    dg1File: Option<Dg1File>,
    bitmap: Option<Bitmap>,
    imageBase64: Option<string>,
    passiveAuthSuccess: bool,
    chipAuthSucceeded: bool,
    dg11Data: Option<Dg11Data>,
    signatureImage: Option<Bitmap>,
    signatureImageBase64: Option<string>)

  datatype PassportReadResult = Success(record: PassportRecord) | Error(exception: Exception)

  // ---------------------------------------------------------------------
  // DG11

  /** `DG11File.getData()`: place of birth and permanent address joined with
      ", " (an empty list gives ""), the other fields copied. */
  function GetData(dg11: Dg11File): (d: Dg11Data)
    ensures d.fullName == Some(dg11.nameOfHolder)
    ensures d.otherNames == dg11.otherNames && d.personalNumber == dg11.personalNumber
    ensures d.phoneNumber == dg11.telephone && d.profession == dg11.profession
    ensures d.placeOfBirth == Some(Text.JoinToString(dg11.placeOfBirth))
    ensures d.residence == Some(Text.JoinToString(dg11.permanentAddress))
    ensures dg11.placeOfBirth == [] ==> d.placeOfBirth == Some("")
    ensures dg11.permanentAddress == [] ==> d.residence == Some("")
  {
    Dg11Data(
      Some(dg11.nameOfHolder),
      dg11.otherNames,
      dg11.personalNumber,
      Some(Text.JoinToString(dg11.placeOfBirth)),
      Some(Text.JoinToString(dg11.permanentAddress)),
      dg11.telephone,
      dg11.profession)
  }

  // ---------------------------------------------------------------------
  // Channel set-up

  datatype PaceRun = PaceRun(succeeded: bool, calls: seq<ChipCall>, aborted: bool)

  /** The `securityInfos` loop over a prefix of EF.CardAccess: every PACEInfo
      is attempted (the loop has no break) until an attempt throws, which
      leaves the loop with the flag as it was. */
  function PaceAttempts(infos: seq<SecurityInfo>, pace: nat -> Outcome<()>, key: BacKey): PaceRun
    decreases |infos|
  {
    if |infos| == 0 then PaceRun(false, [], false)
    else
      var k := |infos| - 1;
      var prev := PaceAttempts(infos[..k], pace, key);
      if prev.aborted || !infos[k].PaceInfo? then prev
      else
        var calls := prev.calls + [DoPace(key, infos[k].objectIdentifier, infos[k].parameterId)];
        if pace(k).Threw? then PaceRun(prev.succeeded, calls, true)
        else PaceRun(true, calls, false)
  }

  /** One PACE call per PACEInfo, in order. */
  function PaceCalls(infos: seq<SecurityInfo>, key: BacKey): seq<ChipCall>
    decreases |infos|
  {
    if |infos| == 0 then []
    else
      var k := |infos| - 1;
      PaceCalls(infos[..k], key)
      + (if infos[k].PaceInfo? then [DoPace(key, infos[k].objectIdentifier, infos[k].parameterId)] else [])
  }

  predicate IsFirstPace(infos: seq<SecurityInfo>, k: int) {
    0 <= k < |infos| && infos[k].PaceInfo? && forall j :: 0 <= j < k ==> !infos[j].PaceInfo?
  }

  /** The index of the first PACEInfo, if any. */
  function FirstPace(infos: seq<SecurityInfo>): (r: Option<nat>)
    ensures r.Some? ==> IsFirstPace(infos, r.value)
    ensures r.None? ==> forall j :: 0 <= j < |infos| ==> !infos[j].PaceInfo?
    decreases |infos|
  {
    if |infos| == 0 then None
    else
      var k := |infos| - 1;
      match FirstPace(infos[..k])
      case Some(f) => Some(f)
      case None => if infos[k].PaceInfo? then Some(k) else None
  }

  /** The loop aborts exactly when some PACE attempt throws. */
  lemma {:induction false} PaceAbortedIff(infos: seq<SecurityInfo>, pace: nat -> Outcome<()>, key: BacKey)
    ensures PaceAttempts(infos, pace, key).aborted <==> exists k :: 0 <= k < |infos| && infos[k].PaceInfo? && pace(k).Threw?
    decreases |infos|
  {
    if |infos| > 0 {
      var k := |infos| - 1;
      var pre := infos[..k];
      PaceAbortedIff(pre, pace, key);
      if exists j :: 0 <= j < k && pre[j].PaceInfo? && pace(j).Threw? {
        var j :| 0 <= j < k && pre[j].PaceInfo? && pace(j).Threw?;
        assert infos[j] == pre[j];
      }
      if exists j :: 0 <= j < |infos| && infos[j].PaceInfo? && pace(j).Threw? {
        var j :| 0 <= j < |infos| && infos[j].PaceInfo? && pace(j).Threw?;
        if j < k {
          assert pre[j] == infos[j];
        }
      }
    }
  }

  /** The flag: PACE succeeded exactly when the first PACEInfo's attempt
      returned (a throw ends the loop, so no later entry is reached after a
      failed first attempt). */
  lemma {:induction false} PaceSucceededIff(infos: seq<SecurityInfo>, pace: nat -> Outcome<()>, key: BacKey)
    ensures PaceAttempts(infos, pace, key).succeeded <==> FirstPace(infos).Some? && pace(FirstPace(infos).value).Returned?
    decreases |infos|
  {
    if |infos| > 0 {
      var k := |infos| - 1;
      var pre := infos[..k];
      PaceSucceededIff(pre, pace, key);
      PaceAbortedIff(pre, pace, key);
      var f := FirstPace(pre);
      if PaceAttempts(pre, pace, key).aborted {
        var j :| 0 <= j < k && pre[j].PaceInfo? && pace(j).Threw?;
        assert f.Some?;
      } else if f.Some? {
        assert !pace(f.value).Threw?;
      }
    }
  }

  /** The calls made are always a prefix of one call per PACEInfo, and all of
      them when no attempt throws. */
  lemma {:induction false} PaceAttemptsCalls(infos: seq<SecurityInfo>, pace: nat -> Outcome<()>, key: BacKey)
    ensures PaceAttempts(infos, pace, key).calls <= PaceCalls(infos, key)
    ensures (forall k :: 0 <= k < |infos| && infos[k].PaceInfo? ==> pace(k).Returned?)
            ==> PaceAttempts(infos, pace, key).calls == PaceCalls(infos, key)
    ensures !PaceAttempts(infos, pace, key).aborted ==> PaceAttempts(infos, pace, key).calls == PaceCalls(infos, key)
    decreases |infos|
  {
    if |infos| > 0 {
      var k := |infos| - 1;
      PaceAttemptsCalls(infos[..k], pace, key);
      PaceAbortedIff(infos[..k], pace, key);
    }
  }

  datatype ChannelRun = ChannelRun(outcome: Outcome<()>, paceSucceeded: bool, calls: seq<ChipCall>)

  function PaceStage(svc: PassportService, key: BacKey): PaceRun {
    match svc.cardAccess
    case Threw(_) => PaceRun(false, [], false)
    case Returned(infos) => PaceAttempts(infos, svc.pace, key)
  }

  /** Lines 78-104: PACE attempts (a failing EF.CardAccess is ignored), the
      applet selection, then, without PACE, EF.COM and BAC only if EF.COM
      throws. */
  function ChannelSetup(svc: PassportService, key: BacKey): ChannelRun {
    var pace := PaceStage(svc, key);
    var calls := pace.calls + [SelectApplet(pace.succeeded)];
    match svc.selectApplet(pace.succeeded)
    case Threw(e) => ChannelRun(Threw(e), pace.succeeded, calls)
    case Returned(_) =>
      if pace.succeeded then ChannelRun(Returned(()), true, calls)
      else if svc.efCom.Returned? then ChannelRun(Returned(()), false, calls + [ReadEfCom])
      else ChannelRun(svc.bac, false, calls + [ReadEfCom, DoBac(key)])
  }

  method SetUpChannel(svc: PassportService, key: BacKey) returns (run: ChannelRun)
    ensures run == ChannelSetup(svc, key)
    ensures run.outcome.Returned? <==>
              && svc.selectApplet(run.paceSucceeded).Returned?
              && (run.paceSucceeded || svc.efCom.Returned? || svc.bac.Returned?)
    ensures run.paceSucceeded == PaceStage(svc, key).succeeded
  {
    var paceSucceeded := false;
    var calls: seq<ChipCall> := [];
    match svc.cardAccess {
      case Threw(_) =>
      case Returned(securityInfos) =>
        var k := 0;
        while k < |securityInfos|
          invariant 0 <= k <= |securityInfos|
          invariant PaceAttempts(securityInfos[..k], svc.pace, key) == PaceRun(paceSucceeded, calls, false)
        {
          assert securityInfos[..k + 1][..k] == securityInfos[..k];
          var securityInfo := securityInfos[k];
          if securityInfo.PaceInfo? {
            calls := calls + [DoPace(key, securityInfo.objectIdentifier, securityInfo.parameterId)];
            if svc.pace(k).Threw? {
              // the exception leaves the loop; later entries cannot change the run
              assert PaceAttempts(securityInfos[..k + 1], svc.pace, key) == PaceRun(paceSucceeded, calls, true);
              AbortedRunIsFinal(securityInfos, svc.pace, key, k + 1);
              break;
            }
            paceSucceeded := true;
          }
          k := k + 1;
        }
        assert k == |securityInfos| ==> securityInfos[..k] == securityInfos;
    }

    calls := calls + [SelectApplet(paceSucceeded)];
    var selected := svc.selectApplet(paceSucceeded);
    if selected.Threw? {
      return ChannelRun(Threw(selected.exception), paceSucceeded, calls);
    }
    if !paceSucceeded {
      calls := calls + [ReadEfCom];
      if svc.efCom.Threw? {
        calls := calls + [DoBac(key)];
        return ChannelRun(svc.bac, false, calls);
      }
    }
    return ChannelRun(Returned(()), paceSucceeded, calls);
  }

  lemma {:induction false} AbortedRunIsFinal(infos: seq<SecurityInfo>, pace: nat -> Outcome<()>, key: BacKey, i: nat)
    requires i <= |infos|
    requires PaceAttempts(infos[..i], pace, key).aborted
    ensures PaceAttempts(infos, pace, key) == PaceAttempts(infos[..i], pace, key)
    decreases |infos| - i
  {
    if i < |infos| {
      assert infos[..i + 1][..i] == infos[..i];
      AbortedRunIsFinal(infos, pace, key, i + 1);
    } else {
      assert infos[..i] == infos;
    }
  }

  /** BAC runs only as the fallback: without PACE, after a successful applet
      selection, when reading EF.COM throws; and then with the caller's key. */
  lemma BacOnlyAsFallback(svc: PassportService, key: BacKey, k: BacKey)
    ensures DoBac(k) in ChannelSetup(svc, key).calls <==>
            k == key && !PaceStage(svc, key).succeeded
            && svc.selectApplet(false).Returned? && svc.efCom.Threw?
  {
    PaceStageCallsArePace(svc, key);
  }

  lemma PaceStageCallsArePace(svc: PassportService, key: BacKey)
    ensures forall c :: c in PaceStage(svc, key).calls ==> c.DoPace? && c.key == key
  {
    if svc.cardAccess.Returned? {
      var infos := svc.cardAccess.value;
      PaceAttemptsCalls(infos, svc.pace, key);
      PaceCallsArePace(infos, key);
      var calls := PaceAttempts(infos, svc.pace, key).calls;
      forall c | c in calls
        ensures c.DoPace? && c.key == key
      {
        var i :| 0 <= i < |calls| && calls[i] == c;
        assert c == PaceCalls(infos, key)[i];
      }
    }
  }

  lemma {:induction false} PaceCallsArePace(infos: seq<SecurityInfo>, key: BacKey)
    ensures forall c :: c in PaceCalls(infos, key) ==> c.DoPace? && c.key == key
    decreases |infos|
  {
    if |infos| > 0 {
      PaceCallsArePace(infos[..|infos| - 1], key);
    }
  }

  // ---------------------------------------------------------------------
  // Chip authentication

  /** The index of the first ChipAuthenticationPublicKeyInfo, if any. */
  function FirstChipAuthInfo(infos: seq<SecurityInfo>): (r: Option<nat>)
    ensures r.Some? ==> r.value < |infos| && infos[r.value].ChipAuthenticationPublicKeyInfo?
    ensures r.Some? ==> forall j :: 0 <= j < r.value ==> !infos[j].ChipAuthenticationPublicKeyInfo?
    ensures r.None? ==> forall j :: 0 <= j < |infos| ==> !infos[j].ChipAuthenticationPublicKeyInfo?
  {
    if |infos| == 0 then None
    else if infos[0].ChipAuthenticationPublicKeyInfo? then Some(0)
    else
      match FirstChipAuthInfo(infos[1..])
      case None => None
      case Some(k) => Some(k + 1)
  }

  /** `doChipAuth`: the outcome and the `doEACCA` call it makes, if any. */
  function ChipAuth(svc: PassportService): (bool, seq<ChipCall>) {
    match svc.dg14
    case Threw(_) => (false, [])
    case Returned(dg14) =>
      match FirstChipAuthInfo(dg14.securityInfos)
      case None => (false, [])
      case Some(k) =>
        var info := dg14.securityInfos[k];
        (svc.eacCa.Returned?, [DoEacCa(info.keyId, ID_CA_ECDH_AES_CBC_CMAC_256, info.objectIdentifier, info.subjectPublicKey)])
  }

  /** `doChipAuth`: true only when DG14 reads and parses and `doEACCA`
      returns on the first ChipAuthenticationPublicKeyInfo; at most one
      `doEACCA` call, always with id-CA-ECDH-AES-CBC-CMAC-256. */
  method DoChipAuth(svc: PassportService) returns (succeeded: bool, calls: seq<ChipCall>)
    ensures (succeeded, calls) == ChipAuth(svc)
    ensures succeeded <==> svc.dg14.Returned? && FirstChipAuthInfo(svc.dg14.value.securityInfos).Some? && svc.eacCa.Returned?
    ensures |calls| <= 1
    ensures forall c :: c in calls ==> c.DoEacCa? && c.caOid == ID_CA_ECDH_AES_CBC_CMAC_256
    ensures |calls| == 1 ==> calls[0].publicKey == svc.dg14.value.securityInfos[FirstChipAuthInfo(svc.dg14.value.securityInfos).value].subjectPublicKey
  {
    if svc.dg14.Threw? {
      return false, [];
    }
    var securityInfos := svc.dg14.value.securityInfos;
    var k := 0;
    while k < |securityInfos|
      invariant 0 <= k <= |securityInfos|
      invariant forall j :: 0 <= j < k ==> !securityInfos[j].ChipAuthenticationPublicKeyInfo?
    {
      var securityInfo := securityInfos[k];
      if securityInfo.ChipAuthenticationPublicKeyInfo? {
        calls := [DoEacCa(securityInfo.keyId, ID_CA_ECDH_AES_CBC_CMAC_256, securityInfo.objectIdentifier, securityInfo.subjectPublicKey)];
        return svc.eacCa.Returned?, calls;
      }
      k := k + 1;
    }
    return false, [];
  }

  // ---------------------------------------------------------------------
  // Images

  /** `faceInfos.flatMap { it.faceImageInfos }`. */
  function FaceImages(faceInfos: seq<FaceInfo>): seq<ImageInfo> {
    if |faceInfos| == 0 then [] else faceInfos[0].faceImageInfos + FaceImages(faceInfos[1..])
  }

  /** `ByteArray(imageLength)` filled by `readFully(buffer, 0, imageLength)`. */
  function ImageBytes(info: ImageInfo): Outcome<Bytes> {
    if info.imageLength < 0 then Threw(Exception(NegativeArraySizeException, Some(Text.IntString(info.imageLength))))
    else if info.imageLength > |info.imageStream| then Threw(Exception(IOException, None))
    else Returned(info.imageStream[..info.imageLength])
  }

  /** The buffer holds exactly `imageLength` bytes of the image stream; a
      negative length or a stream that ends early throws
      (NegativeArraySizeException, EOFException). */
  method ReadImageBytes(info: ImageInfo) returns (r: Outcome<Bytes>)
    ensures r == ImageBytes(info)
    ensures r.Returned? <==> 0 <= info.imageLength <= |info.imageStream|
    ensures r.Returned? ==> |r.value| == info.imageLength && r.value == info.imageStream[..info.imageLength]
  {
    var imageLength := info.imageLength;
    if imageLength < 0 {
      return Threw(Exception(NegativeArraySizeException, Some(Text.IntString(imageLength))));
    }
    var buffer := new bv8[imageLength];
    var n := 0;
    while n < imageLength
      invariant 0 <= n <= imageLength && n <= |info.imageStream|
      invariant buffer[..n] == info.imageStream[..n]
    {
      if n == |info.imageStream| {
        return Threw(Exception(IOException, None));
      }
      buffer[n] := info.imageStream[n];
      n := n + 1;
    }
    assert buffer[..] == buffer[..n];
    return Returned(buffer[..]);
  }

  /** Read, decode and Base64-encode one image. */
  function DecodedImage(info: ImageInfo, platform: Platform): Outcome<(Bitmap, string)> {
    match ImageBytes(info)
    case Threw(e) => Threw(e)
    case Returned(buffer) =>
      match platform.decodeImage(info.mimeType, buffer)
      case Threw(e) => Threw(e)
      case Returned(bitmap) => Returned((bitmap, platform.base64Encode(buffer)))
  }

  method ProcessImage(info: ImageInfo, platform: Platform) returns (r: Outcome<(Bitmap, string)>)
    ensures r == DecodedImage(info, platform)
  {
    var buffer := ReadImageBytes(info);
    if buffer.Threw? {
      return Threw(buffer.exception);
    }
    var bitmap := platform.decodeImage(info.mimeType, buffer.value);
    if bitmap.Threw? {
      return Threw(bitmap.exception);
    }
    return Returned((bitmap.value, platform.base64Encode(buffer.value)));
  }

  /** Lines 122-136: the first face image, if DG2 holds any. */
  function FaceImage(dg2: Dg2File, platform: Platform): Outcome<(Option<Bitmap>, Option<string>)> {
    var images := FaceImages(dg2.faceInfos);
    if |images| == 0 then Returned((None, None))
    else
      match DecodedImage(images[0], platform)
      case Threw(e) => Threw(e)
      case Returned((bitmap, encoded)) => Returned((Some(bitmap), Some(encoded)))
  }

  /** Lines 138-159: the first DG7 image; any failure leaves both fields null. */
  function SignatureImage(svc: PassportService, platform: Platform): (Option<Bitmap>, Option<string>) {
    match svc.dg7
    case Threw(_) => (None, None)
    case Returned(dg7) =>
      if |dg7.images| == 0 then (None, None)
      else
        match DecodedImage(dg7.images[0], platform)
        case Threw(_) => (None, None)
        case Returned((bitmap, encoded)) => (Some(bitmap), Some(encoded))
  }

  // ---------------------------------------------------------------------
  // The read

  datatype ReadRun = ReadRun(result: PassportReadResult, calls: seq<ChipCall>)

  /** `readPassport`: the first exception of a mandatory step becomes the
      Error; otherwise the record. Passive authentication receives no DG14
      bytes: the local `dg14Encoded` is never assigned. */
  function ReadPassportSpec(svc: PassportService, platform: Platform, key: BacKey): ReadRun {
    if svc.open.Threw? then ReadRun(Error(svc.open.exception), [])
    else
      var channel := ChannelSetup(svc, key);
      if channel.outcome.Threw? then ReadRun(Error(channel.outcome.exception), channel.calls)
      else if svc.dg1.Threw? then ReadRun(Error(svc.dg1.exception), channel.calls)
      else if svc.dg2.Threw? then ReadRun(Error(svc.dg2.exception), channel.calls)
      else if svc.sod.Threw? then ReadRun(Error(svc.sod.exception), channel.calls)
      else if svc.dg11.Threw? then ReadRun(Error(svc.dg11.exception), channel.calls)
      else
        var (chipAuthSucceeded, caCalls) := ChipAuth(svc);
        var calls := channel.calls + caCalls;
        var passiveAuthSuccess := PassiveAuth.PassiveAuthHolds(
          platform.crypto, Some(svc.sod.value), Some(svc.dg1.value), Some(svc.dg2.value), None, chipAuthSucceeded);
        match FaceImage(svc.dg2.value, platform)
        case Threw(e) => ReadRun(Error(e), calls)
        case Returned((bitmap, imageBase64)) =>
          var (signatureImage, signatureImageBase64) := SignatureImage(svc, platform);
          ReadRun(Success(PassportRecord(
            Some(svc.dg1.value), bitmap, imageBase64, passiveAuthSuccess, chipAuthSucceeded,
            Some(GetData(svc.dg11.value)), signatureImage, signatureImageBase64)), calls)
  }

  method ReadPassport(svc: PassportService, platform: Platform, bacKey: BacKey)
    returns (result: PassportReadResult, calls: seq<ChipCall>)
    ensures ReadRun(result, calls) == ReadPassportSpec(svc, platform, bacKey)
  {
    var dg1File: Option<Dg1File> := None;
    var dg2File: Option<Dg2File> := None;
    var dg11File: Option<Dg11File> := None;
    var sodFile: Option<SodFile> := None;
    var imageBase64: Option<string> := None;
    var bitmap: Option<Bitmap> := None;
    var chipAuthSucceeded := false;
    var passiveAuthSuccess := false;
    var dg14Encoded: Option<Bytes> := None;
    var signatureImage: Option<Bitmap> := None;
    var signatureImageBase64: Option<string> := None;
    calls := [];

    if svc.open.Threw? {
      return Error(svc.open.exception), calls;
    }
    var channel := SetUpChannel(svc, bacKey);
    calls := channel.calls;
    if channel.outcome.Threw? {
      return Error(channel.outcome.exception), calls;
    }

    if svc.dg1.Threw? {
      return Error(svc.dg1.exception), calls;
    }
    dg1File := Some(svc.dg1.value);
    if svc.dg2.Threw? {
      return Error(svc.dg2.exception), calls;
    }
    dg2File := Some(svc.dg2.value);
    if svc.sod.Threw? {
      return Error(svc.sod.exception), calls;
    }
    sodFile := Some(svc.sod.value);
    if svc.dg11.Threw? {
      return Error(svc.dg11.exception), calls;
    }
    dg11File := Some(svc.dg11.value);

    var caCalls;
    chipAuthSucceeded, caCalls := DoChipAuth(svc);
    calls := calls + caCalls;

    passiveAuthSuccess := PassiveAuth.DoPassiveAuth(platform.crypto, sodFile, dg1File, dg2File, dg14Encoded, chipAuthSucceeded);

    var allFaceImageInfo := FaceImages(dg2File.value.faceInfos);
    if |allFaceImageInfo| > 0 {
      var face := ProcessImage(allFaceImageInfo[0], platform);
      if face.Threw? {
        return Error(face.exception), calls;
      }
      bitmap := Some(face.value.0);
      imageBase64 := Some(face.value.1);
    }

    if svc.dg7.Returned? && |svc.dg7.value.images| > 0 {
      var signature := ProcessImage(svc.dg7.value.images[0], platform);
      if signature.Returned? {
        signatureImage := Some(signature.value.0);
        signatureImageBase64 := Some(signature.value.1);
      }
    }

    result := Success(PassportRecord(
      dg1File, bitmap, imageBase64, passiveAuthSuccess, chipAuthSucceeded,
      Some(GetData(dg11File.value)), signatureImage, signatureImageBase64));
  }

  // ---------------------------------------------------------------------
  // Properties of the read

  /** A failure opening the service, setting up the channel (including BAC)
      or reading DG1, DG2, SOD or DG11 yields Error, never Success. */
  lemma MandatoryFailuresAbort(svc: PassportService, platform: Platform, key: BacKey)
    requires || svc.open.Threw? || ChannelSetup(svc, key).outcome.Threw?
             || svc.dg1.Threw? || svc.dg2.Threw? || svc.sod.Threw? || svc.dg11.Threw?
    ensures ReadPassportSpec(svc, platform, key).result.Error?
  {
  }

  /** A failing BAC is fatal. */
  lemma BacFailureAborts(svc: PassportService, platform: Platform, key: BacKey)
    requires svc.open.Returned? && DoBac(key) in ChannelSetup(svc, key).calls && svc.bac.Threw?
    ensures ReadPassportSpec(svc, platform, key).result == Error(svc.bac.exception)
  {
    BacOnlyAsFallback(svc, key, key);
  }

  /** DG7 is optional: whatever DG7 does, the read succeeds or fails alike
      and the record differs at most in the two signature fields; a failing
      DG7 leaves them null. */
  lemma SignatureImageOptional(svc: PassportService, platform: Platform, key: BacKey, dg7: Outcome<Dg7File>)
    ensures var r1 := ReadPassportSpec(svc, platform, key).result;
            var r2 := ReadPassportSpec(svc.(dg7 := dg7), platform, key).result;
            && (r1.Success? <==> r2.Success?)
            && (r1.Success? ==> r1.record.(signatureImage := None, signatureImageBase64 := None)
                                == r2.record.(signatureImage := None, signatureImageBase64 := None))
            && (r2.Success? ==>
                  (r2.record.signatureImageBase64.Some? <==>
                     dg7.Returned? && |dg7.value.images| > 0 && DecodedImage(dg7.value.images[0], platform).Returned?))
            && (r2.Success? && dg7.Threw? ==> r2.record.signatureImage.None? && r2.record.signatureImageBase64.None?)
  {
    var svc2 := svc.(dg7 := dg7);
    assert ChannelSetup(svc, key) == ChannelSetup(svc2, key);
    assert ChipAuth(svc) == ChipAuth(svc2);
  }

  /** The signature is the first DG7 image: both fields are set together,
      exactly when DG7 reads, holds an image and that image reads and
      decodes; the Base64 text encodes exactly `imageLength` bytes of its
      stream. An empty DG7, a negative length, a short stream or a decoder
      failure leaves both null. */
  lemma SignatureIsFirstDg7Image(svc: PassportService, platform: Platform, key: BacKey)
    requires ReadPassportSpec(svc, platform, key).result.Success?
    ensures var rec := ReadPassportSpec(svc, platform, key).result.record;
            && (rec.signatureImage.Some? <==> rec.signatureImageBase64.Some?)
            && (rec.signatureImageBase64.Some? <==>
                  svc.dg7.Returned? && |svc.dg7.value.images| > 0 && DecodedImage(svc.dg7.value.images[0], platform).Returned?)
    ensures var rec := ReadPassportSpec(svc, platform, key).result.record;
            rec.signatureImageBase64.Some? ==>
              var info := svc.dg7.value.images[0];
              && 0 <= info.imageLength <= |info.imageStream|
              && rec.signatureImage == Some(platform.decodeImage(info.mimeType, info.imageStream[..info.imageLength]).value)
              && rec.signatureImageBase64 == Some(platform.base64Encode(info.imageStream[..info.imageLength]))
  {
  }

  /** A read succeeds exactly when no mandatory step throws (DG7, chip and
      passive authentication never make it fail), and the record holds DG1,
      the DG11 data of `getData()`, the chip-authentication flag and the
      passive-authentication verdict computed without DG14 bytes. */
  lemma ReadSucceedsIff(svc: PassportService, platform: Platform, key: BacKey)
    ensures ReadPassportSpec(svc, platform, key).result.Success? <==>
              && svc.open.Returned? && ChannelSetup(svc, key).outcome.Returned?
              && svc.dg1.Returned? && svc.dg2.Returned? && svc.sod.Returned? && svc.dg11.Returned?
              && FaceImage(svc.dg2.value, platform).Returned?
    ensures var r := ReadPassportSpec(svc, platform, key).result;
            r.Success? ==>
              && r.record.dg1File == Some(svc.dg1.value)
              && r.record.dg11Data == Some(GetData(svc.dg11.value))
              && r.record.chipAuthSucceeded == ChipAuth(svc).0
              && r.record.passiveAuthSuccess == PassiveAuth.PassiveAuthHolds(
                   platform.crypto, Some(svc.sod.value), Some(svc.dg1.value), Some(svc.dg2.value), None, ChipAuth(svc).0)
  {
  }

  /** The face image is the first image of the flattened DG2 face records:
      `imageBase64` is null exactly when there is none, and otherwise encodes
      exactly `imageLength` bytes of its stream. */
  lemma FaceImageIsFirstImage(svc: PassportService, platform: Platform, key: BacKey)
    requires ReadPassportSpec(svc, platform, key).result.Success?
    ensures var rec := ReadPassportSpec(svc, platform, key).result.record;
            var images := FaceImages(svc.dg2.value.faceInfos);
            && (rec.imageBase64.None? <==> images == [])
            && (rec.imageBase64.Some? ==>
                  && 0 <= images[0].imageLength <= |images[0].imageStream|
                  && rec.imageBase64 == Some(platform.base64Encode(images[0].imageStream[..images[0].imageLength])))
  {
  }

  /** Passive authentication is run on the SOD, DG1 and DG2 just read and
      never receives DG14 bytes; so after successful chip authentication it
      can pass only if the SOD's DG14 hash is the empty array. */
  lemma PassiveAuthWithoutDg14(svc: PassportService, platform: Platform, key: BacKey)
    requires ReadPassportSpec(svc, platform, key).result.Success?
    ensures var rec := ReadPassportSpec(svc, platform, key).result.record;
            && rec.passiveAuthSuccess == PassiveAuth.PassiveAuthHolds(
                 platform.crypto, Some(svc.sod.value), Some(svc.dg1.value), Some(svc.dg2.value), None, rec.chipAuthSucceeded)
            && (rec.chipAuthSucceeded && rec.passiveAuthSuccess ==>
                  14 in svc.sod.value.dataGroupHashes && svc.sod.value.dataGroupHashes[14] == [])
  {
  }

  /** A read makes at most one `doEACCA` call, and only with
      id-CA-ECDH-AES-CBC-CMAC-256; `doBAC` at most once. */
  lemma AtMostOneChipAuthCall(svc: PassportService, platform: Platform, key: BacKey)
    ensures var calls := ReadPassportSpec(svc, platform, key).calls;
            && (forall i, j :: 0 <= i < j < |calls| && calls[i].DoEacCa? ==> !calls[j].DoEacCa?)
            && (forall i :: 0 <= i < |calls| && calls[i].DoEacCa? ==> calls[i].caOid == ID_CA_ECDH_AES_CBC_CMAC_256)
            && (forall i, j :: 0 <= i < j < |calls| && calls[i].DoBac? ==> !calls[j].DoBac?)
  {
    PaceStageCallsArePace(svc, key);
    var pace := PaceStage(svc, key);
    var channel := ChannelSetup(svc, key);
    assert forall i :: 0 <= i < |pace.calls| ==> pace.calls[i] in pace.calls;
    assert forall i :: 0 <= i < |channel.calls| ==> !channel.calls[i].DoEacCa?;
    assert forall i :: 0 <= i < |channel.calls| - 1 ==> !channel.calls[i].DoBac?;
  }

  /** Every advertised PACEInfo is attempted, in order, when no attempt
      throws: the loop does not stop at the first success. */
  lemma PaceForEveryInfo(svc: PassportService, platform: Platform, key: BacKey)
    requires svc.open.Returned? && svc.cardAccess.Returned?
    requires var infos := svc.cardAccess.value;
             forall k :: 0 <= k < |infos| && infos[k].PaceInfo? ==> svc.pace(k).Returned?
    ensures PaceCalls(svc.cardAccess.value, key) <= ReadPassportSpec(svc, platform, key).calls
  {
    PaceAttemptsCalls(svc.cardAccess.value, svc.pace, key);
  }

  // ---------------------------------------------------------------------
  // The DG14 argument of passive authentication

  /** A document as issued: the SOD's DG1, DG2 and DG14 hashes are the
      digests of the files read, the trust chain holds and the signature
      verifies. */
  predicate GenuineDocument(svc: PassportService, crypto: PassiveAuth.Crypto) {
    && svc.sod.Returned? && svc.dg1.Returned? && svc.dg2.Returned? && svc.dg14.Returned?
    && var sod := svc.sod.value;
       && crypto.digestAvailable(sod.digestAlgorithm)
       && PassiveAuth.HashMatches(sod.dataGroupHashes, 1, crypto.digest(sod.digestAlgorithm, svc.dg1.value.encoded))
       && PassiveAuth.HashMatches(sod.dataGroupHashes, 2, crypto.digest(sod.digestAlgorithm, svc.dg2.value.encoded))
       && PassiveAuth.HashMatches(sod.dataGroupHashes, 14, crypto.digest(sod.digestAlgorithm, svc.dg14.value.encoded))
       && PassiveAuth.TrustChainValid(crypto, sod)
       && PassiveAuth.SignatureVerifies(crypto, sod)
  }

  /** As written: a genuine document whose chip authentication succeeds and
      whose DG14 digest is not empty gets `passiveAuthSuccess == false`. */
  lemma GenuineChipAuthenticatedDocumentFails(svc: PassportService, platform: Platform, key: BacKey)
    requires GenuineDocument(svc, platform.crypto)
    requires ReadPassportSpec(svc, platform, key).result.Success?
    requires ReadPassportSpec(svc, platform, key).result.record.chipAuthSucceeded
    requires platform.crypto.digest(svc.sod.value.digestAlgorithm, svc.dg14.value.encoded) != []
    ensures !ReadPassportSpec(svc, platform, key).result.record.passiveAuthSuccess
  {
    PassiveAuthWithoutDg14(svc, platform, key);
  }

  /** The evidently intended DG14 argument: the DG14 bytes chip
      authentication read, when it succeeded. */
  function Dg14ForPassiveAuth(svc: PassportService, chipAuthSucceeded: bool): (r: Option<Bytes>)
    ensures r.Some? <==> chipAuthSucceeded && svc.dg14.Returned?
    ensures r.Some? ==> r.value == svc.dg14.value.encoded
  {
    if chipAuthSucceeded && svc.dg14.Returned? then Some(svc.dg14.value.encoded) else None
  }

  /** With the intended argument a genuine document passes, with or without
      chip authentication, and a DG14 whose digest differs from the signed
      one fails after chip authentication. */
  lemma IntendedDg14CheckAcceptsGenuine(svc: PassportService, crypto: PassiveAuth.Crypto)
    requires GenuineDocument(svc, crypto)
    ensures var chipAuthSucceeded := ChipAuth(svc).0;
            PassiveAuth.PassiveAuthHolds(crypto, Some(svc.sod.value), Some(svc.dg1.value), Some(svc.dg2.value),
                                         Dg14ForPassiveAuth(svc, chipAuthSucceeded), chipAuthSucceeded)
  {
  }

  lemma IntendedDg14CheckRejectsAltered(svc: PassportService, crypto: PassiveAuth.Crypto)
    requires svc.sod.Returned? && svc.dg1.Returned? && svc.dg2.Returned?
    requires ChipAuth(svc).0
    requires !PassiveAuth.HashMatches(svc.sod.value.dataGroupHashes, 14, crypto.digest(svc.sod.value.digestAlgorithm, svc.dg14.value.encoded))
    ensures !PassiveAuth.PassiveAuthHolds(crypto, Some(svc.sod.value), Some(svc.dg1.value), Some(svc.dg2.value),
                                          Dg14ForPassiveAuth(svc, true), true)
  {
  }
}
