/** The Flutter plugin `NfcPassportReaderPlugin`: the `startNFCReading`
    method call, NFC foreground dispatch, the tag intent that starts a read,
    and the reply built from the read's result.

    The Flutter rule the plugin must keep is that a method call's `Result`
    is answered at most once. `Plugin.Valid` states it over the log of
    replies; every method preserves it. */
module NfcPassportReaderPlugin {
  import opened Outcomes
  import opened Lds
  import Text
  import DateFormat
  import NfcReader

  const ERROR_NFC_NOT_AVAILABLE := "NFC_NOT_AVAILABLE"
  const ERROR_NFC_DISABLED := "NFC_DISABLED"
  const ERROR_INVALID_ARGS := "INVALID_ARGS"
  const ERROR_READ_FAILED := "READ_FAILED"
  const ERROR_BAC_KEYS := "BAC_KEYS_ERROR"
  const ERROR_TAG_LOST := "TAG_LOST"

  /** `NfcAdapter.ACTION_TECH_DISCOVERED`. */
  const ACTION_TECH_DISCOVERED := "android.nfc.action.TECH_DISCOVERED"
  const ISO_DEP := "android.nfc.tech.IsoDep"

  /** The values the reply map holds. */
  datatype Value = Str(s: string) | Bool(b: bool) | StrList(items: seq<string>)

  /** What a method call's `Result` receives. */
  datatype ReplyBody =
    | SuccessReply(data: map<string, Value>)
    | ErrorReply(code: string, message: string)
    | NotImplemented

  /** The reply to method call number `call`. */
  datatype Reply = Reply(call: nat, body: ReplyBody)

  /** `NfcAdapter.getDefaultAdapter(activity)`: none, or one that is enabled or not. */
  datatype Adapter = NoAdapter | Adapter(enabled: bool)

  datatype Tag = Tag(techList: seq<string>)

  /** The action of an intent and its `EXTRA_TAG`. */
  datatype Intent = Intent(action: Option<string>, tag: Option<Tag>)

  predicate IsNullOrEmpty(s: Option<string>) {
    s.None? || s.value == ""
  }

  function Argument(args: map<string, string>, key: string): Option<string> {
    if key in args then Some(args[key]) else None
  }

  // ---------------------------------------------------------------------
  // Decisions

  /** The reply `startNFCReading` sends for an adapter, if any: none when NFC
      is there and enabled (foreground dispatch is enabled instead). */
  function StartReply(adapter: Adapter): (r: Option<ReplyBody>)
    ensures r.None? <==> adapter == Adapter(true)
    ensures r.Some? ==> r.value.ErrorReply?
    ensures adapter.NoAdapter? ==> r == Some(ErrorReply(ERROR_NFC_NOT_AVAILABLE, "NFC is not available on this device"))
    ensures adapter == Adapter(false) ==> r == Some(ErrorReply(ERROR_NFC_DISABLED, "NFC is disabled. Please enable NFC in your device settings"))
  {
    match adapter
    case NoAdapter => Some(ErrorReply(ERROR_NFC_NOT_AVAILABLE, "NFC is not available on this device"))
    case Adapter(enabled) =>
      if !enabled then Some(ErrorReply(ERROR_NFC_DISABLED, "NFC is disabled. Please enable NFC in your device settings"))
      else None
  }

  predicate IsIsoDepDiscovery(intent: Intent) {
    && intent.action == Some(ACTION_TECH_DISCOVERED)
    && intent.tag.Some?
    && ISO_DEP in intent.tag.value.techList
  }

  datatype IntentDecision =
    | Ignore
    | Launch(key: BacKey)
    | Reject(code: string, message: string)

  /** `onNewIntent`: only an IsoDep tag discovery is handled; it launches a
      read with the stored document number and both converted dates exactly
      when all three are present and JMRTD accepts the key
      (`bacKeyAccepted`); otherwise it reports INVALID_ARGS or
      BAC_KEYS_ERROR. */
  function DecideOnIntent(
    intent: Intent,
    passportNumber: Option<string>, birthDate: Option<string>, expirationDate: Option<string>,
    lenient: string -> Option<DateFormat.Date>, bacKeyAccepted: BacKey -> bool): (d: IntentDecision)
    ensures d.Ignore? <==> !IsIsoDepDiscovery(intent)
    ensures d.Launch? <==>
              && IsIsoDepDiscovery(intent) && !IsNullOrEmpty(passportNumber)
              && DateFormat.ConvertDate(birthDate, lenient).Some?
              && DateFormat.ConvertDate(expirationDate, lenient).Some?
              && bacKeyAccepted(BacKey(passportNumber.value,
                                       DateFormat.ConvertDate(birthDate, lenient).value,
                                       DateFormat.ConvertDate(expirationDate, lenient).value))
    ensures d.Launch? ==> d.key == BacKey(passportNumber.value,
                                          DateFormat.ConvertDate(birthDate, lenient).value,
                                          DateFormat.ConvertDate(expirationDate, lenient).value)
    ensures d.Launch? ==> |d.key.dateOfBirth| == 6 && |d.key.dateOfExpiry| == 6
    ensures d.Reject? ==> d.code == ERROR_INVALID_ARGS || d.code == ERROR_BAC_KEYS
    ensures d.Reject? ==>
              (d.code == ERROR_BAC_KEYS <==>
                 && !IsNullOrEmpty(passportNumber)
                 && DateFormat.ConvertDate(birthDate, lenient).Some?
                 && DateFormat.ConvertDate(expirationDate, lenient).Some?)
    ensures d.Reject? ==>
              d.message == (if d.code == ERROR_BAC_KEYS then "Invalid passport data provided" else "Missing or invalid passport data")
    ensures birthDate.None? && IsIsoDepDiscovery(intent) ==> d == Reject(ERROR_INVALID_ARGS, "Missing or invalid passport data")
  {
    if !IsIsoDepDiscovery(intent) then Ignore
    else
      var convertedBirthDate := DateFormat.ConvertDate(birthDate, lenient);
      var convertedExpirationDate := DateFormat.ConvertDate(expirationDate, lenient);
      if !IsNullOrEmpty(passportNumber) && !IsNullOrEmpty(convertedBirthDate) && !IsNullOrEmpty(convertedExpirationDate) then
        var bacKey := BacKey(passportNumber.value, convertedBirthDate.value, convertedExpirationDate.value);
        if bacKeyAccepted(bacKey) then Launch(bacKey)
        else Reject(ERROR_BAC_KEYS, "Invalid passport data provided")
      else Reject(ERROR_INVALID_ARGS, "Missing or invalid passport data")
  }

  /** The catch of the read coroutine: a lost connection is TAG_LOST, any
      other exception READ_FAILED with its message. */
  function CaughtError(e: Exception): (r: ReplyBody)
    ensures r.ErrorReply?
    ensures r.code == ERROR_TAG_LOST <==> e.kind == IOException
    ensures e.kind == IOException ==> r.message == "Lost connection to passport. Please try again."
    ensures e.kind != IOException ==> r == ErrorReply(ERROR_READ_FAILED, e.message.GetOr("Unknown error occurred"))
    ensures e.kind != IOException && e.message.Some? ==> r.message == e.message.value
  {
    if e.kind == IOException then ErrorReply(ERROR_TAG_LOST, "Lost connection to passport. Please try again.")
    else ErrorReply(ERROR_READ_FAILED, e.message.GetOr("Unknown error occurred"))
  }

  // ---------------------------------------------------------------------
  // The reply map

  const PassportKeys: set<string> := {
    "firstName", "lastName", "gender", "state", "nationality",
    "passiveAuthSuccess", "chipAuthSuccess",
    "fullName", "otherNames", "personalNumber", "placeOfBirth", "residence", "phoneNumber", "profession"
  }

  /** `dg11Data?.field ?: ""`. */
  function Dg11Text(dg11: Option<NfcReader.Dg11Data>, field: NfcReader.Dg11Data -> Option<string>): string {
    if dg11.Some? then field(dg11.value).GetOr("") else ""
  }

  /** The `hashMapOf(...)` part of `passportData`: the MRZ names with '<'
      turned into spaces, the two authentication flags, and the DG11 fields
      ("" or an empty list when DG11 data is absent). */
  function BaseData(mrz: MrzInfo, rec: NfcReader.PassportRecord): (data: map<string, Value>)
    ensures data.Keys == PassportKeys
  {
    var dg11Data := rec.dg11Data;
    map[
      "firstName" := Str(Text.ReplaceChar(mrz.secondaryIdentifier, '<', ' ')),
      "lastName" := Str(Text.ReplaceChar(mrz.primaryIdentifier, '<', ' ')),
      "gender" := Str(mrz.gender),
      "state" := Str(mrz.issuingState),
      "nationality" := Str(mrz.nationality),
      "passiveAuthSuccess" := Bool(rec.passiveAuthSuccess),
      "chipAuthSuccess" := Bool(rec.chipAuthSucceeded),
      "fullName" := Str(Dg11Text(dg11Data, (d: NfcReader.Dg11Data) => d.fullName)),
      "otherNames" := StrList(if dg11Data.Some? then dg11Data.value.otherNames else []),
      "personalNumber" := Str(Dg11Text(dg11Data, (d: NfcReader.Dg11Data) => d.personalNumber)),
      "placeOfBirth" := Str(Dg11Text(dg11Data, (d: NfcReader.Dg11Data) => d.placeOfBirth)),
      "residence" := Str(Dg11Text(dg11Data, (d: NfcReader.Dg11Data) => d.residence)),
      "phoneNumber" := Str(Dg11Text(dg11Data, (d: NfcReader.Dg11Data) => d.phoneNumber)),
      "profession" := Str(Dg11Text(dg11Data, (d: NfcReader.Dg11Data) => d.profession))
    ]
  }

  /** The `passportData` map: the base entries, then "photo" and "signature"
      only when their Base64 text is present, with whitespace (Base64's line
      breaks) removed. */
  function PassportData(mrz: MrzInfo, rec: NfcReader.PassportRecord): map<string, Value> {
    var base := BaseData(mrz, rec);
    var withPhoto :=
      if rec.imageBase64.Some? then base["photo" := Str(Text.FilterNotWhitespace(rec.imageBase64.value))]
      else base;
    if rec.signatureImageBase64.Some? then withPhoto["signature" := Str(Text.FilterNotWhitespace(rec.signatureImageBase64.value))]
    else withPhoto
  }

  /** The keys the Flutter side receives: the base keys, plus "photo" and
      "signature" exactly when their Base64 text is present. */
  lemma PassportDataKeys(mrz: MrzInfo, rec: NfcReader.PassportRecord)
    ensures PassportData(mrz, rec).Keys == PassportKeys
                                           + (if rec.imageBase64.Some? then {"photo"} else {})
                                           + (if rec.signatureImageBase64.Some? then {"signature"} else {})
  {
  }

  /** The first name is the MRZ secondary identifier with every '<' filler
      turned into a space. */
  lemma PassportDataFirstName(mrz: MrzInfo, rec: NfcReader.PassportRecord)
    ensures PassportData(mrz, rec)["firstName"] == Str(Text.ReplaceChar(mrz.secondaryIdentifier, '<', ' '))
    ensures var name := PassportData(mrz, rec)["firstName"].s;
            && |name| == |mrz.secondaryIdentifier|
            && (forall i :: 0 <= i < |name| ==> name[i] != '<')
  {
    var base := BaseData(mrz, rec);
    var firstName := Text.ReplaceChar(mrz.secondaryIdentifier, '<', ' ');
    assert base["firstName"] == Str(firstName);
    assert PassportData(mrz, rec)["firstName"] == Str(firstName);
  }

  /** The last name is the MRZ primary identifier with every '<' filler
      turned into a space. */
  lemma PassportDataLastName(mrz: MrzInfo, rec: NfcReader.PassportRecord)
    ensures PassportData(mrz, rec)["lastName"] == Str(Text.ReplaceChar(mrz.primaryIdentifier, '<', ' '))
    ensures var name := PassportData(mrz, rec)["lastName"].s;
            && |name| == |mrz.primaryIdentifier|
            && (forall i :: 0 <= i < |name| ==> name[i] != '<')
  {
    var base := BaseData(mrz, rec);
    var lastName := Text.ReplaceChar(mrz.primaryIdentifier, '<', ' ');
    assert base["lastName"] == Str(lastName);
    assert PassportData(mrz, rec)["lastName"] == Str(lastName);
  }

  /** The two authentication flags are reported as read. */
  lemma PassportDataFlags(mrz: MrzInfo, rec: NfcReader.PassportRecord)
    ensures PassportData(mrz, rec)["passiveAuthSuccess"] == Bool(rec.passiveAuthSuccess)
    ensures PassportData(mrz, rec)["chipAuthSuccess"] == Bool(rec.chipAuthSucceeded)
  {
    var base := BaseData(mrz, rec);
    assert base["passiveAuthSuccess"] == Bool(rec.passiveAuthSuccess);
    assert base["chipAuthSuccess"] == Bool(rec.chipAuthSucceeded);
  }

  /** Absent DG11 data gives empty values rather than missing keys. */
  lemma PassportDataDg11Defaults(mrz: MrzInfo, rec: NfcReader.PassportRecord)
    requires rec.dg11Data.None?
    ensures PassportData(mrz, rec)["fullName"] == Str("")
    ensures PassportData(mrz, rec)["otherNames"] == StrList([])
    ensures PassportData(mrz, rec)["personalNumber"] == Str("")
    ensures PassportData(mrz, rec)["placeOfBirth"] == Str("") && PassportData(mrz, rec)["residence"] == Str("")
    ensures PassportData(mrz, rec)["phoneNumber"] == Str("") && PassportData(mrz, rec)["profession"] == Str("")
  {
    var base := BaseData(mrz, rec);
    assert base["fullName"] == Str("") && base["otherNames"] == StrList([]) && base["personalNumber"] == Str("");
    assert base["placeOfBirth"] == Str("") && base["residence"] == Str("");
    assert base["phoneNumber"] == Str("") && base["profession"] == Str("");
  }

  /** With DG11 data, each DG11 key carries its field, and a null field
      gives "" rather than a missing key. */
  lemma PassportDataDg11Present(mrz: MrzInfo, rec: NfcReader.PassportRecord)
    requires rec.dg11Data.Some?
    ensures var d := rec.dg11Data.value;
            && PassportData(mrz, rec)["fullName"] == Str(d.fullName.GetOr(""))
            && PassportData(mrz, rec)["otherNames"] == StrList(d.otherNames)
            && PassportData(mrz, rec)["personalNumber"] == Str(d.personalNumber.GetOr(""))
    ensures var d := rec.dg11Data.value;
            && PassportData(mrz, rec)["placeOfBirth"] == Str(d.placeOfBirth.GetOr(""))
            && PassportData(mrz, rec)["residence"] == Str(d.residence.GetOr(""))
    ensures var d := rec.dg11Data.value;
            && PassportData(mrz, rec)["phoneNumber"] == Str(d.phoneNumber.GetOr(""))
            && PassportData(mrz, rec)["profession"] == Str(d.profession.GetOr(""))
  {
    var d := rec.dg11Data.value;
    var base := BaseData(mrz, rec);
    assert base["fullName"] == Str(d.fullName.GetOr("")) && base["otherNames"] == StrList(d.otherNames);
    assert base["personalNumber"] == Str(d.personalNumber.GetOr(""));
    assert base["placeOfBirth"] == Str(d.placeOfBirth.GetOr("")) && base["residence"] == Str(d.residence.GetOr(""));
    assert base["phoneNumber"] == Str(d.phoneNumber.GetOr("")) && base["profession"] == Str(d.profession.GetOr(""));
  }

  /** "photo" is the reader's Base64 face image with its whitespace (the
      encoder's line breaks) removed, and is absent when there is none. */
  lemma PassportDataPhoto(mrz: MrzInfo, rec: NfcReader.PassportRecord)
    ensures rec.imageBase64.Some? ==>
              PassportData(mrz, rec)["photo"] == Str(Text.FilterNotWhitespace(rec.imageBase64.value))
              && Text.NoWhitespace(PassportData(mrz, rec)["photo"].s)
    ensures rec.imageBase64.None? ==> "photo" !in PassportData(mrz, rec)
  {
    var base := BaseData(mrz, rec);
    assert "photo" !in base.Keys;
    assert "photo" != "signature";
  }

  /** "signature" is the reader's Base64 signature image with its whitespace
      removed, and is absent when there is none. */
  lemma PassportDataSignature(mrz: MrzInfo, rec: NfcReader.PassportRecord)
    ensures rec.signatureImageBase64.Some? ==>
              PassportData(mrz, rec)["signature"] == Str(Text.FilterNotWhitespace(rec.signatureImageBase64.value))
              && Text.NoWhitespace(PassportData(mrz, rec)["signature"].s)
    ensures rec.signatureImageBase64.None? ==> "signature" !in PassportData(mrz, rec)
  {
    var base := BaseData(mrz, rec);
    assert "signature" !in base.Keys;
  }

  /** Gender, issuing state and nationality are copied from the MRZ. */
  lemma PassportDataMrzFields(mrz: MrzInfo, rec: NfcReader.PassportRecord)
    ensures PassportData(mrz, rec)["gender"] == Str(mrz.gender)
    ensures PassportData(mrz, rec)["state"] == Str(mrz.issuingState)
    ensures PassportData(mrz, rec)["nationality"] == Str(mrz.nationality)
  {
    var base := BaseData(mrz, rec);
    assert base["gender"] == Str(mrz.gender) && base["state"] == Str(mrz.issuingState);
    assert base["nationality"] == Str(mrz.nationality);
  }

  /** The map is built and then "photo" and "signature" are put into it. */
  method AssemblePassportData(mrz: MrzInfo, rec: NfcReader.PassportRecord) returns (passportData: map<string, Value>)
    ensures passportData == PassportData(mrz, rec)
  {
    var dg11Data := rec.dg11Data;
    passportData := map[
      "firstName" := Str(Text.ReplaceChar(mrz.secondaryIdentifier, '<', ' ')),
      "lastName" := Str(Text.ReplaceChar(mrz.primaryIdentifier, '<', ' ')),
      "gender" := Str(mrz.gender),
      "state" := Str(mrz.issuingState),
      "nationality" := Str(mrz.nationality),
      "passiveAuthSuccess" := Bool(rec.passiveAuthSuccess),
      "chipAuthSuccess" := Bool(rec.chipAuthSucceeded),
      "fullName" := Str(Dg11Text(dg11Data, (d: NfcReader.Dg11Data) => d.fullName)),
      "otherNames" := StrList(if dg11Data.Some? then dg11Data.value.otherNames else []),
      "personalNumber" := Str(Dg11Text(dg11Data, (d: NfcReader.Dg11Data) => d.personalNumber)),
      "placeOfBirth" := Str(Dg11Text(dg11Data, (d: NfcReader.Dg11Data) => d.placeOfBirth)),
      "residence" := Str(Dg11Text(dg11Data, (d: NfcReader.Dg11Data) => d.residence)),
      "phoneNumber" := Str(Dg11Text(dg11Data, (d: NfcReader.Dg11Data) => d.phoneNumber)),
      "profession" := Str(Dg11Text(dg11Data, (d: NfcReader.Dg11Data) => d.profession))
    ];
    if rec.imageBase64.Some? {
      passportData := passportData["photo" := Str(Text.FilterNotWhitespace(rec.imageBase64.value))];
    }
    if rec.signatureImageBase64.Some? {
      passportData := passportData["signature" := Str(Text.FilterNotWhitespace(rec.signatureImageBase64.value))];
    }
  }

  /** What the read coroutine sends once the read has produced `read` (the
      activity attached): the map when DG1 carries an MRZ, otherwise
      READ_FAILED with the read's own message or a fixed one. */
  function CompletionReply(read: NfcReader.PassportReadResult): (r: ReplyBody)
    ensures r.SuccessReply? <==> read.Success? && read.record.dg1File.Some? && read.record.dg1File.value.mrzInfo.Some?
    ensures r.SuccessReply? ==> r.data == PassportData(read.record.dg1File.value.mrzInfo.value, read.record)
    ensures !r.SuccessReply? ==> r.ErrorReply? && r.code == ERROR_READ_FAILED
    ensures read.Error? ==> r == ErrorReply(ERROR_READ_FAILED, read.exception.message.GetOr("Failed to read passport"))
    ensures read.Error? && read.exception.message.Some? ==> r.message == read.exception.message.value
    ensures read.Success? && !r.SuccessReply? ==> r == ErrorReply(ERROR_READ_FAILED, "Failed to read MRZ info")
  {
    match read
    case Error(e) => ErrorReply(ERROR_READ_FAILED, e.message.GetOr("Failed to read passport"))
    case Success(rec) =>
      if rec.dg1File.None? || rec.dg1File.value.mrzInfo.None? then ErrorReply(ERROR_READ_FAILED, "Failed to read MRZ info")
      else SuccessReply(PassportData(rec.dg1File.value.mrzInfo.value, rec))
  }

  /** As written, a connection lost during the read (an IOException, such as
      Android's TagLostException) reaches the plugin as an Error result, so
      it is reported as READ_FAILED and never as TAG_LOST. */
  lemma LostTagReportedAsReadFailed(message: string)
    ensures var read := NfcReader.Error(Exception(IOException, Some(message)));
            CompletionReply(read) == ErrorReply(ERROR_READ_FAILED, message)
  {
  }

  /** The evidently intended reply: an IOException from the read is reported
      as TAG_LOST; everything else as before. */
  function IntendedCompletionReply(read: NfcReader.PassportReadResult): (r: ReplyBody)
    ensures r.ErrorReply? && r.code == ERROR_TAG_LOST <==> read.Error? && read.exception.kind == IOException
    ensures !(read.Error? && read.exception.kind == IOException) ==> r == CompletionReply(read)
  {
    if read.Error? && read.exception.kind == IOException then CaughtError(read.exception)
    else CompletionReply(read)
  }

  // ---------------------------------------------------------------------
  // The plugin

  class Plugin {
    var activityAttached: bool
    /** The call whose `Result` is kept for the read, if any. */
    var pendingResult: Option<nat>
    var passportNumber: Option<string>
    var birthDate: Option<string>
    var expirationDate: Option<string>
    var foregroundDispatch: bool
    /** The number of method calls received; call ids are 0, 1, ... */
    var calls: nat
    /** Every reply sent, in order. */
    var replies: seq<Reply>

    predicate Answered(id: nat)
      reads this
    {
      exists i :: 0 <= i < |replies| && replies[i].call == id
    }

    /** Every reply answers a call received, no call is answered twice, and
        the pending call is still unanswered. */
    predicate Valid()
      reads this
    {
      && (forall i :: 0 <= i < |replies| ==> replies[i].call < calls)
      && (forall i, j :: 0 <= i < j < |replies| ==> replies[i].call != replies[j].call)
      && (pendingResult.Some? ==> pendingResult.value < calls && !Answered(pendingResult.value))
    }

    constructor ()
      ensures Valid()
      ensures !activityAttached && pendingResult.None? && !foregroundDispatch
      ensures passportNumber.None? && birthDate.None? && expirationDate.None?
      ensures calls == 0 && replies == []
    {
      activityAttached := false;
      pendingResult := None;
      passportNumber := None;
      birthDate := None;
      expirationDate := None;
      foregroundDispatch := false;
      calls := 0;
      replies := [];
    }

    method AttachToActivity()
      requires Valid()
      modifies this
      ensures Valid()
      ensures activityAttached
      ensures pendingResult == old(pendingResult) && replies == old(replies) && calls == old(calls)
      ensures passportNumber == old(passportNumber) && birthDate == old(birthDate) && expirationDate == old(expirationDate)
      ensures foregroundDispatch == old(foregroundDispatch)
    {
      activityAttached := true;
    }

    method DetachFromActivity()
      requires Valid()
      modifies this
      ensures Valid()
      ensures !activityAttached
      ensures pendingResult == old(pendingResult) && replies == old(replies) && calls == old(calls)
      ensures passportNumber == old(passportNumber) && birthDate == old(birthDate) && expirationDate == old(expirationDate)
      ensures foregroundDispatch == old(foregroundDispatch)
    {
      activityAttached := false;
    }

    /** `pendingResult?.<reply>; pendingResult = null`. */
    method AnswerPending(body: ReplyBody)
      requires Valid()
      modifies this
      ensures Valid()
      ensures replies == old(replies) + (if old(pendingResult).Some? then [Reply(old(pendingResult).value, body)] else [])
      ensures pendingResult.None?
      ensures activityAttached == old(activityAttached) && calls == old(calls)
      ensures passportNumber == old(passportNumber) && birthDate == old(birthDate) && expirationDate == old(expirationDate)
      ensures foregroundDispatch == old(foregroundDispatch)
    {
      if pendingResult.Some? {
        replies := replies + [Reply(pendingResult.value, body)];
      }
      pendingResult := None;
    }

    /** `reportError`: on the UI thread of the attached activity; without
        one nothing happens. */
    method ReportError(code: string, message: string)
      requires Valid()
      modifies this
      ensures Valid()
      ensures activityAttached ==> replies == old(replies) + (if old(pendingResult).Some? then [Reply(old(pendingResult).value, ErrorReply(code, message))] else [])
      ensures activityAttached ==> pendingResult.None?
      ensures !activityAttached ==> replies == old(replies) && pendingResult == old(pendingResult)
      ensures activityAttached == old(activityAttached) && calls == old(calls)
      ensures passportNumber == old(passportNumber) && birthDate == old(birthDate) && expirationDate == old(expirationDate)
      ensures foregroundDispatch == old(foregroundDispatch)
    {
      if activityAttached {
        AnswerPending(ErrorReply(code, message));
      }
    }

    /** `startNFCReading`: with an activity, a missing or disabled adapter
        answers the pending call with an error; otherwise foreground
        dispatch for IsoDep tags is enabled and the call stays pending. */
    method StartNfcReading(adapter: Adapter)
      requires Valid()
      modifies this
      ensures Valid()
      ensures activityAttached && StartReply(adapter).Some? ==>
                replies == old(replies) + (if old(pendingResult).Some? then [Reply(old(pendingResult).value, StartReply(adapter).value)] else [])
                && pendingResult.None? && foregroundDispatch == old(foregroundDispatch)
      ensures activityAttached && StartReply(adapter).None? ==>
                replies == old(replies) && pendingResult == old(pendingResult) && foregroundDispatch
      ensures !activityAttached ==>
                replies == old(replies) && pendingResult == old(pendingResult) && foregroundDispatch == old(foregroundDispatch)
      ensures activityAttached == old(activityAttached) && calls == old(calls)
      ensures passportNumber == old(passportNumber) && birthDate == old(birthDate) && expirationDate == old(expirationDate)
    {
      if activityAttached {
        match adapter {
          case NoAdapter =>
            AnswerPending(ErrorReply(ERROR_NFC_NOT_AVAILABLE, "NFC is not available on this device"));
          case Adapter(enabled) =>
            if !enabled {
              AnswerPending(ErrorReply(ERROR_NFC_DISABLED, "NFC is disabled. Please enable NFC in your device settings"));
            } else {
              foregroundDispatch := true;
            }
        }
      }
    }

    /** A new call arrives and takes the next id, which nothing has answered. */
    method ReceiveCall() returns (id: nat)
      requires Valid()
      modifies this
      ensures Valid()
      ensures id == old(calls) && calls == old(calls) + 1 && !Answered(id)
      ensures pendingResult != Some(id)
      ensures replies == old(replies) && pendingResult == old(pendingResult) && activityAttached == old(activityAttached)
      ensures passportNumber == old(passportNumber) && birthDate == old(birthDate) && expirationDate == old(expirationDate)
      ensures foregroundDispatch == old(foregroundDispatch)
    {
      id := calls;
      calls := calls + 1;
    }

    /** `result.<reply>` on a call that is neither answered nor pending. */
    method ReplyNow(id: nat, body: ReplyBody)
      requires Valid() && id < calls && !Answered(id) && pendingResult != Some(id)
      modifies this
      ensures Valid()
      ensures replies == old(replies) + [Reply(id, body)]
      ensures pendingResult == old(pendingResult) && activityAttached == old(activityAttached) && calls == old(calls)
      ensures passportNumber == old(passportNumber) && birthDate == old(birthDate) && expirationDate == old(expirationDate)
      ensures foregroundDispatch == old(foregroundDispatch)
    {
      replies := replies + [Reply(id, body)];
      assert forall i :: 0 <= i < |old(replies)| ==> replies[i] == old(replies)[i];
    }

    /** Keeps call `id` as the pending one and starts NFC for it. */
    method AwaitRead(id: nat, adapter: Adapter)
      requires Valid() && id < calls && !Answered(id)
      modifies this
      ensures Valid()
      ensures if activityAttached && StartReply(adapter).Some? then
                replies == old(replies) + [Reply(id, StartReply(adapter).value)] && pendingResult.None?
                && foregroundDispatch == old(foregroundDispatch)
              else
                replies == old(replies) && pendingResult == Some(id)
                && foregroundDispatch == (old(foregroundDispatch) || activityAttached)
      ensures activityAttached == old(activityAttached) && calls == old(calls)
      ensures passportNumber == old(passportNumber) && birthDate == old(birthDate) && expirationDate == old(expirationDate)
    {
      pendingResult := Some(id);
      StartNfcReading(adapter);
    }

    /** `onMethodCall` for call number `calls`: `startNFCReading` stores the
        three arguments, answers INVALID_ARGS if one is missing or empty and
        otherwise keeps the call pending and starts NFC; any other method is
        not implemented. */
    method OnMethodCall(name: string, args: map<string, string>, adapter: Adapter)
      requires Valid()
      modifies this
      ensures Valid()
      ensures calls == old(calls) + 1 && activityAttached == old(activityAttached)
      ensures name != "startNFCReading" ==>
                && replies == old(replies) + [Reply(old(calls), NotImplemented)]
                && pendingResult == old(pendingResult) && foregroundDispatch == old(foregroundDispatch)
                && passportNumber == old(passportNumber) && birthDate == old(birthDate) && expirationDate == old(expirationDate)
      ensures name == "startNFCReading" ==>
                && passportNumber == Argument(args, "passportNumber")
                && birthDate == Argument(args, "birthDate")
                && expirationDate == Argument(args, "expirationDate")
      ensures name == "startNFCReading" && (IsNullOrEmpty(passportNumber) || IsNullOrEmpty(birthDate) || IsNullOrEmpty(expirationDate)) ==>
                && replies == old(replies) + [Reply(old(calls), ErrorReply(ERROR_INVALID_ARGS, "Missing required parameters"))]
                && pendingResult == old(pendingResult) && foregroundDispatch == old(foregroundDispatch)
      ensures name == "startNFCReading" && !IsNullOrEmpty(passportNumber) && !IsNullOrEmpty(birthDate) && !IsNullOrEmpty(expirationDate) ==>
                if activityAttached && StartReply(adapter).Some? then
                  replies == old(replies) + [Reply(old(calls), StartReply(adapter).value)] && pendingResult.None?
                  && foregroundDispatch == old(foregroundDispatch)
                else
                  replies == old(replies) && pendingResult == Some(old(calls))
                  && foregroundDispatch == (old(foregroundDispatch) || activityAttached)
    {
      var id := ReceiveCall();
      if name == "startNFCReading" {
        passportNumber := Argument(args, "passportNumber");
        birthDate := Argument(args, "birthDate");
        expirationDate := Argument(args, "expirationDate");

        if IsNullOrEmpty(passportNumber) || IsNullOrEmpty(birthDate) || IsNullOrEmpty(expirationDate) {
          ReplyNow(id, ErrorReply(ERROR_INVALID_ARGS, "Missing required parameters"));
          return;
        }

        AwaitRead(id, adapter);
      } else {
        ReplyNow(id, NotImplemented);
      }
    }

    /** `onNewIntent`: returns whether the intent was handled and the key of
        the read it launched; a rejected intent is reported to the pending
        call. The stored arguments are left as they are. */
    method OnNewIntent(intent: Intent, lenient: string -> Option<DateFormat.Date>, bacKeyAccepted: BacKey -> bool)
      returns (handled: bool, launched: Option<BacKey>)
      requires Valid()
      modifies this
      ensures Valid()
      ensures var d := DecideOnIntent(intent, passportNumber, birthDate, expirationDate, lenient, bacKeyAccepted);
              && handled == d.Launch?
              && launched == (if d.Launch? then Some(d.key) else None)
              && (d.Reject? && activityAttached ==>
                    replies == old(replies) + (if old(pendingResult).Some? then [Reply(old(pendingResult).value, ErrorReply(d.code, d.message))] else [])
                    && pendingResult.None?)
              && (!(d.Reject? && activityAttached) ==> replies == old(replies) && pendingResult == old(pendingResult))
      ensures activityAttached == old(activityAttached) && calls == old(calls) && foregroundDispatch == old(foregroundDispatch)
      ensures passportNumber == old(passportNumber) && birthDate == old(birthDate) && expirationDate == old(expirationDate)
    {
      handled, launched := false, None;
      if intent.action == Some(ACTION_TECH_DISCOVERED) {
        if intent.tag.Some? && ISO_DEP in intent.tag.value.techList {
          var convertedBirthDate := DateFormat.ConvertDate(birthDate, lenient);
          var convertedExpirationDate := DateFormat.ConvertDate(expirationDate, lenient);

          if !IsNullOrEmpty(passportNumber) && !IsNullOrEmpty(convertedBirthDate) && !IsNullOrEmpty(convertedExpirationDate) {
            var bacKey := BacKey(passportNumber.value, convertedBirthDate.value, convertedExpirationDate.value);
            if bacKeyAccepted(bacKey) {
              return true, Some(bacKey);
            }
            ReportError(ERROR_BAC_KEYS, "Invalid passport data provided");
            return false, None;
          } else {
            ReportError(ERROR_INVALID_ARGS, "Missing or invalid passport data");
            return false, None;
          }
        }
      }
    }

    /** The read coroutine, once `NfcReader.readPassport` has produced `read`.
        Without an activity, `activity!!` throws before the read and the
        error cannot be reported, so nothing changes; with one, the pending
        call receives `CompletionReply(read)`. */
    method CompleteRead(read: NfcReader.PassportReadResult)
      requires Valid()
      modifies this
      ensures Valid()
      ensures activityAttached ==>
                replies == old(replies) + (if old(pendingResult).Some? then [Reply(old(pendingResult).value, CompletionReply(read))] else [])
                && pendingResult.None?
      ensures !activityAttached ==> replies == old(replies) && pendingResult == old(pendingResult)
      ensures activityAttached == old(activityAttached) && calls == old(calls) && foregroundDispatch == old(foregroundDispatch)
      ensures passportNumber == old(passportNumber) && birthDate == old(birthDate) && expirationDate == old(expirationDate)
    {
      var outcome: Outcome<NfcReader.PassportReadResult> :=
        if activityAttached then Returned(read) else Threw(Exception(NullPointerException, None));
      match outcome {
        case Threw(e) =>
          var caught := CaughtError(e);
          ReportError(caught.code, caught.message);
        case Returned(result) =>
          match result {
            case Success(rec) =>
              if rec.dg1File.None? || rec.dg1File.value.mrzInfo.None? {
                ReportError(ERROR_READ_FAILED, "Failed to read MRZ info");
                return;
              }
              var mrzInfo := rec.dg1File.value.mrzInfo.value;
              var passportData := AssemblePassportData(mrzInfo, rec);
              if activityAttached {
                AnswerPending(SuccessReply(passportData));
              }
            case Error(e) =>
              ReportError(ERROR_READ_FAILED, e.message.GetOr("Failed to read passport"));
          }
      }
    }
  }
}
