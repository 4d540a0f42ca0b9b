/** The decoded objects the JMRTD and BouncyCastle parsers hand to the reader.
    Their decoding is not part of this model: each is the value a parser
    returned. */
module Lds {
  import opened Outcomes

  /** The access key built from the document number and the two yyMMdd dates. */
  datatype BacKey = BacKey(documentNumber: string, dateOfBirth: string, dateOfExpiry: string)

  /** Entries of EF.CardAccess and DG14. */
  datatype SecurityInfo =
    | PaceInfo(objectIdentifier: string, parameterId: int)
    | ChipAuthenticationPublicKeyInfo(keyId: Option<int>, objectIdentifier: string, subjectPublicKey: Bytes)
    | OtherSecurityInfo(objectIdentifier: string)

  /** The machine-readable zone; `gender` is the library enum's `toString()`. */
  datatype MrzInfo = MrzInfo(
    primaryIdentifier: string,
    secondaryIdentifier: string,
    gender: string,
    issuingState: string,
    nationality: string)

  datatype Dg1File = Dg1File(encoded: Bytes, mrzInfo: Option<MrzInfo>)

  /** A biometric image record: its MIME type, its declared length and the
      bytes its image stream would deliver. */
  datatype ImageInfo = ImageInfo(mimeType: string, imageLength: int, imageStream: Bytes)

  datatype FaceInfo = FaceInfo(faceImageInfos: seq<ImageInfo>)

  datatype Dg2File = Dg2File(encoded: Bytes, faceInfos: seq<FaceInfo>)

  datatype Dg7File = Dg7File(images: seq<ImageInfo>)

  datatype Dg11File = Dg11File(
    nameOfHolder: string,
    otherNames: seq<string>,
    personalNumber: Option<string>,
    placeOfBirth: seq<string>,
    permanentAddress: seq<string>,
    telephone: Option<string>,
    profession: Option<string>)

  datatype Dg14File = Dg14File(encoded: Bytes, securityInfos: seq<SecurityInfo>)

  /** An X.509 certificate as java.security sees it. */
  datatype Certificate = Certificate(encoded: Bytes, sigAlgName: string)

  /** The document security object: digest algorithm, the signed hash of
      each data group, the signer certificates and the signed content. */
  datatype SodFile = SodFile(
    digestAlgorithm: string,
    dataGroupHashes: map<int, Bytes>,
    docSigningCertificates: seq<Certificate>,
    docSigningCertificate: Option<Certificate>,
    eContent: Bytes,
    encryptedDigest: Bytes)

  /** ASN.1 values as read from the CSCA master list. */
  datatype Asn1Value =
    | Asn1Sequence(items: seq<Asn1Value>)
    | Asn1Set(items: seq<Asn1Value>)
    | Asn1Other(encoded: Bytes)

  /** A decoded image, handed on but never inspected. */
  datatype Bitmap = Bitmap(handle: nat)
}
