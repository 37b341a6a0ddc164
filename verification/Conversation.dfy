/** The parts of the conversation state that the display projections read. */
module Conversation {
  import opened Utf8

  datatype Option<+T> = None | Some(value: T)

  datatype ContentType = Text | BinaryData | ExternalRef
  datatype Modality = TextMedia | Image | Audio | Video | Document
  datatype Part = Part(kind: ContentType, modality: Modality, raw: Bytes)

  /** Names one committed answer: whose, where, and which content it had. */
  datatype Locator = Locator(workerId: Bytes, turn: nat, step: nat, commit: Bytes, fingerprint: Bytes)

  const UINT64_LIMIT: nat := 0x1_0000_0000_0000_0000

  function TypeName(k: ContentType): (r: Bytes)
    ensures |r| <= 12
  {
    match k
    case Text => "text"
    case BinaryData => "binary"
    case ExternalRef => "external_ref"
  }

  function ModalityName(m: Modality): (r: Bytes)
    ensures |r| <= 8
  {
    match m
    case TextMedia => "text"
    case Image => "image"
    case Audio => "audio"
    case Video => "video"
    case Document => "document"
  }
}
