/** The frame envelope spoken over the panel link: kinds, constructors and the
    structural check that every inbound frame must pass. Payloads stay raw text. */
module Envelope {
  import opened Common

  datatype Kind =
    | Request
    | Result
    | Chunk
    | Error
    | Cancel
    | Event
    | Unknown(name: string)

  datatype ErrorCode = BadRequest | NotFound | Unsupported | Timeout | Canceled | Internal

  datatype RpcError = RpcError(code: ErrorCode, message: string)

  datatype Frame = Frame(kind: Kind, id: string, op: string, payload: Option<string>, err: Option<RpcError>)

  /** The structural invariants of a frame, kind by kind. */
  predicate Validate(f: Frame) {
    match f.kind
    case Request => f.id != "" && f.op != ""
    case Result => f.id != ""
    case Chunk => f.id != ""
    case Cancel => f.id != ""
    case Error => f.id != "" && f.err.Some?
    case Event => f.op != ""
    case Unknown(_) => false
  }

  /** Every frame needs a known kind; all but events need an id, requests and events an op, and
      errors an error. */
  lemma ValidIff(f: Frame)
    ensures Validate(f) <==>
      && !f.kind.Unknown?
      && (f.id != "" || f.kind.Event?)
      && (f.op != "" || !(f.kind.Request? || f.kind.Event?))
      && (f.err.Some? || !f.kind.Error?)
  {
  }

  predicate IsTerminal(f: Frame) { f.kind.Result? || f.kind.Error? }

  function ResultFrame(id: string, payload: Option<string>): Frame {
    Frame(Result, id, "", payload, None)
  }

  function ChunkFrame(id: string, payload: Option<string>): Frame {
    Frame(Chunk, id, "", payload, None)
  }

  function EventFrame(op: string, payload: Option<string>): Frame {
    Frame(Event, "", op, payload, None)
  }

  function ErrorFrame(id: string, code: ErrorCode, message: string): Frame {
    Frame(Error, id, "", None, Some(RpcError(code, message)))
  }

  function CancelFrame(id: string): Frame {
    Frame(Cancel, id, "", None, None)
  }
}
