/** The stored form of a task (store/storer.go). Snapshots are gob-encoded in the
    source; here a blob either holds the snapshot itself or bytes that do not decode. */
module Storer {
  import opened Common
  import opened Tasks

  datatype Blob =
    | Encoded(task: TaskData)   // what Encode produced
    | Garbled(bytes: seq<bv8>)  // anything else found in a store

  /** Encode: a snapshot of the exported fields, which decodes back to them. */
  function Encode(t: TaskData): (b: Blob)
    ensures Decode(b) == Ok(t)
  {
    Encoded(t)
  }

  datatype Decoded = Ok(task: TaskData) | Failed(error: Error)

  /** Decode: only an encoded snapshot yields a task. */
  function Decode(b: Blob): (r: Decoded)
    ensures r.Ok? <==> b.Encoded?
    ensures r.Failed? ==> r.error == Undecodable
  {
    match b
    case Encoded(t) => Ok(t)
    case Garbled(_) => Failed(Undecodable)
  }
}
