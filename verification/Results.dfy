/** The optional and failing outcomes shared by every component. */
module Results {

  datatype Option<+T> = None | Some(value: T)

  datatype Error =
    | UnknownBlock
    | NotInFinalizedChain
    | IncompletePipeline
    | InvalidStateRoot
    | ExecutionFailed
    | CommitRefused
    | ChangesTriesNotSupported
    | ChangesTrieAccessFailed

  datatype Result<+T> = Ok(value: T) | Err(error: Error)
}
