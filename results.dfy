/** Success and failure values shared by the clients and the orchestrator. */
module Results {

  datatype Option<T> = None | Some(value: T)

  /** What an error carries. The source boxes every error as a trait object
      whose only observable part is its message; the two other variants stand
      for failures whose message the model does not reproduce. */
  datatype Error =
    | Message(text: string)  // an error built from a formatted string
    | DecodeFailed           // a JSON value that does not have the shape of the target type
    | MissingPart            // `parts[0]` on an empty list: a panic in the source, kept distinct here

  datatype Result<T> = Ok(value: T) | Err(error: Error)
}
