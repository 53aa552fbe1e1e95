/** Success or failure, and presence or absence, for the places where the program returns
    `Result` and `Option`. */
module Results {
  datatype Result<+T, +E> = Ok(value: T) | Err(error: E)

  datatype Option<+T> = None | Some(value: T)
}
