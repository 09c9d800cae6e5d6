/** Success/failure outcome shared by the tokenizer and the parser, and Rust's `Option`. */
module Results {

  datatype Option<+T> = None | Some(value: T)

  datatype Result<+T, +E> = Ok(value: T) | Err(error: E)
}
