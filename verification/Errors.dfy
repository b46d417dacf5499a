/** The error values that the driver tells apart, and the usual result wrappers. */
module Errors {
  datatype Option<+T> = None | Some(value: T)

  datatype Error =
    | EOF                         // io.EOF, unwrapped
    | UnexpectedEOF               // input ended inside a value
    | SyntaxError                 // refused by the JSON scanner or token machine
    | TypeMismatch                // a value that does not fit the Go field
    | UnexpectedToken             // a token of the wrong sort
    | UnexpectedDelim(delim: char)
    | Gateway(cause: Error)       // kivik.Error with status 502
    | BadRequest(cause: Error)    // kivik.Error with status 400
    | HTTPError(status: int)      // the server's answer, with status 400 or more
    | ReadFailure(code: int)      // the network reader failed
    | CloseFailure(code: int)     // closing the reader failed
    | Canceled                    // the context is done
    | IteratorClosed              // read after Close
    | AlreadyClosed               // a file that is used after Close
    | NotFound                    // a key that was looked for is missing
    | Panic                       // no error value: the call dereferences nil

  datatype Result<+T> = Ok(value: T) | Err(error: Error)
}
