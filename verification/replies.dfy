/** Values that the hosted backend hands back to the pages, and optional page inputs. */
module Replies {

  /** An input the page may not have yet (a file input with nothing chosen). */
  datatype Option<+T> = None | Some(value: T)

  /** The `{ data, error }` pair every backend call resolves to: either the data,
      or an error that the caller may inspect or ignore. */
  datatype Reply<+T> = Ok(value: T) | Err(message: string)
}
