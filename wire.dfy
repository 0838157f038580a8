/** Shared value types: bytes as they travel on the wire, and the two
    failure-carrying wrappers the transport layer returns. */
module Wire {

  /** One octet; Go's `byte`. */
  type Byte = bv8

  /** A byte string: a Go `[]byte`, or a Go `string` read byte by byte. */
  type Bytes = seq<Byte>

  /** A value that may be missing: the result of a fallible lookup or encoding. */
  datatype Option<T> = None | Some(value: T)

  /** The `error` result of a Go function: `Pass` is a nil error. */
  datatype Outcome<E> = Pass | Fail(error: E)
}
