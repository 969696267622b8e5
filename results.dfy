/** Option, Result and the errors the modelled Ruby code raises. */
module Results {

  datatype Option<+T> = None | Some(value: T)

  /** The exceptions the modelled code raises, one constructor per cause. */
  datatype Error =
    | UnsupportedCipher(cipher: string)        // OpenSSL::Cipher.new on an unknown name
    | CipherFailure                            // OpenSSL final: bad padding, most likely a wrong key
    | IvRejected(cipher: string)               // `iv =` with an IV of the wrong length for the cipher
    | KeyRejected(cipher: string)              // `key =` with a key of the wrong length for the cipher
    | MissingIv                                // Base64.decode64(nil) while building a decryptor
    | JsonParseError                           // FFI_Yajl::Parser.parse on malformed text
    | NotIndexable                             // `x[...]` on a value that has no hash lookup
    | NotAHash                                 // a document part that must be a hash is not
    | NotAList                                 // `.uniq` on a value that is not an array
    | ValidationFailed(field: string)          // set_or_return kind_of check
    | NoSecret                                 // "No secret specified and no secret found."
    | SecretFileNotFound(path: string)         // Errno::ENOENT for the secret file
    | RemoteKeyUnavailable(location: string)   // the secret URL refused the connection
    | RemoteKeyNotFound(location: string)      // the secret URL answered with an HTTP error
    | UndefinedName(name: string)              // NameError: a local variable or method that does not exist
    | EmptySecret(location: string)            // "invalid zero length secret in ..."
    | NoMethod(name: string)                   // NoMethodError: the receiver does not answer `name`
    | CollaboratorFailure                      // an error raised by a collaborator this model abstracts

  datatype Result<+T> = Ok(value: T) | Err(error: Error) {
    predicate IsFailure() { Err? }
    function PropagateFailure<U>(): Result<U>
      requires Err?
    {
      Err(error)
    }
    function Extract(): T
      requires Ok?
    {
      value
    }
  }
}
