/**
 * The agent's error values. The sentinel errors of pkg/tpm/errors.go,
 * pkg/version/errors.go, pkg/uuid/errors.go and pkg/exec/errors.go are
 * constructors; `fmt.Errorf("context: %w", err)` is `Wrapped`.
 */
module Errors {

  datatype Error =
    | TPMNotFound                 // no TPM device found
    | PCRNotFound(index: int)     // requested PCR not found in TPM: <index>
    | TPMNotOpened                // TPM device not opened
    | InvalidNonce                // invalid nonce
    | InvalidPCRs                 // invalid PCRs provided
    | NoSignatureCached           // no signature cached; call Quote() first
    | NoPublicKeyCached           // no public key cached; call Quote() first
    | VersionNotFound             // could not determine talos version
    | UUIDNotFound                // could not determine machine UUID
    | ArgMissing(argument: string)  // required argument is missing: argument=<name>
    | FileClosed                  // I/O on a handle that was already closed
    | External(detail: string)    // a failure reported by a file read, library or device call
    | Panic(reason: string)       // a Go run-time panic (nil dereference, index out of range)
    | Wrapped(context: string, cause: Error)
}
