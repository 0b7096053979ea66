/** Shared by every component: optional values, and constants of internal/transport/constants.go that several need. */
module Common {
  datatype Option<+T> = None | Some(value: T)

  /** The nonce from which on a keypair is not used any more. */
  const REJECT_AFTER: nat := 0xffff_ffff_ffff_dfff

  /** Nanoseconds between two initiations to one peer. */
  const REKEY_TIMEOUT: nat := 5_000_000_000
}
