/** Types shared by the dispatcher and the command protocols. */
module BleTypes {

  /** The bytes of a record or of a JSON payload. */
  type Bytes = seq<bv8>

  /** An error value: what json.Marshal, x.Tx or a listener's error channel carries, and what ErrorAll sends. */
  datatype BleError = BleError(text: string)
}
