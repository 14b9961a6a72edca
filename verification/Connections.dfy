/** What identifies a connection and what state it can be in, shared by the models of connections. */
module Connections {
  import opened Bytes

  type ConnId = nat

  /** A goroutine that may call Close. */
  type Thread = nat

  datatype ConnState = New | LoggedIn | Closed

  /** A VIN string; NoVin is the empty string of a connection that never logged in. */
  datatype Vin = NoVin | VinText(text: bytes)
}
