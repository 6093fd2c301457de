/**
 * 128-bit identifiers of rooms, clients and session tokens. The formatting
 * and parsing of identifiers (`String`, `Parse` of the uuid library) are
 * foreign; identifiers are opaque numbers here and the textual forms used by
 * the WebSocket messages are plain strings.
 */
module Uuids {

  /** An identifier; only equality between identifiers matters. */
  type Uuid = nat

  /** The all-zero identifier. */
  const NIL: Uuid := 0

  /** The textual form of the nil identifier. */
  const NIL_TEXT: string := "00000000-0000-0000-0000-000000000000"
}
