/** The connection verdict for one location or one peer group. */
module Enumerations {

  /**
   * `Unavailable` (the networking stack cannot be used yet) is the first
   * member of the enum and therefore the default value of any field of this type.
   */
  datatype ConnectionState = Unavailable | Connected | Disconnected

  const DefaultConnection: ConnectionState := Unavailable
}
