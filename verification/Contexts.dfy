/** The six contexts an identity is observed in. */
module Contexts {
  datatype Context = Window | Dedicated | Shared | Service | SameOriginFrame | CrossOriginFrame
}
