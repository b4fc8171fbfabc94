/** The delivery channels of publish and subscribe. */
module Channels {

  /** How many messages a subscriber's channel buffers. */
  const BUFFER_SIZE: nat := 64
}
