/** The bound that alleycat.rs puts on a frame and on a line alike. */
module Limits {
  const MAX_FRAME_BYTES: nat := 1024 * 1024
}
