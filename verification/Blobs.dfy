/** The content of blobs. */
module Blobs {
  type Bytes = seq<bv8>
}
