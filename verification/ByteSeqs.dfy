// Bytes and byte strings, shared by the modules of this project.
module ByteSeqs {
  newtype byte = x: int | 0 <= x < 256

  type Bytes = seq<byte>
}
