/** The marks of a transfer in chunks, and what an assembler reports for each chunk. */
module Chunks {
  import opened Bytes

  const DATA_START: byte := 1
  const DATA_CHUNK: byte := 2
  const DATA_END: byte := 3

  datatype Progress = Start | NotFinish | Finish | Error
}
