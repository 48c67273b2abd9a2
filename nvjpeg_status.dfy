/** Text for nvJPEG status codes, used by the decoder's diagnostics. */
module NvjpegStatus {

  /** Messages for status codes 0 to 8, in code order. */
  const Messages: seq<string> := [
    "Success",
    "Not initialized",
    "Invalid parameter",
    "Bad jpeg",
    "Jpeg not supported",
    "Allocator failure",
    "Execution failed",
    "Arch mismatch",
    "Internal error"
  ]

  const UnknownError: string := "Unknown error"

  /** nvjpeg_strerro: a bounds-checked lookup in the message table. */
  function StatusMessage(status: int): (m: string)
    ensures m in Messages || m == UnknownError
  {
    if 0 <= status < |Messages| then Messages[status] else UnknownError
  }

  /** A code inside the table gets its own entry; any other code, negative
      or past the end, gets "Unknown error", and no code inside the table
      does. */
  lemma StatusMessageLookup(status: int)
    ensures 0 <= status < 9 ==> StatusMessage(status) == Messages[status]
    ensures StatusMessage(status) == UnknownError <==> !(0 <= status < 9)
  {
  }

  /** Different codes inside the table get different messages, so the
      message identifies the code. */
  lemma StatusMessageInjective(a: int, b: int)
    requires 0 <= a < 9 && 0 <= b < 9
    requires StatusMessage(a) == StatusMessage(b)
    ensures a == b
  {
  }
}
