/** 32-byte hashes; a `char` is one byte. */
module Hashes {
  type Key = k: string | |k| == 32 witness seq(32, i => '0')

  /** Any function from byte strings to 32 bytes, BLAKE3 among them. */
  type Hash = string -> Key
}
