/**
 The two hash sentinels of the utility package. The hash function itself (SHA-256 over a JSON
 encoding, printed in base64) is not modelled; operations that need it take it as a parameter.
 */
module Utility {
  /** Base64 of 32 zero bytes: 43 'A' characters followed by one '=' of padding. */
  const HashZero: string := "AAAAAAAAAAAAAAAAAAAAAAAAAAAAAAAAAAAAAAAAAAA="

  /** Base64 of the SHA-256 digest of the empty input: the hash of "no block". */
  const HashNull: string := "47DEQpj8HBSa+/TImW+5JCeuQeRkm5NMpJWZG3hSuFU="

  lemma HashZeroShape()
    ensures |HashZero| == 44 && HashZero[43] == '='
    ensures forall i :: 0 <= i < 43 ==> HashZero[i] == 'A'
    ensures |HashNull| == 44 && HashNull[0] != 'A'
  {
  }
}
