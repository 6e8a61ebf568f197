/** C strings: the character past the end reads as NUL. */
module CStrings {
  const NUL: char := '\0'

  function CharAt(s: string, i: nat): char {
    if i < |s| then s[i] else NUL
  }
}
