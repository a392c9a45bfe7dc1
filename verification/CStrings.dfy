/** Strings as C sees them: the characters before a terminating NUL. */
module CStrings {

  ghost predicate IsCString(s: string) { '\0' !in s }

  /** The character a pointer `i` places into `s` points to, the terminator past the end. */
  function At(s: string, i: nat): char { if i < |s| then s[i] else '\0' }
}
