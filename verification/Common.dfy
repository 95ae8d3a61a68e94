/** Small shared definitions. */
module Common {

  datatype Option<+T> = None | Some(value: T)

  /** The contents of a NUL-terminated string. */
  predicate NulFree(s: string) {
    '\0' !in s
  }

  /** The NUL-terminated string at the start of a buffer. */
  function CString(buffer: string): (s: string)
    ensures NulFree(s) && s <= buffer
    ensures NulFree(buffer) ==> s == buffer
  {
    if buffer == "" || buffer[0] == '\0' then "" else [buffer[0]] + CString(buffer[1..])
  }

  /** Reading a NUL-terminated string: the position after the last character holds the terminator. */
  function At(s: string, i: nat): char
    requires i <= |s|
  {
    if i < |s| then s[i] else '\0'
  }
}
