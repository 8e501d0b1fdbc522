/** C strings and raw bytes, shared by every component of the game. */
module Bytes {

  datatype Option<+T> = None | Some(value: T)

  function One(b: bool): nat {
    if b then 1 else 0
  }

  /** One byte of memory, written as the character with that code. */
  type Byte = c: char | c as int < 256 witness 'a'

  type Bytes = seq<Byte>

  /** The contents of a C string. */
  type CStr = s: Bytes | '\0' !in s witness []

  /** The C string that starts a buffer: everything before the first NUL. */
  function CString(buffer: Bytes): Bytes {
    buffer[..Strlen(buffer)]
  }

  function Strlen(buffer: Bytes): (n: nat)
    ensures n <= |buffer|
  {
    if buffer == [] || buffer[0] == '\0' then 0 else 1 + Strlen(buffer[1..])
  }

  lemma {:induction false} CStringIs(buffer: Bytes)
    ensures CString(buffer) <= buffer && '\0' !in CString(buffer)
    ensures '\0' !in buffer ==> CString(buffer) == buffer
  {
    if buffer != [] && buffer[0] != '\0' {
      CStringIs(buffer[1..]);
      assert CString(buffer) == [buffer[0]] + CString(buffer[1..]);
    }
  }

  lemma {:induction false} CStringEnds(buffer: Bytes)
    ensures |CString(buffer)| < |buffer| ==> buffer[|CString(buffer)|] == '\0'
  {
    if buffer != [] && buffer[0] != '\0' { CStringEnds(buffer[1..]); }
  }

  /** What `strncpy(dst, s, n)` followed by `dst[n] = 0` leaves in `dst`. */
  function Truncated(s: Bytes, n: nat): (t: Bytes)
    ensures t <= s && |t| == (if |s| <= n then |s| else n) && (|s| <= n ==> t == s)
  {
    if |s| <= n then s else s[..n]
  }
}
