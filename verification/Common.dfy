/** Notions shared by every component: optional values, bounded prefixes and C strings. */
module Common {

  datatype Option<+T> = None | Some(value: T)

  const NUL := '\0'
  const CR := '\r'
  const LF := '\n'

  /** What a `const char *` denotes: the characters before the terminating NUL. */
  type CString = s: string | NUL !in s witness ""

  /** The first n elements of s, or all of s when it is shorter. */
  function Take<T>(s: seq<T>, n: nat): seq<T> {
    if |s| <= n then s else s[..n]
  }

  /** The C string held by a character buffer: its content up to the first NUL. */
  function CStr(buf: string): (r: CString)
    ensures r <= buf
    ensures |r| < |buf| ==> buf[|r|] == NUL
  {
    if buf == [] || buf[0] == NUL then [] else [buf[0]] + CStr(buf[1..])
  }

  /** A buffer without NUL is its own C string. */
  lemma {:induction false} CStrWhole(s: CString)
    ensures CStr(s) == s
  {
    if s != "" {
      CStrWhole(s[1..]);
    }
  }

  /** Truncating twice to the same bound, the second time after appending, is truncating once. */
  lemma TakeAppend<T>(s: seq<T>, t: seq<T>, n: nat)
    ensures Take(Take(s, n) + t, n) == Take(s + t, n)
  {
  }
}
