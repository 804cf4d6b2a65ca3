/**
 * src/util.rs: the conversions between C strings and Rust byte strings, and
 * the reading of a native return code as a `std::io::Result<()>`.
 */
module Util {
  import opened Sys

  /** A `std::io::Error` as the binding creates them. */
  datatype IoError =
    | Os(code: CInt)   // `io::Error::from_raw_os_error(code)`
    | AllocFailed      // what `try_alloc!` reports when a native constructor returns null

  /** An owned `CString`: bytes with no interior NUL. */
  type CString = b: Bytes | NUL !in b

  /** `CString::as_ptr`: the terminated copy the native side reads. */
  function AsPtr(c: CString): (p: CPtr)
    ensures p.At? && Strlen(p.mem) == |c| && p.mem[..|c|] == c
  {
    At(CStrOf(c))
  }

  /** `ptr_to_os_str_unchecked`: the bytes before the first NUL; the pointer must not be null. */
  function PtrToOsStrUnchecked(p: CPtr): (r: Bytes)
    requires p.At?
    ensures NUL !in r
    ensures |r| < |p.mem| && p.mem[..|r|] == r && p.mem[|r|] == NUL
  {
    p.mem[..Strlen(p.mem)]
  }

  /** `ptr_to_os_str`: nothing for a null pointer, else the C string's bytes. */
  function PtrToOsStr(p: CPtr): (r: Option<Bytes>)
    ensures r.None? <==> p.Null?
    ensures r.Some? ==> p.At? && r.value == PtrToOsStrUnchecked(p)
  {
    if p.Null? then None else Some(PtrToOsStrUnchecked(p))
  }

  /** `os_str_to_cstring`: the same bytes unless one of them is NUL, which is `EINVAL`. */
  function OsStrToCString(s: Bytes): (r: Result<CString, IoError>)
    ensures r.Ok? <==> NUL !in s
    ensures r.Ok? ==> r.value == s
    ensures r.Err? ==> r.error == Os(EINVAL)
  {
    if NUL in s then Err(Os(EINVAL)) else Ok(s)
  }

  /**
   * `errno_to_result`: every non-negative code is success; a negative one is
   * the OS error with the positive code, except that negating `INT_MIN` wraps.
   */
  function ErrnoToResult(errno: CInt): (r: Result<Unit, IoError>)
    ensures r.Ok? <==> errno >= 0
    ensures r.Err? && errno != INT_MIN ==> r.error == Os(-errno) && r.error.code > 0
    ensures r.Err? && errno == INT_MIN ==> r.error == Os(INT_MIN)
  {
    if errno >= 0 then Ok(Unit) else Err(Os(WrappingNeg(errno)))
  }

  /** A string handed to the native side through a `CString` reads back unchanged. */
  lemma CStringRoundTrip(s: Bytes)
    requires NUL !in s
    ensures OsStrToCString(s).Ok?
    ensures PtrToOsStr(AsPtr(OsStrToCString(s).value)) == Some(s)
  {
    var p := AsPtr(s);
    assert PtrToOsStrUnchecked(p) == p.mem[..|s|];
  }

  /** Reading a C string and sending it back gives a pointer to the same string. */
  lemma OsStrRoundTrip(p: CPtr)
    requires p.At?
    ensures OsStrToCString(PtrToOsStrUnchecked(p)).Ok?
    ensures PtrToOsStrUnchecked(AsPtr(OsStrToCString(PtrToOsStrUnchecked(p)).value)) == PtrToOsStrUnchecked(p)
  {
    var s := PtrToOsStrUnchecked(p);
    CStringRoundTrip(s);
  }
}
