/**
 * The helpers of the single-file revision in src/lib.rs: the `try_alloc!`
 * macro and the private `util` module. This revision reports errors with
 * the binding's own `Error` (see src/error.rs), and it reads native return
 * codes differently from src/util.rs: only 0 is success.
 */
module LegacyUtil {
  import opened Sys
  import Util
  import opened Errors

  /** `try_alloc!`: a null pointer returns `NoMem` from the enclosing function; any other is passed on. */
  function TryAlloc<P>(ptr: Option<P>): (r: Result<P, Error>)
    ensures r.Err? <==> ptr.None?
    ensures r.Err? ==> Kind(r.error) == NoMem
    ensures r.Ok? ==> r.value == ptr.value
  {
    match ptr
    case None => Err(New(NoMem))
    case Some(p) => Ok(p)
  }

  /** `util::errno_to_result` of this revision: 0 is success, any other code goes through `from_errno`. */
  function ErrnoToResult(errno: CInt): (r: Result<Unit, Error>)
    ensures r.Ok? <==> errno == 0
    ensures r.Err? ==> r.error == FromErrno(errno)
  {
    if errno == 0 then Ok(Unit) else Err(FromErrno(errno))
  }

  /**
   * The two revisions disagree exactly on positive codes: src/util.rs calls
   * them success, this revision an error. On every other code both agree,
   * and a failure names the same errno in both.
   */
  lemma ErrnoRevisions(errno: CInt)
    ensures ErrnoToResult(errno).Ok? != Util.ErrnoToResult(errno).Ok? <==> errno > 0
    ensures errno < 0 ==> Util.ErrnoToResult(errno) == Err(Util.Os(StrerrorErrno(ErrnoToResult(errno).error)))
  {
  }

  /** `util::os_str_to_cstring` of this revision: a NUL byte is `InvalidInput`. */
  function OsStrToCString(s: Bytes): (r: Result<Util.CString, Error>)
    ensures r.Ok? <==> NUL !in s
    ensures r.Ok? ==> r.value == s
    ensures r.Err? ==> Kind(r.error) == InvalidInput
  {
    match Util.OsStrToCString(s)
    case Ok(c) => Ok(c)
    case Err(_) => Err(New(InvalidInput))
  }

  /**
   * Both revisions accept the same strings, unchanged, and reject the same;
   * the rejection is EINVAL in one and, read through `from_errno`, the
   * `InvalidInput` of the other.
   */
  lemma OsStrRevisions(s: Bytes)
    ensures OsStrToCString(s).Ok? <==> Util.OsStrToCString(s).Ok?
    ensures OsStrToCString(s).Ok? ==> OsStrToCString(s).value == Util.OsStrToCString(s).value
    ensures OsStrToCString(s).Err? ==> OsStrToCString(s).error == FromErrno(-Util.OsStrToCString(s).error.code)
  {
  }

  /** `util::ptr_to_os_str_unchecked` of this revision: `strlen` bytes from the pointer. */
  function PtrToOsStrUnchecked(p: CPtr): (r: Bytes)
    requires p.At?
    ensures |r| == Strlen(p.mem) && r == p.mem[..|r|]
  {
    p.mem[..Strlen(p.mem)]
  }

  /** `util::ptr_to_os_str` of this revision: nothing exactly for the null pointer. */
  function PtrToOsStr(p: CPtr): (r: Option<Bytes>)
    ensures r.None? <==> p.Null?
    ensures r.Some? ==> NUL !in r.value && r.value == PtrToOsStrUnchecked(p)
  {
    if !p.Null? then Some(PtrToOsStrUnchecked(p)) else None
  }

  /** It reads every pointer as src/util.rs does. */
  lemma PtrRevisions(p: CPtr)
    ensures PtrToOsStr(p) == Util.PtrToOsStr(p)
  {
  }
}
