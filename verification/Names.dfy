/** How a callback name crosses the boundary: Go copies the bytes of its string and appends a
    NUL (go/callback.go), Rust scans to the first NUL and checks UTF-8 (rust/src/types.rs). */
module Names {
  import opened Wrappers
  import opened Machine
  import opened Errors
  import Utf8

  type Name = seq<byte>

  /** What `CStr::from_ptr` sees of a memory area: the bytes before the first NUL. */
  function NulPrefix(s: seq<byte>): (p: seq<byte>)
    ensures p <= s && 0 !in p
    ensures |p| < |s| ==> s[|p|] == 0
  {
    if s == [] || s[0] == 0 then [] else [s[0]] + NulPrefix(s[1..])
  }

  /** The memory `C.CString` builds for a Go string. */
  function CString(goName: seq<byte>): seq<byte> {
    goName + [0]
  }

  /** `cstr_to_string`; the pointer is null or points at NUL-terminated memory. */
  function CstrToString(raw: Option<seq<byte>>): Result<Name, FfiError> {
    match raw
    case None => Err(NullPtr)
    case Some(memory) =>
      var s := NulPrefix(memory);
      if Utf8.Valid(s) then Ok(s) else Err(BadUtf8(Ascii("utf-8")))
  }

  /** The name Rust looks up for a Go string. */
  function GoName(goName: seq<byte>): Result<Name, FfiError> {
    CstrToString(Some(CString(goName)))
  }

  lemma {:induction false} PrefixOfCString(s: seq<byte>)
    ensures NulPrefix(CString(s)) == NulPrefix(s)
  {
    if s != [] && s[0] != 0 {
      assert CString(s)[1..] == CString(s[1..]);
      PrefixOfCString(s[1..]);
    }
  }

  lemma NameIsPrefix(s: seq<byte>)
    ensures GoName(s).Ok? <==> Utf8.Valid(NulPrefix(s))
    ensures GoName(s).Ok? ==> GoName(s).value == NulPrefix(s)
    ensures GoName(s).Err? ==> Code(GoName(s).error) == InvalidUtf8
  {
    PrefixOfCString(s);
  }

  /** Rust looks up the longest NUL-free prefix of the Go string, whatever follows it, and
      rejects the name exactly when that prefix is not UTF-8. */
  lemma LookupIsPrefix(s: seq<byte>)
    ensures GoName(s).Ok? <==> Utf8.Valid(NulPrefix(s))
    ensures GoName(s).Ok? ==> GoName(s).value == NulPrefix(s)
    ensures GoName(s).Err? ==> Code(GoName(s).error) == InvalidUtf8
    ensures forall n: nat :: n <= |s| && 0 !in s[..n] ==> s[..n] <= NulPrefix(s)
  {
    var k := |NulPrefix(s)|;
    NameIsPrefix(s);
    assert forall n: nat :: k < n <= |s| ==> s[..n][k] == s[k];
  }

  /** Two Go names reach the same entry exactly when they agree up to their first NUL. */
  lemma SameEntryIff(s: seq<byte>, t: seq<byte>)
    requires GoName(s).Ok? && GoName(t).Ok?
    ensures GoName(s).value == GoName(t).value <==> NulPrefix(s) == NulPrefix(t)
  {
    NameIsPrefix(s);
    NameIsPrefix(t);
  }

  /** A Go string is valid UTF-8 exactly when its name part and the part after the first NUL
      both are; so a valid string is never rejected as a name. */
  lemma ValidNamesAreAccepted(s: seq<byte>)
    ensures var p := NulPrefix(s);
      Utf8.Valid(s) <==> GoName(s).Ok? && (|p| < |s| ==> Utf8.Valid(s[|p| + 1..]))
  {
    var p := NulPrefix(s);
    NameIsPrefix(s);
    if |p| < |s| {
      SplitAt(s, p, s[|p| + 1..]);
    } else {
      assert s == p;
    }
  }

  lemma SplitAt(s: seq<byte>, p: seq<byte>, rest: seq<byte>)
    requires |p| < |s| && p == s[..|p|] && s[|p|] == 0 && rest == s[|p| + 1..]
    ensures Utf8.Valid(s) <==> Utf8.Valid(p) && Utf8.Valid(rest)
  {
    assert s == p + [0] + rest;
    Utf8.ValidSplitsAtNul(p, rest);
  }

  /** The converse of acceptance fails: bytes after a NUL are never looked at. */
  lemma InvalidStringAccepted()
    ensures !Utf8.Valid([0x61, 0, 0xFF]) && GoName([0x61, 0, 0xFF]) == Ok([0x61])
  {
    var s: seq<byte> := [0x61, 0, 0xFF];
    assert NulPrefix(s[1..]) == [];
    assert NulPrefix(s) == [0x61];
    LookupIsPrefix(s);
    assert Utf8.CharLen([0x61]) == 1 && Utf8.Valid([0x61 as byte][1..]);
    assert s[1..][1..] == [0xFF] && Utf8.CharLen([0xFF]) == 0;
    assert Utf8.CharLen(s[1..]) == 1 && !Utf8.Valid(s[1..]);
  }
}
