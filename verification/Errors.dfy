/** The error taxonomy (rust/src/errors.rs): stable codes and the messages that carry them. */
module Errors {
  import opened Machine

  datatype FfiErrorCode =
    | FfiOk | NullPointer | BufferTooSmall | InvalidUtf8 | Serialization
    | Panic | Timeout | NotFound | LockPoisoned | Unknown

  /** The number that crosses the boundary. */
  function Number(c: FfiErrorCode): int {
    match c
    case FfiOk => 0
    case NullPointer => 1
    case BufferTooSmall => 2
    case InvalidUtf8 => 3
    case Serialization => 4
    case Panic => 5
    case Timeout => 6
    case NotFound => 7
    case LockPoisoned => 8
    case Unknown => 99
  }

  /** The rich error. Details are UTF-8 bytes; the detail of `TooSmall` is its two numbers
      already written out. */
  datatype FfiError =
    | NullPtr
    | TooSmall(detail: seq<byte>)
    | BadUtf8(detail: seq<byte>)
    | BadData(detail: seq<byte>)
    | PanicCaught(detail: seq<byte>)
    | TimedOut
    | Missing(detail: seq<byte>)
    | Poisoned
    | Other(detail: seq<byte>)

  function Code(e: FfiError): FfiErrorCode {
    match e
    case NullPtr => NullPointer
    case TooSmall(_) => BufferTooSmall
    case BadUtf8(_) => InvalidUtf8
    case BadData(_) => Serialization
    case PanicCaught(_) => Panic
    case TimedOut => Timeout
    case Missing(_) => NotFound
    case Poisoned => LockPoisoned
    case Other(_) => Unknown
  }

  function Ascii(s: string): (bytes: seq<byte>)
    ensures |bytes| == |s|
  {
    seq(|s|, i requires 0 <= i < |s| => s[i] as int % 0x80)
  }

  function Message(e: FfiError): (text: seq<byte>)
    ensures text != []
  {
    match e
    case NullPtr => Ascii("null pointer received")
    case TooSmall(d) => Ascii("buffer too small: ") + d
    case BadUtf8(d) => Ascii("invalid UTF-8 in ") + d
    case BadData(d) => Ascii("serialization error: ") + d
    case PanicCaught(d) => Ascii("panic caught at FFI boundary: ") + d
    case TimedOut => Ascii("operation timed out")
    case Missing(d) => Ascii("not found: ") + d
    case Poisoned => Ascii("mutex lock is poisoned")
    case Other(d) => Ascii("unknown error: ") + d
  }

  function CodeName(c: FfiErrorCode): seq<byte> {
    match c
    case FfiOk => Ascii("Ok")
    case NullPointer => Ascii("NullPointer")
    case BufferTooSmall => Ascii("BufferTooSmall")
    case InvalidUtf8 => Ascii("InvalidUtf8")
    case Serialization => Ascii("Serialization")
    case Panic => Ascii("Panic")
    case Timeout => Ascii("Timeout")
    case NotFound => Ascii("NotFound")
    case LockPoisoned => Ascii("LockPoisoned")
    case Unknown => Ascii("Unknown")
  }

  /** Each error crosses the boundary under its own number. */
  lemma ErrorNumbers(e: FfiError)
    ensures Number(Code(e)) ==
      (match e
       case NullPtr => 1
       case TooSmall(_) => 2
       case BadUtf8(_) => 3
       case BadData(_) => 4
       case PanicCaught(_) => 5
       case TimedOut => 6
       case Missing(_) => 7
       case Poisoned => 8
       case Other(_) => 99)
  {
  }

  predicate HasDetail(e: FfiError) {
    !e.NullPtr? && !e.TimedOut? && !e.Poisoned?
  }

  predicate EndsWith(text: seq<byte>, tail: seq<byte>) {
    |tail| <= |text| && text[|text| - |tail|..] == tail
  }

  lemma EndsWithTail(a: seq<byte>, b: seq<byte>)
    ensures EndsWith(a + b, b)
  {
    assert (a + b)[|a|..] == b;
  }

  /** The detail of an error is in its text, to the last byte. */
  lemma MessageEndsWithDetail(e: FfiError)
    requires HasDetail(e)
    ensures EndsWith(Message(e), e.detail) && |e.detail| < |Message(e)|
  {
    match e
    case TooSmall(d) => EndsWithTail(Ascii("buffer too small: "), d);
    case BadUtf8(d) => EndsWithTail(Ascii("invalid UTF-8 in "), d);
    case BadData(d) => EndsWithTail(Ascii("serialization error: "), d);
    case PanicCaught(d) => EndsWithTail(Ascii("panic caught at FFI boundary: "), d);
    case Missing(d) => EndsWithTail(Ascii("not found: "), d);
    case Other(d) => EndsWithTail(Ascii("unknown error: "), d);
  }

  lemma SameDetail(e1: FfiError, e2: FfiError)
    requires HasDetail(e1) && HasDetail(e2) && Code(e1) == Code(e2) && Message(e1) == Message(e2)
    ensures e1 == e2
  {
    MessageEndsWithDetail(e1);
    MessageEndsWithDetail(e2);
    assert |e1.detail| == |e2.detail|;
  }

  /** The first two letters tell the kinds of error apart. */
  lemma KindOfText(e: FfiError)
    ensures var s := Message(e);
      && |s| > 1
      && Code(e) == if s[0] == 'n' as int then (if s[1] == 'u' as int then NullPointer else NotFound)
                    else if s[0] == 'b' as int then BufferTooSmall
                    else if s[0] == 'i' as int then InvalidUtf8
                    else if s[0] == 's' as int then Serialization
                    else if s[0] == 'p' as int then Panic
                    else if s[0] == 'o' as int then Timeout
                    else if s[0] == 'm' as int then LockPoisoned
                    else Unknown
  {
  }

  /** The text alone identifies the error: nothing of it is lost on the way. */
  lemma TextIdentifiesError(e1: FfiError, e2: FfiError)
    ensures Message(e1) == Message(e2) <==> e1 == e2
  {
    KindOfText(e1);
    KindOfText(e2);
    if Message(e1) == Message(e2) && HasDetail(e1) {
      SameDetail(e1, e2);
    }
  }

  /** The name of a code, as it is written into a text, identifies the code. */
  lemma CodeNamesDiffer(c1: FfiErrorCode, c2: FfiErrorCode)
    ensures CodeName(c1) == CodeName(c2) <==> c1 == c2
  {
    if CodeName(c1) == CodeName(c2) {
      CodeOfName(c1);
      CodeOfName(c2);
    }
  }

  /** Length and first letter tell the names apart. */
  lemma CodeOfName(c: FfiErrorCode)
    ensures var s := CodeName(c);
      && s != []
      && c == if |s| == 2 then FfiOk
              else if |s| == 5 then Panic
              else if |s| == 7 then (if s[0] == 'T' as int then Timeout else Unknown)
              else if |s| == 8 then NotFound
              else if |s| == 11 then (if s[0] == 'N' as int then NullPointer else InvalidUtf8)
              else if |s| == 12 then LockPoisoned
              else if |s| == 13 then Serialization
              else BufferTooSmall
  {
  }

  /** No error carries the success code: an error result is never mistaken for a payload. */
  lemma ErrorsAreNotOk(e: FfiError)
    ensures Number(Code(e)) != Number(FfiOk)
  {
  }
}
