/**
 * `ErrorCode`, the exception value type every error of the program derives
 * from (a std::runtime_error carrying an int code), and its subclasses as tags.
 */
module Errors {
  import opened Bytes

  /** Which subclass of ErrorCode was constructed; the subclasses only forward to ErrorCode. */
  datatype ErrorKind = Generic | Win32 | GdiStartup | EncoderClsId | CaptureScreen

  datatype ErrorCode = ErrorCode(kind: ErrorKind, code: i32, message: string)

  /** Text with no NUL character, as a `const char*` argument is. */
  predicate NoNul(s: string)
  {
    forall i :: 0 <= i < |s| ==> s[i] != '\0'
  }

  /** `strlen`: the number of characters before the first NUL. */
  function CStrLen(s: string): (n: nat)
    ensures n <= |s|
    ensures forall i :: 0 <= i < n ==> s[i] != '\0'
    ensures n < |s| ==> s[n] == '\0'
  {
    if s == [] || s[0] == '\0' then 0 else 1 + CStrLen(s[1..])
  }

  /** The default constructor: code 0 and an empty message. */
  function Default(kind: ErrorKind): (e: ErrorCode)
    ensures e.kind == kind && Code(e) == 0 && What(e) == ""
  {
    ErrorCode(kind, 0, "")
  }

  /**
   * The (code, message) constructors. std::runtime_error keeps the message as
   * a C string, so for a `std::string` holding a NUL, `what()` ends there.
   */
  function Make(kind: ErrorKind, code: i32, message: string): (e: ErrorCode)
    ensures e.kind == kind && Code(e) == code
    ensures What(e) <= message && |What(e)| == CStrLen(message)
    ensures NoNul(message) ==> What(e) == message
  {
    NoNulLength(message);
    ErrorCode(kind, code, message)
  }

  /** `code()`. */
  function Code(e: ErrorCode): i32
  {
    e.code
  }

  /** `what()`: the stored message up to its first NUL. */
  function What(e: ErrorCode): (w: string)
    ensures NoNul(w) && w <= e.message
  {
    e.message[..CStrLen(e.message)]
  }

  /** A string without NUL is its own C string. */
  lemma NoNulLength(s: string)
    ensures NoNul(s) ==> CStrLen(s) == |s|
  {
    if s != [] {
      NoNulLength(s[1..]);
    }
  }

  /** `operator bool`: `code != 0 || strlen(what()) > 0`. */
  function Truthy(e: ErrorCode): (b: bool)
    ensures b <==> e.code != 0 || What(e) != ""
    ensures b <==> e.code != 0 || (e.message != "" && e.message[0] != '\0')
  {
    NoNulLength(What(e));
    e.code != 0 || CStrLen(What(e)) > 0
  }

  /** A `std::string` message "a\0b" reads back from `what()` as "a". */
  lemma EmbeddedNulMessage()
    ensures What(Make(Generic, 0, "a\0b")) == "a"
  {
    assert CStrLen("a\0b") == 1 by {
      assert "a\0b"[1..] == "\0b";
    }
  }

  lemma DefaultIsFalse(kind: ErrorKind)
    ensures !Truthy(Default(kind))
  {
  }

  /** A non-zero code makes the error true whatever its message. */
  lemma NonZeroCodeIsTrue(e: ErrorCode)
    requires e.code != 0
    ensures Truthy(e)
  {
  }

  /** For a message without NUL (the `const char*` constructor), truth is "code or message non-empty". */
  lemma TruthyWithoutNul(e: ErrorCode)
    requires NoNul(e.message)
    ensures Truthy(e) <==> e.code != 0 || e.message != ""
  {
  }
}
