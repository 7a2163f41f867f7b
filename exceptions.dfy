/**
 * The exception hierarchy of src/exceptions/exceptions.hpp: every exception
 * carries one message, "Docgen encountered a problem: " followed by a text
 * that each subclass composes from its arguments. `strerror` is a C library
 * call and `errno` global state, so both are parameters here.
 */
module Exceptions {
  import opened CStrings

  const Prefix: string := "Docgen encountered a problem: "
  const ControlFlowPrefix: string := "control flow error: "
  /** ENOENT as defined by Linux's <errno.h>. */
  const ENOENT: int := 2

  datatype Exception =
    | Base(msg: string)                        // exception(msg)
    | SystemError(msg: string, errnum: int)    // system_error(msg, errnum); the one-argument form passes errno
    | ControlFlowError(msg: string)            // control_flow_error(msg)
    | FileOpenError(path: string, errnum: int) // file_open_error(path, errnum); the one-argument form passes errno
    | FileExistError(path: string)             // file_exist_error(path)
    | BadFile(path: string)                    // bad_file(path)
    | BadSource                                // bad_source()
    | BadFlags                                 // bad_flags()

  const BadFileSuffix: string := "\" is not a regular file"
  const BadSourceText: string :=
    "no pertinent information " + "was parsed; please " + "ensure your files follow " + "Docgen formatting guidelines"

  /** `system_error` appends ": " and the error's description. */
  function SystemDetail(msg: string, errnum: int, strerror: int -> string): string
  {
    msg + ": " + strerror(errnum)
  }

  /** `file_open_error` names the path in quotes and delegates to `system_error`. */
  function FileOpenDetail(path: string, errnum: int, strerror: int -> string): string
  {
    SystemDetail("failed to open file at path \"" + path + "\"", errnum, strerror)
  }

  /** The text each constructor hands to the base `exception` constructor. */
  function Detail(e: Exception, strerror: int -> string): string
  {
    match e
    case Base(msg) => msg
    case SystemError(msg, errnum) => SystemDetail(msg, errnum, strerror)
    case ControlFlowError(msg) => ControlFlowPrefix + msg
    case FileOpenError(path, errnum) => FileOpenDetail(path, errnum, strerror)
    case FileExistError(path) => FileOpenDetail(path, ENOENT, strerror)
    case BadFile(path) => "\"" + path + BadFileSuffix
    case BadSource => BadSourceText
    case BadFlags => "bad flags"
  }

  /** The stored `msg_`. */
  function Message(e: Exception, strerror: int -> string): string
  {
    Prefix + Detail(e, strerror)
  }

  /** `what()`: the stored message as a C string. */
  function What(e: Exception, strerror: int -> string): (r: string)
    ensures r <= Message(e, strerror)
    ensures Prefix <= r
  {
    CStrAppend(Prefix, Detail(e, strerror));
    CStr(Message(e, strerror))
  }

  /** Every message is the fixed prefix followed by the composed text, cut at the first NUL. */
  lemma WhatIsPrefixed(e: Exception, strerror: int -> string)
    ensures What(e, strerror) == Prefix + CStr(Detail(e, strerror))
  {
    CStrAppend(Prefix, Detail(e, strerror));
  }

  /** The base exception reports exactly its message, so distinct messages give distinct reports. */
  lemma BaseWhat(msg: string, other: string, strerror: int -> string)
    requires NUL !in msg && NUL !in other
    ensures What(Base(msg), strerror) == Prefix + msg
    ensures What(Base(msg), strerror) == What(Base(other), strerror) ==> msg == other
  {
    WhatIsPrefixed(Base(msg), strerror);
    WhatIsPrefixed(Base(other), strerror);
    if What(Base(msg), strerror) == What(Base(other), strerror) {
      assert msg == (Prefix + msg)[|Prefix|..];
      assert other == (Prefix + other)[|Prefix|..];
    }
  }

  lemma ControlFlowWhat(msg: string, strerror: int -> string)
    requires NUL !in msg
    ensures What(ControlFlowError(msg), strerror) == Prefix + "control flow error: " + msg
  {
    WhatIsPrefixed(ControlFlowError(msg), strerror);
    assert NUL !in ControlFlowPrefix;
    assert NUL !in ControlFlowPrefix + msg;
    assert Prefix + (ControlFlowPrefix + msg) == Prefix + ControlFlowPrefix + msg;
  }

  lemma SystemErrorWhat(msg: string, errnum: int, strerror: int -> string)
    requires NUL !in msg && NUL !in strerror(errnum)
    ensures What(SystemError(msg, errnum), strerror) == Prefix + msg + ": " + strerror(errnum)
  {
    WhatIsPrefixed(SystemError(msg, errnum), strerror);
    assert NUL !in msg + ": " + strerror(errnum);
  }

  /** `file_exist_error` is `file_open_error` with ENOENT, whatever errno holds. */
  lemma FileExistUsesEnoent(path: string, strerror: int -> string)
    requires NUL !in path && NUL !in strerror(ENOENT)
    ensures What(FileExistError(path), strerror) == What(FileOpenError(path, ENOENT), strerror)
    ensures What(FileExistError(path), strerror)
         == Prefix + "failed to open file at path \"" + path + "\": " + strerror(ENOENT)
  {
    var lead := "failed to open file at path \"";
    var quoted := lead + path + "\"";
    assert NUL !in lead;
    assert NUL !in quoted;
    SystemErrorWhat(quoted, ENOENT, strerror);
    assert "\"" + ": " == "\": ";
    assert Prefix + quoted + ": " + strerror(ENOENT) == Prefix + lead + path + ("\"" + ": ") + strerror(ENOENT);
  }

  lemma BadFileWhat(path: string, strerror: int -> string)
    requires NUL !in path
    ensures What(BadFile(path), strerror) == Prefix + "\"" + path + BadFileSuffix
  {
    WhatIsPrefixed(BadFile(path), strerror);
    assert NUL !in BadFileSuffix;
    assert NUL !in "\"" + path + BadFileSuffix;
    assert Prefix + ("\"" + path + BadFileSuffix) == Prefix + "\"" + path + BadFileSuffix;
  }

  lemma FixedWhats(strerror: int -> string)
    ensures What(BadFlags, strerror) == "Docgen encountered a problem: bad flags"
    ensures What(BadSource, strerror) == Prefix + BadSourceText
  {
    WhatIsPrefixed(BadFlags, strerror);
    WhatIsPrefixed(BadSource, strerror);
    FixedPlain();
  }

  // NUL-freeness of the fixed message literals, one small lemma per piece
  // so that each literal is unfolded on its own.

  lemma FixedPlain()
    ensures NUL !in "bad flags" && NUL !in BadSourceText
  {
    SourceHeadPlain();
    SourceTailPlain();
  }

  lemma SourceHeadPlain()
    ensures NUL !in "no pertinent information " && NUL !in "was parsed; please "
  {
  }

  lemma SourceTailPlain()
    ensures NUL !in "ensure your files follow " && NUL !in "Docgen formatting guidelines"
  {
  }
}
