/**
 * The executable part of the OpenGL backend's common header: translation of
 * GL error codes to their names, draining of the driver's error queue into
 * log records, probing for a GL extension, and the initial value of the
 * window shader's program descriptor.
 *
 * The driver itself (glGetError, glGetIntegerv(GL_NUM_EXTENSIONS),
 * glGetStringi(GL_EXTENSIONS, i)) is foreign code; it is modelled by the
 * state of a GlDriver object that those calls read or consume.
 */
module GlCommon {
  import opened Wrappers
  import opened Log

  /** GLenum and GLuint are unsigned 32-bit integers, GLint a signed one. */
  type GLenum = x: int | 0 <= x < 0x1_0000_0000
  type GLuint = x: int | 0 <= x < 0x1_0000_0000
  type GLint = x: int | -0x8000_0000 <= x < 0x8000_0000

  // The error codes of <GL/gl.h> and <GL/glext.h>.
  const GL_NO_ERROR: GLenum := 0
  const GL_INVALID_ENUM: GLenum := 0x0500
  const GL_INVALID_VALUE: GLenum := 0x0501
  const GL_INVALID_OPERATION: GLenum := 0x0502
  const GL_STACK_OVERFLOW: GLenum := 0x0503
  const GL_STACK_UNDERFLOW: GLenum := 0x0504
  const GL_OUT_OF_MEMORY: GLenum := 0x0505
  const GL_INVALID_FRAMEBUFFER_OPERATION: GLenum := 0x0506

  /**
   * The eight error codes the header knows by name, each with its numeric
   * value and the identifier that CASESTRRET stringifies.
   */
  datatype GlError =
    | NoError
    | InvalidEnum
    | InvalidValue
    | InvalidOperation
    | InvalidFramebufferOperation
    | OutOfMemory
    | StackUnderflow
    | StackOverflow
  {
    function Code(): GLenum {
      match this
      case NoError => GL_NO_ERROR
      case InvalidEnum => GL_INVALID_ENUM
      case InvalidValue => GL_INVALID_VALUE
      case InvalidOperation => GL_INVALID_OPERATION
      case InvalidFramebufferOperation => GL_INVALID_FRAMEBUFFER_OPERATION
      case OutOfMemory => GL_OUT_OF_MEMORY
      case StackUnderflow => GL_STACK_UNDERFLOW
      case StackOverflow => GL_STACK_OVERFLOW
    }

    function Identifier(): string {
      match this
      case NoError => "GL_NO_ERROR"
      case InvalidEnum => "GL_INVALID_ENUM"
      case InvalidValue => "GL_INVALID_VALUE"
      case InvalidOperation => "GL_INVALID_OPERATION"
      case InvalidFramebufferOperation => "GL_INVALID_FRAMEBUFFER_OPERATION"
      case OutOfMemory => "GL_OUT_OF_MEMORY"
      case StackUnderflow => "GL_STACK_UNDERFLOW"
      case StackOverflow => "GL_STACK_OVERFLOW"
    }
  }

  /**
   * gl_get_err_str: the name of a known error code, None (NULL) for any
   * other code.
   */
  function ErrStr(err: GLenum): (r: Option<string>)
    ensures forall k: GlError :: k.Code() == err ==> r == Some(k.Identifier())
    ensures r.None? <==> err !in {GL_NO_ERROR, GL_INVALID_ENUM, GL_INVALID_VALUE, GL_INVALID_OPERATION,
                                  GL_INVALID_FRAMEBUFFER_OPERATION, GL_OUT_OF_MEMORY,
                                  GL_STACK_UNDERFLOW, GL_STACK_OVERFLOW}
  {
    if err == GL_NO_ERROR then Some("GL_NO_ERROR")
    else if err == GL_INVALID_ENUM then Some("GL_INVALID_ENUM")
    else if err == GL_INVALID_VALUE then Some("GL_INVALID_VALUE")
    else if err == GL_INVALID_OPERATION then Some("GL_INVALID_OPERATION")
    else if err == GL_INVALID_FRAMEBUFFER_OPERATION then Some("GL_INVALID_FRAMEBUFFER_OPERATION")
    else if err == GL_OUT_OF_MEMORY then Some("GL_OUT_OF_MEMORY")
    else if err == GL_STACK_UNDERFLOW then Some("GL_STACK_UNDERFLOW")
    else if err == GL_STACK_OVERFLOW then Some("GL_STACK_OVERFLOW")
    else None
  }

  /** ErrStr names exactly the eight known codes and no other code. */
  lemma ErrStrNamesExactlyTheKnownCodes(err: GLenum)
    ensures ErrStr(err).Some? <==> exists k: GlError :: k.Code() == err
  {
    if err == GL_NO_ERROR { assert NoError.Code() == err; }
    else if err == GL_INVALID_ENUM { assert InvalidEnum.Code() == err; }
    else if err == GL_INVALID_VALUE { assert InvalidValue.Code() == err; }
    else if err == GL_INVALID_OPERATION { assert InvalidOperation.Code() == err; }
    else if err == GL_INVALID_FRAMEBUFFER_OPERATION { assert InvalidFramebufferOperation.Code() == err; }
    else if err == GL_OUT_OF_MEMORY { assert OutOfMemory.Code() == err; }
    else if err == GL_STACK_UNDERFLOW { assert StackUnderflow.Code() == err; }
    else if err == GL_STACK_OVERFLOW { assert StackOverflow.Code() == err; }
  }

  /** Distinct codes never share a name: a name identifies its code. */
  lemma ErrStrInjective(a: GLenum, b: GLenum)
    requires ErrStr(a).Some? && ErrStr(a) == ErrStr(b)
    ensures a == b
  {
  }

  /**
   * The value that printf's "%d" shows for an unsigned GLenum: the same 32
   * bits read as a two's-complement int.
   */
  function AsPrintedInt(err: GLenum): (v: int)
    ensures -0x8000_0000 <= v < 0x8000_0000
    ensures v % 0x1_0000_0000 == err
  {
    if err < 0x8000_0000 then err else err - 0x1_0000_0000
  }

  /** The log record gl_check_err_ writes for one drained code. */
  function ReportOf(err: GLenum, func: string, line: int): Record
  {
    match ErrStr(err)
    case Some(text) => Record(Error, func, GlxError(line, text))
    case None => Record(Error, func, GlxErrorCode(line, AsPrintedInt(err)))
  }

  /**
   * The code a record of gl_check_err_ reports, read back from the record
   * alone: a name is looked up among the known errors, a number is taken
   * modulo 2^32.
   */
  ghost function ReportedCode(m: Message): Option<GLenum>
  {
    match m
    case GlxError(_, text) =>
      if exists k: GlError :: k.Identifier() == text
      then var k: GlError :| k.Identifier() == text; Some(k.Code())
      else None
    case GlxErrorCode(_, code) => Some(code % 0x1_0000_0000)
    case _ => None
  }

  /**
   * Every record is error-level, carries the caller's function name and line,
   * and loses nothing: the reported code can be recovered from it.
   */
  lemma ReportOfRoundTrip(err: GLenum, func: string, line: int)
    ensures ReportOf(err, func, line).level == Error
    ensures ReportOf(err, func, line).func == func
    ensures ReportOf(err, func, line).msg.GlxError? || ReportOf(err, func, line).msg.GlxErrorCode?
    ensures ReportOf(err, func, line).msg.line == line
    ensures ReportOf(err, func, line).msg.GlxError? <==> ErrStr(err).Some?
    ensures ReportedCode(ReportOf(err, func, line).msg) == Some(err)
  {
    if ErrStr(err).Some? {
      var k: GlError :| k.Code() == err;
      assert ReportOf(err, func, line).msg == GlxError(line, k.Identifier());
    }
  }

  /**
   * The number of queue entries in front of the first GL_NO_ERROR (all of
   * them when there is none): the codes one drain reports.
   */
  function Pending(q: seq<GLenum>): (n: nat)
    ensures n <= |q|
    ensures forall j :: 0 <= j < n ==> q[j] != GL_NO_ERROR
    ensures n < |q| ==> q[n] == GL_NO_ERROR
  {
    if q == [] || q[0] == GL_NO_ERROR then 0 else 1 + Pending(q[1..])
  }

  /** The records one drain of queue q writes, in drain order. */
  function DrainRecords(q: seq<GLenum>, func: string, line: int): seq<Record>
  {
    seq(Pending(q), i requires 0 <= i < Pending(q) => ReportOf(q[i], func, line))
  }

  /** The queue left after one drain: everything behind the first GL_NO_ERROR. */
  function AfterDrain(q: seq<GLenum>): seq<GLenum>
  {
    if Pending(q) < |q| then q[Pending(q) + 1..] else []
  }

  /**
   * What one drain logs: exactly one error record per code in front of the
   * first GL_NO_ERROR, in queue order, each naming the caller's line and
   * recoverable to its code; GL_NO_ERROR itself is never reported.
   */
  lemma DrainRecordsReportEachCode(q: seq<GLenum>, func: string, line: int, i: nat)
    requires i < |DrainRecords(q, func, line)|
    ensures i < |q| && q[i] != GL_NO_ERROR
    ensures DrainRecords(q, func, line)[i].level == Error
    ensures DrainRecords(q, func, line)[i].func == func
    ensures DrainRecords(q, func, line)[i].msg.line == line
    ensures ReportedCode(DrainRecords(q, func, line)[i].msg) == Some(q[i])
    ensures DrainRecords(q, func, line)[i].msg != GlxError(line, "GL_NO_ERROR")
  {
    ReportOfRoundTrip(q[i], func, line);
    if DrainRecords(q, func, line)[i].msg == GlxError(line, "GL_NO_ERROR") {
      assert ErrStr(q[i]) == ErrStr(GL_NO_ERROR);
      ErrStrInjective(q[i], GL_NO_ERROR);
      assert false;
    }
  }

  /**
   * What one drain consumes: the queue splits into the reported codes, the
   * first GL_NO_ERROR and the untouched rest; without a GL_NO_ERROR every
   * entry is reported and the queue ends up empty.
   */
  lemma DrainSplitsQueue(q: seq<GLenum>, func: string, line: int)
    ensures GL_NO_ERROR !in q ==> |DrainRecords(q, func, line)| == |q| && AfterDrain(q) == []
    ensures GL_NO_ERROR in q ==>
      q == q[..|DrainRecords(q, func, line)|] + [GL_NO_ERROR] + AfterDrain(q)
  {
  }

  /**
   * The driver side that the header's inline functions talk to: the queue of
   * pending error codes, the extension count it reports and the extension
   * strings it serves by index.
   */
  class GlDriver {
    var errorQueue: seq<GLenum>
    var numExtensions: GLint
    var extensions: seq<string>

    /** The driver serves a string for every index below the count it reports. */
    ghost predicate Valid()
      reads this
    {
      numExtensions <= |extensions|
    }

    /** The entries gl_has_extension may consult: indices 0 <= i < nexts. */
    function Listed(): (s: seq<string>)
      reads this
      requires Valid()
    {
      extensions[..if numExtensions < 0 then 0 else numExtensions]
    }

    /** glGetError: the oldest pending code, or GL_NO_ERROR when none is pending. */
    method GetError() returns (err: GLenum)
      modifies this`errorQueue
      ensures old(errorQueue) == [] ==> err == GL_NO_ERROR && errorQueue == []
      ensures old(errorQueue) != [] ==> err == old(errorQueue)[0] && errorQueue == old(errorQueue)[1..]
    {
      if errorQueue == [] {
        err := GL_NO_ERROR;
      } else {
        err := errorQueue[0];
        errorQueue := errorQueue[1..];
      }
    }

    /** glGetStringi(GL_EXTENSIONS, i) for an index below the reported count. */
    method GetStringi(i: int) returns (s: string)
      requires Valid() && 0 <= i < numExtensions
      ensures s == extensions[i]
    {
      s := extensions[i];
    }
  }

  /**
   * gl_check_err_: pop codes until the driver yields GL_NO_ERROR and log one
   * error record per popped code, by name when ErrStr knows it and by number
   * otherwise.
   */
  method CheckErr(drv: GlDriver, func: string, line: int) returns (logged: seq<Record>)
    modifies drv`errorQueue
    ensures logged == DrainRecords(old(drv.errorQueue), func, line)
    ensures drv.errorQueue == AfterDrain(old(drv.errorQueue))
  {
    ghost var q := drv.errorQueue;
    ghost var n: nat := 0;
    logged := [];
    while true
      invariant n <= |q| && drv.errorQueue == q[n..]
      invariant forall j :: 0 <= j < n ==> q[j] != GL_NO_ERROR
      invariant |logged| == n
      invariant forall j :: 0 <= j < n ==> logged[j] == ReportOf(q[j], func, line)
      decreases |drv.errorQueue|
    {
      var err := drv.GetError();
      if err == GL_NO_ERROR {
        assert n == Pending(q);
        break;
      }
      var errtext := ErrStr(err);
      if errtext.Some? {
        logged := logged + [Record(Error, func, GlxError(line, errtext.value))];
      } else {
        logged := logged + [Record(Error, func, GlxErrorCode(line, AsPrintedInt(err)))];
      }
      n := n + 1;
    }
  }

  /** The first index of x in s, if any. */
  function IndexOf(s: seq<string>, x: string): (r: Option<nat>)
    ensures r.Some? ==> r.value < |s| && s[r.value] == x
    ensures r.Some? ==> forall j :: 0 <= j < r.value ==> s[j] != x
    ensures r.None? <==> forall j :: 0 <= j < |s| ==> s[j] != x
  {
    if s == [] then None
    else if s[0] == x then Some(0)
    else match IndexOf(s[1..], x)
      case None => None
      case Some(i) => Some(i + 1)
  }

  /**
   * gl_has_extension: an exact, first-match search of the driver's extension
   * list. A reported count of zero is logged as an error and consults no
   * entry; a miss otherwise is logged as one "Missing" info record. The ghost
   * result counts the glGetStringi calls made.
   */
  method HasExtension(drv: GlDriver, ext: string) returns (found: bool, logged: seq<Record>, ghost probed: nat)
    requires drv.Valid()
    ensures found <==> exists i :: 0 <= i < drv.numExtensions && drv.extensions[i] == ext
    ensures found ==> IndexOf(drv.Listed(), ext) == Some(probed - 1) && logged == []
    ensures !found ==> probed == |drv.Listed()|
    ensures drv.numExtensions == 0 ==>
      logged == [Record(Error, "gl_has_extension", ExtensionListUnavailable)]
    ensures drv.numExtensions != 0 && !found ==>
      logged == [Record(Info, "gl_has_extension", ExtensionMissing(ext))]
  {
    var nexts := drv.numExtensions;
    if nexts == 0 {
      return false, [Record(Error, "gl_has_extension", ExtensionListUnavailable)], 0;
    }
    probed := 0;
    var i := 0;
    while i < nexts
      invariant 0 <= i <= (if nexts < 0 then 0 else nexts)
      invariant probed == i
      invariant forall j :: 0 <= j < i ==> drv.extensions[j] != ext
    {
      var exti := drv.GetStringi(i);
      probed := probed + 1;
      if ext == exti {
        assert drv.Listed()[i] == ext;
        assert IndexOf(drv.Listed(), ext) == Some(i);
        return true, [], probed;
      }
      i := i + 1;
    }
    return false, [Record(Info, "gl_has_extension", ExtensionMissing(ext))], probed;
  }

  /** Program and uniform locations of the window shader (gl_win_shader_t). */
  datatype WinShader = WinShader(prog: GLuint, unifmOpacity: GLint, unifmInvertColor: GLint, unifmTex: GLint)

  /**
   * A uniform location: -1 means the uniform is absent. The model reads any
   * negative location that way; -1 is the only one GL hands out.
   */
  function UniformLocation(loc: GLint): Option<nat>
  {
    if loc < 0 then None else Some(loc)
  }

  /**
   * GL_PROG_MAIN_INIT: no program object yet, and all three uniform
   * locations read as absent.
   */
  function ProgMainInit(): (s: WinShader)
    ensures s.prog == 0
    ensures s.unifmOpacity == -1 && s.unifmInvertColor == -1 && s.unifmTex == -1
    ensures UniformLocation(s.unifmOpacity) == None
    ensures UniformLocation(s.unifmInvertColor) == None
    ensures UniformLocation(s.unifmTex) == None
  {
    WinShader(0, -1, -1, -1)
  }
}
