/**
 * Diagnostic records. Every call to the logger (log_printf, log_error,
 * log_info) and every printf_errf is modelled as one record: its severity,
 * the C function name the macro passes along, and the message with its
 * arguments. Formatting and the thread-local logger are not modelled.
 */
module Log {
  datatype Level = Info | Error

  datatype Message =
    /** "GLX error at line %d: %s" */
    | GlxError(line: int, text: string)
    /** "GLX error at line %d: %d" */
    | GlxErrorCode(line: int, code: int)
    /** "Failed to get GL extension list." */
    | ExtensionListUnavailable
    /** "Missing GL extension %s." */
    | ExtensionMissing(ext: string)
    /** "(\"%s\"): Invalid backend argument." */
    | InvalidBackend(arg: string)
    /** "(\"%s\"): Invalid vsync argument." */
    | InvalidVsync(arg: string)

  datatype Record = Record(level: Level, func: string, msg: Message)
}
