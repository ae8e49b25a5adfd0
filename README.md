# compton GL diagnostics and option parsing, modelled in Dafny

This project models the executable core of two headers of the compton
compositor:

- `src/backend/gl/gl_common.h`: the OpenGL backend's diagnostics.
  `gl_get_err_str` translates a GL error code to its name.
  `gl_check_err_` drains the driver's error queue into error-level log records.
  `gl_has_extension` searches the driver's extension list.
  `GL_PROG_MAIN_INIT` is the initial window-shader descriptor.
- `src/config.h`: `parse_backend` and `parse_vsync`. Each searches a
  NULL-terminated name table, ignoring case, and returns the first match.
  `parse_backend` also accepts two legacy spellings of the hybrid backend.
  Both return the enum's count as a failure sentinel and print an error.

Files:

- `wrappers.dfy` (module `Wrappers`): `Option`, used where the C code returns a string that may be NULL.
- `log.dfy` (module `Log`): one `Record` per logger or `printf_errf` call.
  A record holds the severity, the C function name and the message with its arguments.
- `gl_common.dfy` (module `GlCommon`): the GL types and error constants.
  It also holds the class `GlDriver`, which stands for the driver state that the
  inline functions read or consume, and the operations above.
- `config.dfy` (module `Config`): ASCII case folding and the table search, plus the two parsers.

How the model works:

- Driver calls are operations on a `GlDriver` object; they stand for foreign
  code and are not themselves modelled source operations.
  `glGetError` is `GlDriver.GetError`: it pops the head of `errorQueue`, and on an empty queue it returns `GL_NO_ERROR`.
  `glGetIntegerv(GL_NUM_EXTENSIONS)` reads `numExtensions`.
  `glGetStringi(GL_EXTENSIONS, i)` is `GlDriver.GetStringi`: it returns `extensions[i]` for an index below the reported count.
- Logging is injected. Each operation returns the records it would write, in order, as `logged`.
- `CheckErr` and `HasExtension` are loops that follow the C code.
  They are proved against specification functions: `Pending`, `DrainRecords`, `AfterDrain` and `IndexOf`.
- `ParseBackend` and `ParseVsync` are the counted loops of the C code.
  They are proved against `FirstMatch`, `BackendOf` and `VsyncOf`.
- A name table is a `seq<Option<string>>`; `None` is the NULL terminator.
  `BACKEND_STRS`, `VSYNC_STRS`, `BKEND_XR_GLX_HYBRID`, `NUM_BKEND` and `NUM_VSYNC`
  are defined in `common.h`, which is not part of this model. They are parameters here.

The drain stops at the first `GL_NO_ERROR` that `glGetError` returns; a
queue holding a `GL_NO_ERROR` entry keeps everything behind it
(`DrainSplitsQueue`).

## Model

| member | source | states |
|---|---|---|
| `GlCommon.ErrStr` | src/backend/gl/gl_common.h:122-134 | A code of one of the eight known errors gives that error's identifier ("GL_OUT_OF_MEMORY" for GL_OUT_OF_MEMORY, and so on). A code equal to none of them gives None (NULL). |
| `GlCommon.ErrStrNamesExactlyTheKnownCodes` | src/backend/gl/gl_common.h:122-133 | The result is non-null if and only if the code is one of the eight known errors. |
| `GlCommon.ErrStrInjective` | src/backend/gl/gl_common.h:124-131 | No two codes share a name, so a name identifies its code. |
| `GlCommon.AsPrintedInt` | src/backend/gl/gl_common.h:150-151 | What "%d" prints for an unsigned GLenum. It lies in the signed 32-bit range and equals the code modulo 2^32, so the raw code can be recovered. |
| `GlCommon.ReportOfRoundTrip` | src/backend/gl/gl_common.h:145-152 | The record for one code is error-level and carries the caller's function name and line. It holds the name exactly when `gl_get_err_str` is non-null, and the number otherwise. The code can be recovered from the record alone. |
| `GlCommon.Pending` | src/backend/gl/gl_common.h:144 | Counts the entries in front of the first GL_NO_ERROR: all entries before it are errors, and the entry at that position, if any, is GL_NO_ERROR. |
| `GlCommon.DrainRecordsReportEachCode` | src/backend/gl/gl_common.h:144-153 | Record i of a drain reports queue entry i. That entry is not GL_NO_ERROR. The record is error-level, carries the caller's function name and line, and reports that code. No record reports GL_NO_ERROR. |
| `GlCommon.DrainSplitsQueue` | src/backend/gl/gl_common.h:142-144 | A drain consumes the queue up to and including the first GL_NO_ERROR and leaves the rest untouched. Without a GL_NO_ERROR it reports every entry and empties the queue. |
| `GlCommon.CheckErr` | src/backend/gl/gl_common.h:141-154 | The loop's log is one record per code drained, in drain order. The queue left behind is everything after the first GL_NO_ERROR. The loop always terminates. |
| `GlCommon.IndexOf` | src/backend/gl/gl_common.h:169-173 | The first index whose entry equals the string exactly, or None when no entry does. |
| `GlCommon.HasExtension` | src/backend/gl/gl_common.h:161-176 | The result is true if and only if some i with 0 <= i < nexts has entry i equal to ext. The scan stops at the first match and then logs nothing. nexts == 0 logs one error and consults no entry. Any other miss logs one "Missing" info record. |
| `GlCommon.ProgMainInit` | src/backend/gl/gl_common.h:78-79 | The program is 0, and the opacity, invert_color and tex uniform locations are all -1, so each reads as "absent". |
| `Config.EqualsIgnoreCaseIsFoldEquality` | src/config.h:50 | strcasecmp equality is equality after ASCII lower-casing. |
| `Config.Terminator` | src/config.h:49 | The position of the NULL terminator: every entry in front of it is non-NULL. |
| `Config.FirstMatch` | src/config.h:49-52 | When some entry in front of the terminator equals the argument ignoring case, the result is the smallest such index, which lies below the terminator. Otherwise the result is None. |
| `Config.FirstMatchIgnoresCase` | src/config.h:49-52 | Arguments that differ only in ASCII letter case find the same entry. |
| `Config.FirstMatchIgnoresTail` | src/config.h:49 | Entries at or behind the NULL terminator are never consulted. |
| `Config.ParseBackend` | src/config.h:47-63 | Returns the first matching table index. Failing that, either "xr_glx_hybird" or "xr-glx-hybrid" (any case) gives BKEND_XR_GLX_HYBRID. Otherwise it returns NUM_BKEND and logs one error, and it logs that error only in this case. |
| `Config.ParseBackendSentinel` | src/config.h:49-62 | If NUM_BKEND is the terminator's position and BKEND_XR_GLX_HYBRID is below it, the result is NUM_BKEND exactly when neither the table nor an alias matches. Every other result is below NUM_BKEND. |
| `Config.ParseBackendIgnoresCase` | src/config.h:48-60 | Arguments that differ only in ASCII letter case give the same backend, and the same decision on whether to print an error. |
| `Config.ParseVsync` | src/config.h:68-77 | Returns the first matching table index. Otherwise it returns NUM_VSYNC and logs one error, and it logs that error only in this case. |
| `Config.ParseVsyncSentinel` | src/config.h:70-76 | If NUM_VSYNC is the terminator's position, the result is NUM_VSYNC exactly when no entry matches. A match gives an index below it. |
| `Config.ParseVsyncIgnoresCase` | src/config.h:70-72 | Arguments that differ only in ASCII letter case give the same vsync mode. |

## Left out

- The operations that `src/backend/gl/gl_common.h:81-113` only declares have no bodies in the modelled files, so none of their behaviour is modelled. They are: shader creation and linking, `gl_compose`, `gl_load_prog_main`, `gl_take_screenshot`, `gl_resize`, `glGetUniformLocationChecked`, `gl_init`, `gl_deinit`, `gl_new_texture`, `gl_image_op`, `gl_copy`, `gl_blur` and `gl_is_image_transparent`.
- `gl_delete_texture` is a single foreign call (`glDeleteTextures`) with no logic of its own.
- The structs `gl_blur_shader_t`, `gl_texture_t`, `struct gl_data` and `gl_blur_cache_t` are read and written only by the declared-only operations above. `gl_texture_t.opacity` is also floating point. Only `gl_win_shader_t` (`WinShader`) is modelled, for `GL_PROG_MAIN_INIT`.
- The prototypes at `src/config.h:14-25` have no bodies here: `parse_long`, `parse_matrix_readnum`, `parse_matrix`, `parse_conv_kern`, `parse_conv_kern_lst`, `parse_geometry`, `parse_rule_opacity` and `condlst_add`.
- `open_config_file`, `parse_cfg_condlst` and `parse_config` (`src/config.h:27-42`) do file I/O through libconfig, which is not part of this model. The stub built without libconfig does nothing.
- Logger formatting, the thread-local logger and stderr output are not modelled. Each call is one `Record` in the returned sequence.
- The driver is an abstract state. The GL error mechanism is modelled as a FIFO queue of codes.
- Driver calls other than `glGetError` do not feed the error queue in the model. In GL, a failed `glGetIntegerv(GL_NUM_EXTENSIONS)` (for example on a pre-3.0 context) records `GL_INVALID_ENUM`, which a later `gl_check_err_` would report; `HasExtension` leaves `errorQueue` unchanged.
- `GlCommon.HasExtension` requires the reported count to be at most the number of strings the driver serves. For a larger count, `glGetStringi` would return NULL, and passing NULL to `strcmp` has no defined behaviour.
- Strings are sequences of `char`. The NUL terminator of C strings is not modelled; `strcasecmp` folds only the ASCII capitals, as in the C locale.
