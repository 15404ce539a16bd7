# Zephyr ARM Cortex-M fatal-error reporter, modelled in Dafny

This project models the kernel's last-resort fatal-error reporter for ARM
Cortex-M, `arch/arm/core/fatal.c`. It covers three parts:

- **`_default_esf`.** This is the exception stack frame (`NANO_ESF`) that a
  caller passes when it has no hardware-captured frame. Every field holds the
  poison word `0xdeaddead`.
- **The reason classifier.** This is the `switch (reason)` in
  `_NanoFatalErrorHandler`. It maps a fatal reason code to exactly one banner
  line. The five `_NANO_ERR_*` codes are named: invalid task exit, stack check
  failure (only when `CONFIG_STACK_CANARIES` is set), allocation failure,
  kernel oops and kernel panic. Every other code gets a default banner that
  embeds the code.
- **The reporter sequence.** `_NanoFatalErrorHandler` prints the banner, then
  the current thread and the faulting instruction address. Its last action is
  to call the user's policy `_SysFatalErrorHandler(reason, pEsf)`. It returns
  to its caller only when that policy returns. The policy returns only when
  it aborts just the faulting thread and the CPU was in handler mode.

Files:

- `printk_format.dfy` (module `PrintkFormat`): the `%d` and `%x` text the
  reporter asks printk for, and the parsers that read that text back.
- `esf.dfy` (module `Esf`): the frame layout under `CONFIG_FLOAT`, and
  `_default_esf`.
- `classifier.dfy` (module `Classifier`): the switch, the banners, and the
  proofs that a banner determines the reason code.
- `reporter.dfy` (module `Reporter`): the class `Cpu`. Its field `events`
  records what the reporter did, in order: each printed line, then the call
  to the policy.

How the model follows the code, where the two could be read differently:

- **Newlines.** Output is a sequence of lines. Each printk's `\n`-terminated
  text is split at its newlines, and the newlines are dropped.
- **`%x` is unpadded.** The program counter is printed with plain `%x`. That
  gives lower-case hex with no padding: 1 to 8 digits, no leading zero, and
  exactly "0" for the value 0.
- **`%d` is signed.** The default banner prints the `unsigned int` reason
  with `%d`. On this 32-bit target the code is therefore rendered as a signed
  `int`, and codes of 2^31 or more print with a minus sign. The model renders
  it that way (`FormatD`). It also proves that the printed text still
  determines the code, modulo 2^32.
- **Divergence is a value.** The policy may never return. A verified Dafny
  method always terminates, so the outcome is an explicit value
  (`Control.NeverReturns` or `Control.ReturnsToCaller`). The policy's
  decision is a function of `(reason, pEsf)` that the environment supplies.
  Whether the CPU was in handler mode is an argument.
- **Same input, same output.** The reporter's new state is a function of the
  old trace and its arguments. Two calls with the same `(reason, pEsf)` and
  the same current thread therefore append identical output.

## Model

| member | source | states |
|---|---|---|
| `PrintkFormat.Digits` | arch/arm/core/fatal.c:94-99 | The unpadded rendering of `n` in a base from 2 to 16: at least one digit, every character a lower-case digit of that base, exactly "0" for 0, and no leading '0' otherwise |
| `PrintkFormat.DigitsRoundTrip` | arch/arm/core/fatal.c:94-99 | Parsing the unpadded digits of `n` in any base from 2 to 16 gives `n` back |
| `PrintkFormat.DigitsLength` | arch/arm/core/fatal.c:98-99 | A number below base^k renders in at most k digits, which gives the 8-digit ceiling of `%x` on a 32-bit value |
| `PrintkFormat.Hex` | arch/arm/core/fatal.c:98-99 | `%x` of a 32-bit value is 1 to 8 lower-case hex digits that read back to the value. It is exactly "0" for 0 and has no leading '0' otherwise |
| `PrintkFormat.ToInt32` | arch/arm/core/fatal.c:94 | `%d` sees the unsigned code as a signed 32-bit int: congruent to the code modulo 2^32, and negative exactly when the code is 2^31 or more |
| `PrintkFormat.SignedDecimal` | arch/arm/core/fatal.c:94 | The decimal text of a signed int starts with '-' exactly when it is negative. At least one decimal digit follows any '-', every other character is a decimal digit, and the first digit is '0' only for 0 |
| `PrintkFormat.SignedDecimalRoundTrip` | arch/arm/core/fatal.c:94 | Parsing the signed decimal text of any integer gives that integer back |
| `PrintkFormat.FormatD` | arch/arm/core/fatal.c:94 | The `%d` text of a code below 2^31 is its plain decimal. At 2^31 and above it starts with '-'. In every case it parses back to the code modulo 2^32 |
| `PrintkFormat.FormatDInjective` | arch/arm/core/fatal.c:94 | Distinct codes give distinct `%d` text |
| `Esf.Words` | arch/arm/core/fatal.c:26-43 | The integer words of a `NanoEsf` frame: 8 core words, plus the s-registers, fpscr and the trailing word when floating point is present. The pc is word 6. `Esf.PoisonedIffDefault` is what forces the list to cover every field |
| `Esf.DefaultEsf` | arch/arm/core/fatal.c:26-43 | `_default_esf` has the configured layout, 26 words with CONFIG_FLOAT and 8 without, and every word equals 0xdeaddead |
| `Esf.PoisonedIffDefault` | arch/arm/core/fatal.c:26-43 | A frame of a given layout is entirely poison exactly when it is `_default_esf`, so no field deviates |
| `Classifier.Classify` | arch/arm/core/fatal.c:70-96 | Every code takes exactly one reachable branch. It is the default branch exactly when the code is not a case label of this build, and the branch taken is labelled with the code |
| `Classifier.ClassifyCodeOf` | arch/arm/core/fatal.c:70-96 | Each branch the build can reach is taken for its own case label, and only for it |
| `Classifier.Banner` | arch/arm/core/fatal.c:71-94 | The line each branch prints. Every banner opens with four stars, and only the default banner has 'U' at position 5 |
| `Classifier.BannerFor` | arch/arm/core/fatal.c:70-96 | The banner printed for a code is the default one exactly when the code has no case label in this build. The default one is "**** Unknown Fatal Error " + the code's `%d` text + "! ****" |
| `Classifier.UnknownBannerCarriesCode` | arch/arm/core/fatal.c:93-94 | The middle of the default banner is the `%d` text of the code, and it parses back to the code modulo 2^32 |
| `Classifier.BannerInjective` | arch/arm/core/fatal.c:70-96 | Different branches print different banners |
| `Classifier.BannerIdentifiesReason` | arch/arm/core/fatal.c:70-96 | Within one build, the banner printed determines the reason code |
| `Classifier.NamedBanners` | arch/arm/core/fatal.c:71-91 | Invalid task exit, allocation failure, oops and panic print their fixed banners in every build |
| `Classifier.StackCheckBanner` | arch/arm/core/fatal.c:75-79 | With stack canaries, the stack-check code prints "***** Stack Check Fail! *****". Without them, it prints the unknown-error banner carrying that code |
| `Classifier.UnknownBanner` | arch/arm/core/fatal.c:93-95 | A code with no case label prints the default banner and no other banner. Below 2^31, the embedded text is the code's plain decimal |
| `Classifier.Code999Banner` | arch/arm/core/fatal.c:93-94 | When 999 is not a named code, its banner is "**** Unknown Fatal Error 999! ****" |
| `Classifier.HighCodesPrintNegative` | arch/arm/core/fatal.c:94 | An unnamed code of 2^31 or more prints a '-' right after "Unknown Fatal Error " |
| `Reporter.ThreadLine` | arch/arm/core/fatal.c:97-99 | The thread line is "Current thread ID = " followed by exactly the text of the current thread, and it is never a banner line |
| `Reporter.PcLine` | arch/arm/core/fatal.c:97-99 | The address line starts with "Faulting instruction address = 0x", and it is never a banner line |
| `Reporter.ReportTrace` | arch/arm/core/fatal.c:70-109 | One call does four things: three printed lines (the printk at fatal.c:97-99 prints two), then the policy call with the unchanged `(reason, pEsf)` as the last event. Only the first print is a banner line |
| `Reporter.ReportOutput` | arch/arm/core/fatal.c:70-99 | One call prints exactly three lines: the banner for the reason, the thread line, and the faulting-address line for `pEsf->pc` |
| `Reporter.ExactlyOneBanner` | arch/arm/core/fatal.c:70-96 | Exactly one banner line is printed per call, and it is the first line |
| `Reporter.PolicyCalledOnce` | arch/arm/core/fatal.c:101-110 | The policy is called exactly once per call, with the unchanged reason and the same frame pointer |
| `Reporter.PcLineCarriesPc` | arch/arm/core/fatal.c:97-99 | After the "0x", the address line holds 1 to 8 lower-case hex digits that read back to `pc`. It is exactly "0" for pc 0 and has no leading '0' otherwise |
| `Reporter.PcLineDeterminesPc` | arch/arm/core/fatal.c:97-99 | Different program counters print different address lines |
| `Reporter.OutputReadsOnlyPc` | arch/arm/core/fatal.c:97-99 | Of the frame, the output depends only on `pc` |
| `Reporter.EsfRef.constructor` | arch/arm/core/fatal.c:67-68 | A `const NANO_ESF *` points at a frame whose contents cannot change |
| `Reporter.Cpu.Print` | arch/arm/core/fatal.c:72 | Printing one line appends it to the trace and changes nothing else. The printk at fatal.c:97-99 prints two lines, so it is two such appends |
| `Reporter.Cpu.SysFatalErrorHandler` | arch/arm/core/fatal.c:58-62 | The policy call is appended to the trace. Control comes back exactly when the policy aborts only the current thread and the CPU was in handler mode |
| `Reporter.Cpu.NanoFatalErrorHandler` | arch/arm/core/fatal.c:58-110 | Appends exactly the report trace: banner, thread line, address line, then the policy call. It leaves the frame untouched. It returns to its caller exactly when the policy returns, which needs a thread-only abort in handler mode |

## Left out

- printk's console transport: printing is an append of one line to the trace.
- The `%p` rendering of `k_current_get()`. The current thread is an opaque
  handle, so the environment supplies its printed text as the `current`
  argument.
- The internals of `_SysFatalErrorHandler` (halt, reset, thread abort). The
  policy is an environment-supplied function of `(reason, pEsf)` with a
  two-valued outcome.
- The PendSV-based context switch that follows a returning policy. It is
  scheduler and hardware behaviour, described in the doc comment at
  arch/arm/core/fatal.c:58-62.
- Hardware capture of the frame on exception entry. Only the frame's field
  list is modelled.
- The numeric values of the `_NANO_ERR_*` codes. The kernel headers that
  define them are not part of this model. They are parameters (`ReasonCodes`)
  and are only required to be pairwise distinct.
- The C type of the s0 .. s15 fields. The frame's header is not part of this
  model. Each field is stored as the 32-bit word the initializer names. If the
  header declares those fields `float`, C stores the nearest float value of
  0xdeaddead rather than that bit pattern, and the model does not capture
  this.
- Two cores reporting at once: the reporter is modelled single-threaded.
