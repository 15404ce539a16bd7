/**
 * `_NanoFatalErrorHandler`: print the banner for the reason, print the
 * current thread and the faulting instruction address, then hand the
 * decision to the policy `_SysFatalErrorHandler`, returning only if the
 * policy does.
 *
 * What the reporter does to the outside world is recorded as one trace of
 * events: each printed line (the text of a printk call split at its
 * newlines, which are dropped) and the outbound call to the policy.
 */
module Reporter {
  import opened PrintkFormat
  import opened Esf
  import opened Classifier

  /** The build options the reporter depends on. */
  datatype Config = Config(stackCanaries: bool, codes: ReasonCodes)

  /** `const NANO_ESF *`: a pointer to a frame nobody writes through. */
  class EsfRef {
    const frame: NanoEsf

    constructor (frame: NanoEsf)
      ensures this.frame == frame
    {
      this.frame := frame;
    }
  }

  /** What the external policy decides: stop the system, or abort only the faulting thread. */
  datatype Disposition = HaltSystem | AbortCurrentThread

  /** Whether control comes back to the reporter's caller. */
  datatype Control = NeverReturns | ReturnsToCaller

  datatype Event = Printed(line: string) | PolicyCalled(reason: u32, esf: EsfRef)

  const THREAD_PREFIX := "Current thread ID = "
  const PC_PREFIX := "Faulting instruction address = 0x"

  /** The thread line, given the `%p` text of `k_current_get()`. */
  function ThreadLine(current: string): (s: string)
    ensures |s| == |THREAD_PREFIX| + |current| && s[..|THREAD_PREFIX|] == THREAD_PREFIX && s[|THREAD_PREFIX|..] == current
    ensures !IsBannerLine(s)
  {
    THREAD_PREFIX + current
  }

  /** The faulting-address line: never mistaken for a banner, whatever `pc` is. */
  function PcLine(pc: u32): (s: string)
    ensures |s| > |PC_PREFIX| && s[..|PC_PREFIX|] == PC_PREFIX
    ensures !IsBannerLine(s)
  {
    PC_PREFIX + Hex(pc)
  }

  /** What one call of the reporter adds to the trace. */
  function ReportTrace(config: Config, reason: u32, esf: EsfRef, current: string): (t: seq<Event>)
    requires config.codes.Distinct()
    ensures |t| == 4
    ensures forall i :: 0 <= i < |t| - 1 ==> t[i].Printed?
    ensures t[|t| - 1] == PolicyCalled(reason, esf)
    ensures IsBannerLine(t[0].line) && !IsBannerLine(t[1].line) && !IsBannerLine(t[2].line)
  {
    [Printed(BannerFor(reason, config.codes, config.stackCanaries)),
     Printed(ThreadLine(current)),
     Printed(PcLine(esf.frame.pc)),
     PolicyCalled(reason, esf)]
  }

  /** The console output: the printed lines of a trace, in order. */
  function Output(events: seq<Event>): seq<string>
  {
    if events == [] then []
    else (if events[0].Printed? then [events[0].line] else []) + Output(events[1..])
  }

  /** The calls made to the policy, in order. */
  function PolicyCalls(events: seq<Event>): seq<Event>
  {
    if events == [] then []
    else (if events[0].PolicyCalled? then [events[0]] else []) + PolicyCalls(events[1..])
  }

  /** A banner line: one that opens with four stars. */
  predicate IsBannerLine(line: string)
  {
    |line| >= 4 && line[0] == '*' && line[1] == '*' && line[2] == '*' && line[3] == '*'
  }

  function CountBanners(lines: seq<string>): nat
  {
    if lines == [] then 0
    else (if IsBannerLine(lines[0]) then 1 else 0) + CountBanners(lines[1..])
  }

  lemma {:induction false} OutputAppend(a: seq<Event>, b: seq<Event>)
    ensures Output(a + b) == Output(a) + Output(b)
    ensures PolicyCalls(a + b) == PolicyCalls(a) + PolicyCalls(b)
  {
    if a != [] {
      assert (a + b)[1..] == a[1..] + b;
      OutputAppend(a[1..], b);
    } else {
      assert a + b == b;
    }
  }

  lemma {:induction false} CountBannersAppend(a: seq<string>, b: seq<string>)
    ensures CountBanners(a + b) == CountBanners(a) + CountBanners(b)
  {
    if a != [] {
      assert (a + b)[1..] == a[1..] + b;
      CountBannersAppend(a[1..], b);
    } else {
      assert a + b == b;
    }
  }

  /** One call prints exactly three lines: the banner, the thread line and the address line. */
  lemma ReportOutput(config: Config, reason: u32, esf: EsfRef, current: string)
    requires config.codes.Distinct()
    ensures Output(ReportTrace(config, reason, esf, current)) ==
      [BannerFor(reason, config.codes, config.stackCanaries), ThreadLine(current), PcLine(esf.frame.pc)]
  {
    var t := ReportTrace(config, reason, esf, current);
    assert t == [t[0]] + [t[1]] + [t[2]] + [t[3]];
    OutputAppend([t[0]] + [t[1]] + [t[2]], [t[3]]);
    OutputAppend([t[0]] + [t[1]], [t[2]]);
    OutputAppend([t[0]], [t[1]]);
  }

  /**
   * Exactly one banner line per call, and it is the first line printed:
   * the switch takes one branch and every branch breaks.
   */
  lemma ExactlyOneBanner(config: Config, reason: u32, esf: EsfRef, current: string)
    requires config.codes.Distinct()
    ensures CountBanners(Output(ReportTrace(config, reason, esf, current))) == 1
    ensures IsBannerLine(Output(ReportTrace(config, reason, esf, current))[0])
  {
    var banner := BannerFor(reason, config.codes, config.stackCanaries);
    ReportOutput(config, reason, esf, current);
    var lines := [banner, ThreadLine(current), PcLine(esf.frame.pc)];
    assert lines == [banner] + [ThreadLine(current)] + [PcLine(esf.frame.pc)];
    CountBannersAppend([banner] + [ThreadLine(current)], [PcLine(esf.frame.pc)]);
    CountBannersAppend([banner], [ThreadLine(current)]);
  }

  /**
   * The policy is called exactly once, with the reason and the frame pointer
   * the reporter received. That this call is the reporter's last event is
   * stated by ReportTrace's postcondition.
   */
  lemma PolicyCalledOnce(config: Config, reason: u32, esf: EsfRef, current: string)
    requires config.codes.Distinct()
    ensures PolicyCalls(ReportTrace(config, reason, esf, current)) == [PolicyCalled(reason, esf)]
  {
    var t := ReportTrace(config, reason, esf, current);
    assert t == [t[0]] + [t[1]] + [t[2]] + [t[3]];
    OutputAppend([t[0]] + [t[1]] + [t[2]], [t[3]]);
    OutputAppend([t[0]] + [t[1]], [t[2]]);
    OutputAppend([t[0]], [t[1]]);
  }

  /** The address line carries `pc` as unpadded lower-case hexadecimal that reads back to `pc`. */
  lemma PcLineCarriesPc(pc: u32)
    ensures |PcLine(pc)| > |PC_PREFIX| && PcLine(pc)[..|PC_PREFIX|] == PC_PREFIX
    ensures Value(PcLine(pc)[|PC_PREFIX|..], 16) == pc as int
    ensures forall i :: |PC_PREFIX| <= i < |PcLine(pc)| ==> IsDigit(PcLine(pc)[i], 16)
    ensures PcLine(pc)[|PC_PREFIX|] == '0' ==> pc == 0
    ensures pc == 0 ==> PcLine(pc) == PC_PREFIX + "0"
    ensures |PcLine(pc)| > |PC_PREFIX| + 1 ==> PcLine(pc)[|PC_PREFIX|] != '0'
    ensures |PcLine(pc)| <= |PC_PREFIX| + 8
  {
    assert PcLine(pc)[|PC_PREFIX|..] == Hex(pc);
  }

  /** The address line determines the program counter: different `pc` values print different lines. */
  lemma PcLineDeterminesPc(a: u32, b: u32)
    requires PcLine(a) == PcLine(b)
    ensures a == b
  {
    assert PcLine(a)[|PC_PREFIX|..] == Hex(a);
    assert PcLine(b)[|PC_PREFIX|..] == Hex(b);
    DigitsInjective(a as nat, b as nat, 16);
  }

  /**
   * The report reads nothing of the frame but `pc`: two frames with the same
   * program counter give the same output.
   */
  lemma OutputReadsOnlyPc(config: Config, reason: u32, e1: EsfRef, e2: EsfRef, current: string)
    requires config.codes.Distinct()
    requires e1.frame.pc == e2.frame.pc
    ensures Output(ReportTrace(config, reason, e1, current)) == Output(ReportTrace(config, reason, e2, current))
  {
    ReportOutput(config, reason, e1, current);
    ReportOutput(config, reason, e2, current);
  }

  /** The processor running the fatal path: its build options and what it has done so far. */
  class Cpu {
    const config: Config
    var events: seq<Event>

    constructor (config: Config)
      ensures this.config == config && events == []
    {
      this.config := config;
      events := [];
    }

    /**
     * Emits one line through the non-blocking printk console. The printk at
     * fatal.c:97-99 prints two lines and is modelled as two calls.
     */
    method Print(line: string)
      modifies this
      ensures events == old(events) + [Printed(line)]
    {
      events := events + [Printed(line)];
    }

    /**
     * `_SysFatalErrorHandler`: the user's policy. Only the call and its
     * outcome are modelled; halting, resetting and aborting the thread are not.
     * It comes back only when it aborts just the faulting thread and the fault
     * was taken in handler mode: PendSV then switches threads on exception
     * return. Aborting the current thread from thread mode never returns.
     */
    method SysFatalErrorHandler(reason: u32, esf: EsfRef, handlerMode: bool, policy: (u32, EsfRef) -> Disposition)
      returns (control: Control)
      modifies this
      ensures events == old(events) + [PolicyCalled(reason, esf)]
      ensures control == ReturnsToCaller <==> policy(reason, esf) == AbortCurrentThread && handlerMode
    {
      events := events + [PolicyCalled(reason, esf)];
      control := if policy(reason, esf) == AbortCurrentThread && handlerMode then ReturnsToCaller else NeverReturns;
    }

    /**
     * `_NanoFatalErrorHandler(reason, pEsf)`. The frame is only read (it is
     * not in the modifies clause), and the reporter returns to its caller
     * exactly when the policy returns. `handlerMode` says whether the CPU was
     * in handler mode when the fault was raised.
     */
    method NanoFatalErrorHandler(reason: u32, esf: EsfRef, current: string, handlerMode: bool,
                                 policy: (u32, EsfRef) -> Disposition)
      returns (control: Control)
      requires config.codes.Distinct()
      modifies this
      ensures events == old(events) + ReportTrace(config, reason, esf, current)
      ensures Output(events) == old(Output(events)) +
        [BannerFor(reason, config.codes, config.stackCanaries), ThreadLine(current), PcLine(esf.frame.pc)]
      ensures PolicyCalls(events) == old(PolicyCalls(events)) + [PolicyCalled(reason, esf)]
      ensures control == ReturnsToCaller <==> policy(reason, esf) == AbortCurrentThread && handlerMode
    {
      var r := Classify(reason, config.codes, config.stackCanaries);
      Print(Banner(r));
      Print(ThreadLine(current));
      Print(PcLine(esf.frame.pc));
      control := SysFatalErrorHandler(reason, esf, handlerMode, policy);
      OutputAppend(old(events), ReportTrace(config, reason, esf, current));
      ReportOutput(config, reason, esf, current);
      PolicyCalledOnce(config, reason, esf, current);
    }
  }
}
