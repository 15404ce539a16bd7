/**
 * The ARM Cortex-M exception stack frame (NANO_ESF) and the poisoned default
 * frame `_default_esf` that callers without a hardware-captured frame pass to
 * the fatal-error reporter.
 */
module Esf {
  import opened PrintkFormat

  /** The poison word every field of the default frame holds. */
  const POISON: u32 := 0xdeaddead

  /** Number of single-precision registers saved with the frame (s0 .. s15). */
  const FP_REGS: nat := 16

  datatype Option<T> = None | Some(value: T)

  /** The floating-point part of the frame, present only under CONFIG_FLOAT. */
  datatype FpFrame = FpFrame(s: seq<u32>, fpscr: u32, undefined: u32)

  /**
   * The registers pushed on exception entry. Each of the first seven is a
   * union of two names in the source (r0/a1 and so on); one word each here.
   * `fp` is None exactly when the build leaves CONFIG_FLOAT out.
   */
  datatype NanoEsf = NanoEsf(
    a1: u32,   // r0
    a2: u32,   // r1
    a3: u32,   // r2
    a4: u32,   // r3
    ip: u32,   // r12
    lr: u32,   // r14
    pc: u32,   // r15
    xpsr: u32,
    fp: Option<FpFrame>)

  /** The frame has the layout the build configuration selects. */
  predicate WellFormed(e: NanoEsf, float: bool)
  {
    e.fp.Some? == float && (e.fp.Some? ==> |e.fp.value.s| == FP_REGS)
  }

  /** Every integer field of the frame, in declaration order. */
  function Words(e: NanoEsf): (ws: seq<u32>)
    ensures |ws| == 8 + (if e.fp.Some? then |e.fp.value.s| + 2 else 0)
    ensures ws[6] == e.pc
  {
    [e.a1, e.a2, e.a3, e.a4, e.ip, e.lr, e.pc, e.xpsr] +
    (match e.fp
     case None => []
     case Some(f) => f.s + [f.fpscr, f.undefined])
  }

  predicate Poisoned(e: NanoEsf)
  {
    forall i :: 0 <= i < |Words(e)| ==> Words(e)[i] == POISON
  }

  /**
   * `_default_esf`: a frame of the configured layout in which no field
   * deviates from the poison word. With CONFIG_FLOAT that is 26 words
   * (eight core registers, s0 .. s15, fpscr and the trailing word), else 8.
   */
  function DefaultEsf(float: bool): (e: NanoEsf)
    ensures WellFormed(e, float)
    ensures |Words(e)| == if float then 26 else 8
    ensures Poisoned(e)
  {
    var fp := if float then Some(FpFrame(seq(FP_REGS, _ => POISON), POISON, POISON)) else None;
    NanoEsf(POISON, POISON, POISON, POISON, POISON, POISON, POISON, POISON, fp)
  }

  /**
   * The default frame is the only frame of its layout that is poisoned
   * throughout: a frame is entirely poison exactly when it is the sentinel.
   */
  lemma PoisonedIffDefault(e: NanoEsf, float: bool)
    requires WellFormed(e, float)
    ensures Poisoned(e) <==> e == DefaultEsf(float)
  {
    if Poisoned(e) {
      var ws := Words(e);
      assert ws[0] == POISON && ws[1] == POISON && ws[2] == POISON && ws[3] == POISON;
      assert ws[4] == POISON && ws[5] == POISON && ws[6] == POISON && ws[7] == POISON;
      if float {
        var f := e.fp.value;
        assert ws == [e.a1, e.a2, e.a3, e.a4, e.ip, e.lr, e.pc, e.xpsr] + f.s + [f.fpscr, f.undefined];
        forall j | 0 <= j < FP_REGS
          ensures f.s[j] == POISON
        {
          assert ws[8 + j] == f.s[j];
        }
        assert f.s == seq(FP_REGS, _ => POISON);
        assert ws[8 + FP_REGS] == f.fpscr && ws[9 + FP_REGS] == f.undefined;
      }
    }
  }
}
