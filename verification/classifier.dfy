/**
 * The `switch (reason)` of the ARM fatal-error reporter: which banner line a
 * fatal reason code produces, under the stack-canary build option.
 */
module Classifier {
  import opened PrintkFormat

  /**
   * The numeric values of the `_NANO_ERR_*` codes. They live in kernel
   * headers that are not part of this model, so they stay parameters; the
   * only thing the switch relies on is that they differ (a C switch refuses
   * duplicate case labels).
   */
  datatype ReasonCodes = ReasonCodes(
    invalidTaskExit: u32,
    stackChkFail: u32,
    allocationFail: u32,
    kernelOops: u32,
    kernelPanic: u32)
  {
    predicate Distinct()
    {
      invalidTaskExit != stackChkFail && invalidTaskExit != allocationFail &&
      invalidTaskExit != kernelOops && invalidTaskExit != kernelPanic &&
      stackChkFail != allocationFail && stackChkFail != kernelOops &&
      stackChkFail != kernelPanic && allocationFail != kernelOops &&
      allocationFail != kernelPanic && kernelOops != kernelPanic
    }
  }

  /** The branch of the switch a reason code takes. */
  datatype FatalReason =
    | InvalidTaskExit
    | StackCheckFail
    | AllocationFail
    | KernelOops
    | KernelPanic
    | Unknown(code: u32)

  /** The codes that have a case label of their own in this build. */
  function NamedCodes(codes: ReasonCodes, stackCanaries: bool): set<u32>
  {
    {codes.invalidTaskExit, codes.allocationFail, codes.kernelOops, codes.kernelPanic} +
    (if stackCanaries then {codes.stackChkFail} else {})
  }

  /** The reason code a branch is taken for: the case label, or the code itself in the default branch. */
  function CodeOf(r: FatalReason, codes: ReasonCodes): u32
  {
    match r
    case InvalidTaskExit => codes.invalidTaskExit
    case StackCheckFail => codes.stackChkFail
    case AllocationFail => codes.allocationFail
    case KernelOops => codes.kernelOops
    case KernelPanic => codes.kernelPanic
    case Unknown(c) => c
  }

  /** The branches a build can take: the stack-check case only with canaries, the default only for unnamed codes. */
  predicate Reachable(r: FatalReason, codes: ReasonCodes, stackCanaries: bool)
  {
    (r.StackCheckFail? ==> stackCanaries) &&
    (r.Unknown? ==> r.code !in NamedCodes(codes, stackCanaries))
  }

  /**
   * The switch itself. It never fails: every code takes exactly one branch,
   * a named code its own case and every other code the default, and the
   * branch taken is the one labelled with the code.
   */
  function Classify(reason: u32, codes: ReasonCodes, stackCanaries: bool): (r: FatalReason)
    requires codes.Distinct()
    ensures Reachable(r, codes, stackCanaries)
    ensures r.Unknown? <==> reason !in NamedCodes(codes, stackCanaries)
    ensures CodeOf(r, codes) == reason
  {
    if reason == codes.invalidTaskExit then InvalidTaskExit
    else if stackCanaries && reason == codes.stackChkFail then StackCheckFail
    else if reason == codes.allocationFail then AllocationFail
    else if reason == codes.kernelOops then KernelOops
    else if reason == codes.kernelPanic then KernelPanic
    else Unknown(reason)
  }

  /** Every branch the build can take is taken for its own code, and for no other. */
  lemma ClassifyCodeOf(r: FatalReason, codes: ReasonCodes, stackCanaries: bool)
    requires codes.Distinct() && Reachable(r, codes, stackCanaries)
    ensures Classify(CodeOf(r, codes), codes, stackCanaries) == r
  {
  }

  const INVALID_EXIT_BANNER := "***** Invalid Exit Software Error! *****"
  const STACK_CHECK_BANNER := "***** Stack Check Fail! *****"
  const ALLOCATION_BANNER := "**** Kernel Allocation Failure! ****"
  const OOPS_BANNER := "***** Kernel OOPS! *****"
  const PANIC_BANNER := "***** Kernel Panic! *****"
  const UNKNOWN_PREFIX := "**** Unknown Fatal Error "
  const UNKNOWN_SUFFIX := "! ****"

  /**
   * The line a branch prints (without its newline). Every banner opens with
   * four stars; only the default one reads "**** Unknown" from there.
   */
  function Banner(r: FatalReason): (s: string)
    ensures |s| > 5 && forall i :: 0 <= i < 4 ==> s[i] == '*'
    ensures s[5] == 'U' <==> r.Unknown?
  {
    match r
    case InvalidTaskExit => INVALID_EXIT_BANNER
    case StackCheckFail => STACK_CHECK_BANNER
    case AllocationFail => ALLOCATION_BANNER
    case KernelOops => OOPS_BANNER
    case KernelPanic => PANIC_BANNER
    case Unknown(c) => UNKNOWN_PREFIX + FormatD(c) + UNKNOWN_SUFFIX
  }

  /**
   * The banner printed for a reason code: the default banner, with the code's
   * `%d` text, exactly when the code has no case label in this build.
   */
  function BannerFor(reason: u32, codes: ReasonCodes, stackCanaries: bool): (s: string)
    requires codes.Distinct()
    ensures |s| > 5 && (s[5] == 'U' <==> reason !in NamedCodes(codes, stackCanaries))
    ensures reason !in NamedCodes(codes, stackCanaries) ==>
      s == UNKNOWN_PREFIX + FormatD(reason) + UNKNOWN_SUFFIX
  {
    Banner(Classify(reason, codes, stackCanaries))
  }

  /** The middle of a default banner: the text `%d` produced. */
  function EmbeddedCode(line: string): string
    requires |line| >= |UNKNOWN_PREFIX| + |UNKNOWN_SUFFIX|
  {
    line[|UNKNOWN_PREFIX|..|line| - |UNKNOWN_SUFFIX|]
  }

  /** A default banner carries its code: reading the `%d` text back gives the code (modulo 2^32). */
  lemma UnknownBannerCarriesCode(c: u32)
    ensures |Banner(Unknown(c))| >= |UNKNOWN_PREFIX| + |UNKNOWN_SUFFIX|
    ensures EmbeddedCode(Banner(Unknown(c))) == FormatD(c)
    ensures ParseSigned(EmbeddedCode(Banner(Unknown(c)))) % 0x1_0000_0000 == c as int
  {
  }

  /** Different branches print different banners, so the banner tells the branch. */
  lemma BannerInjective(a: FatalReason, b: FatalReason)
    requires Banner(a) == Banner(b)
    ensures a == b
  {
    if a.Unknown? {
      UnknownBannerCarriesCode(a.code);
      UnknownBannerCarriesCode(b.code);
      FormatDInjective(a.code, b.code);
    } else {
      var s := Banner(a);
      assert s[4] == Banner(b)[4] && s[5] == Banner(b)[5];
      assert s[6] == Banner(b)[6] && s[13] == Banner(b)[13];
    }
  }

  /** The banner printed identifies the reason code it was printed for. */
  lemma BannerIdentifiesReason(x: u32, y: u32, codes: ReasonCodes, stackCanaries: bool)
    requires codes.Distinct()
    requires BannerFor(x, codes, stackCanaries) == BannerFor(y, codes, stackCanaries)
    ensures x == y
  {
    BannerInjective(Classify(x, codes, stackCanaries), Classify(y, codes, stackCanaries));
  }

  /** The four always-present codes print their fixed banners in every build. */
  lemma NamedBanners(codes: ReasonCodes, stackCanaries: bool)
    requires codes.Distinct()
    ensures BannerFor(codes.invalidTaskExit, codes, stackCanaries) == "***** Invalid Exit Software Error! *****"
    ensures BannerFor(codes.allocationFail, codes, stackCanaries) == "**** Kernel Allocation Failure! ****"
    ensures BannerFor(codes.kernelOops, codes, stackCanaries) == "***** Kernel OOPS! *****"
    ensures BannerFor(codes.kernelPanic, codes, stackCanaries) == "***** Kernel Panic! *****"
  {
  }

  /** The stack-check code has its own banner only when stack canaries are built in; otherwise it is an unknown code. */
  lemma StackCheckBanner(codes: ReasonCodes, stackCanaries: bool)
    requires codes.Distinct()
    ensures BannerFor(codes.stackChkFail, codes, stackCanaries) ==
      if stackCanaries then "***** Stack Check Fail! *****"
      else "**** Unknown Fatal Error " + FormatD(codes.stackChkFail) + "! ****"
  {
  }

  /**
   * Any code without a case label of its own prints the default banner and
   * no other; below 2^31 the embedded text is the plain decimal of the code.
   */
  lemma UnknownBanner(reason: u32, codes: ReasonCodes, stackCanaries: bool)
    requires codes.Distinct()
    requires reason !in NamedCodes(codes, stackCanaries)
    ensures BannerFor(reason, codes, stackCanaries) == Banner(Unknown(reason))
    ensures reason < 0x8000_0000 ==>
      BannerFor(reason, codes, stackCanaries) ==
      "**** Unknown Fatal Error " + Digits(reason as nat, 10) + "! ****"
    ensures forall r :: BannerFor(reason, codes, stackCanaries) == Banner(r) ==> r == Unknown(reason)
  {
    forall r | BannerFor(reason, codes, stackCanaries) == Banner(r)
      ensures r == Unknown(reason)
    {
      BannerInjective(r, Unknown(reason));
    }
  }

  /** A code outside the named set, 999, prints "999" in the default banner. */
  lemma Code999Banner(codes: ReasonCodes, stackCanaries: bool)
    requires codes.Distinct()
    requires 999 !in NamedCodes(codes, stackCanaries)
    ensures BannerFor(999, codes, stackCanaries) == "**** Unknown Fatal Error 999! ****"
  {
  }

  /**
   * `%d` reads an `unsigned int` as a signed one, so a code of 2^31 or more
   * prints with a minus sign; the banner still determines the code.
   */
  lemma HighCodesPrintNegative(reason: u32, codes: ReasonCodes, stackCanaries: bool)
    requires codes.Distinct()
    requires reason !in NamedCodes(codes, stackCanaries) && reason >= 0x8000_0000
    ensures BannerFor(reason, codes, stackCanaries)[|UNKNOWN_PREFIX|] == '-'
  {
  }
}
