/**
 * The account wizard with its requests in flight. A button that talks to the
 * server checks its inputs, sends a request and sets `accLoading`; the reply
 * arrives as an action of its own, later and in any order, and clears
 * `accLoading` whatever else is still in flight. The page disables only the
 * send, verify, OCR and onboard buttons while loading: the inputs, "Back" and
 * "Continue" stay live, so a reply can land on a step other than the one its
 * request was sent from.
 */
module WizardPage {
  import opened JsValues
  import opened AccountWizard

  /** A request that has been sent and whose reply has not arrived. */
  datatype Request = SendRequest | VerifyRequest | OcrRequest | PackagesRequest | OnboardRequest

  /** A reply, tagged with the kind of request it answers. */
  datatype Answer =
    | SendAnswer(reply: Reply) | VerifyAnswer(reply: Reply) | OcrAnswer(ocr: OcrReply)
    | PackagesAnswer(packagesReply: PackagesReply) | OnboardAnswer(reply: Reply)

  function Answers(a: Answer): Request {
    match a
    case SendAnswer(_) => SendRequest
    case VerifyAnswer(_) => VerifyRequest
    case OcrAnswer(_) => OcrRequest
    case PackagesAnswer(_) => PackagesRequest
    case OnboardAnswer(_) => OnboardRequest
  }

  /** The wizard, `accLoading`, and the requests in flight in the order they were sent. */
  datatype Page = Page(w: Wizard, loading: bool, inFlight: seq<Request>)

  /** The five buttons that talk to the server ("Continue" only when no package list is loaded). */
  datatype Button = SendOtpButton | VerifyOtpButton | OcrButton | ContinueButton | OnboardButton

  /**
   * An input or "Back" (the wizard's non-button events; a button event given
   * here does nothing), a button press, or the arrival of the reply to the
   * `i`-th request in flight.
   */
  datatype Action = Input(e: Event) | Press(b: Button) | Arrive(i: nat, answer: Answer)

  function Idle(w: Wizard): Page {
    Page(w, false, [])
  }

  /** The wizard once the reply has been handled, on whatever step it is on by then. */
  function Answered(w: Wizard, a: Answer): Wizard {
    match a
    case SendAnswer(reply) => SendAnswered(w, reply)
    case VerifyAnswer(reply) => VerifyAnswered(w, reply)
    case OcrAnswer(reply) => OcrAnswered(w, reply)
    case PackagesAnswer(reply) => PackagesAnswered(w, reply)
    case OnboardAnswer(reply) => OnboardAnswered(w, reply)
  }

  /** The requests in flight once the `i`-th has been answered. */
  function Without(s: seq<Request>, i: nat): (r: seq<Request>)
    requires i < |s|
    ensures |r| == |s| - 1
    ensures forall j :: 0 <= j < i ==> r[j] == s[j]
    ensures forall j :: i <= j < |r| ==> r[j] == s[j + 1]
  {
    s[..i] + s[i + 1..]
  }

  /** A button press: the button's own checks, then the request, if the button is on screen and enabled. */
  function Click(p: Page, b: Button): Page {
    var w := p.w;
    match b
    case SendOtpButton =>
      if !ContactShown(w.step) || p.loading then p
      else if !ContactFilled(w) then p.(w := w.(err := Some(MissingContact)))
      else Page(w.(err := None), true, p.inFlight + [SendRequest])
    case VerifyOtpButton =>
      if w.step != EnterOtp || p.loading || !Filled(w.otp) then p
      else if !EmailOtpFilled(w) then p.(w := w.(err := Some(MissingEmailOtp)))
      else Page(w.(err := None), true, p.inFlight + [VerifyRequest])
    case OcrButton =>
      if w.step != Ocr || p.loading || !w.hasFile then p
      else Page(w.(err := None), true, p.inFlight + [OcrRequest])
    case ContinueButton =>
      // `loadPackagesIfNeeded` returns early inside its `try`, so its `finally` clears the flag
      if w.step != Ocr then p
      else if |w.packages| > 0 then Page(w.(step := ChoosePackage), false, p.inFlight)
      else Page(w.(step := ChoosePackage), true, p.inFlight + [PackagesRequest])
    case OnboardButton =>
      if w.step != ChoosePackage || p.loading || w.selPackage == "" then p
      else match OnboardCheck(w)
        case Some(msg) => p.(w := w.(err := Some(msg)))
        case None => Page(w.(err := None), true, p.inFlight + [OnboardRequest])
  }

  /** One action on the page; after a crash nothing has any effect. */
  function Do(p: Page, a: Action): Page {
    if Crashed(p.w) then p
    else match a
      case Input(e) => if IsPress(e) then p else p.(w := Apply(p.w, e))
      case Press(b) => Click(p, b)
      case Arrive(i, answer) =>
        if i < |p.inFlight| && p.inFlight[i] == Answers(answer) then
          Page(Answered(p.w, answer), false, Without(p.inFlight, i))
        else p
  }

  function Play(p: Page, actions: seq<Action>): Page
    decreases |actions|
  {
    if |actions| == 0 then p else Play(Do(p, actions[0]), actions[1..])
  }

  // ---------------------------------------------------------------- the atomic wizard as a special case

  /** The page action of a wizard event: its button for a button event, the event itself otherwise. */
  function ActionOf(e: Event): Action {
    match e
    case PressSendOtp(_) => Press(SendOtpButton)
    case PressVerifyOtp(_) => Press(VerifyOtpButton)
    case PressOcr(_) => Press(OcrButton)
    case PressContinue(_) => Press(ContinueButton)
    case PressOnboard(_) => Press(OnboardButton)
    case _ => Input(e)
  }

  /** The reply a wizard button event carries. */
  function AnswerOf(e: Event): Option<Answer> {
    match e
    case PressSendOtp(reply) => Some(SendAnswer(reply))
    case PressVerifyOtp(reply) => Some(VerifyAnswer(reply))
    case PressOcr(reply) => Some(OcrAnswer(reply))
    case PressContinue(reply) => Some(PackagesAnswer(reply))
    case PressOnboard(reply) => Some(OnboardAnswer(reply))
    case _ => None
  }

  /**
   * On an idle page, an action followed at once by the reply to the request it
   * sent, if any, is exactly the wizard's atomic event: `AccountWizard` is the
   * page used one reply at a time, and its properties hold for such use.
   */
  lemma AtomicIsPressThenReply(w: Wizard, e: Event)
    ensures var p := Do(Idle(w), ActionOf(e));
      && (p.inFlight == [] ==> p == Idle(Apply(w, e)))
      && (p.inFlight != [] ==> AnswerOf(e).Some? && Do(p, Arrive(0, AnswerOf(e).value)) == Idle(Apply(w, e)))
  {
    if !Crashed(w) && IsPress(e) {
      PressThenReply(w, e);
    }
  }

  /** The action of `e` on an idle page, then the reply if a request went out, ends where the atomic event does. */
  predicate SettlesAsAtomic(w: Wizard, e: Event) {
    var p := Do(Idle(w), ActionOf(e));
    && (p.inFlight == [] ==> p == Idle(Apply(w, e)))
    && (p.inFlight != [] ==> AnswerOf(e).Some? && Do(p, Arrive(0, AnswerOf(e).value)) == Idle(Apply(w, e)))
  }

  lemma PressThenReply(w: Wizard, e: Event)
    requires !Crashed(w) && IsPress(e)
    ensures SettlesAsAtomic(w, e)
  {
    match e
    case PressSendOtp(_) => SendThenReply(w, e);
    case PressVerifyOtp(_) => VerifyThenReply(w, e);
    case PressOcr(_) => OcrThenReply(w, e);
    case PressContinue(_) => ContinueThenReply(w, e);
    case PressOnboard(_) => OnboardThenReply(w, e);
  }

  lemma SendThenReply(w: Wizard, e: Event)
    requires !Crashed(w) && e.PressSendOtp?
    ensures SettlesAsAtomic(w, e)
  {
    assert Without([SendRequest], 0) == [];
  }

  lemma VerifyThenReply(w: Wizard, e: Event)
    requires !Crashed(w) && e.PressVerifyOtp?
    ensures SettlesAsAtomic(w, e)
  {
    assert Without([VerifyRequest], 0) == [];
  }

  lemma OcrThenReply(w: Wizard, e: Event)
    requires !Crashed(w) && e.PressOcr?
    ensures SettlesAsAtomic(w, e)
  {
    assert Without([OcrRequest], 0) == [];
  }

  lemma ContinueThenReply(w: Wizard, e: Event)
    requires !Crashed(w) && e.PressContinue?
    ensures SettlesAsAtomic(w, e)
  {
    assert Without([PackagesRequest], 0) == [];
    if |w.packages| == 0 {
      assert !Crashed(w.(step := ChoosePackage));
    }
  }

  lemma OnboardThenReply(w: Wizard, e: Event)
    requires !Crashed(w) && e.PressOnboard?
    ensures SettlesAsAtomic(w, e)
  {
    if w.step == ChoosePackage && w.selPackage != "" && OnboardCheck(w).None? {
      var p := Page(w.(err := None), true, [OnboardRequest]);
      assert Do(Idle(w), ActionOf(e)) == p;
      assert !Crashed(p.w) by {
        assert p.w.packages == w.packages;
      }
      assert Without([OnboardRequest], 0) == [];
      assert Do(p, Arrive(0, OnboardAnswer(e.reply))) == Idle(OnboardAnswered(w.(err := None), e.reply));
    }
  }

  // ---------------------------------------------------------------- what holds in every interleaving

  /** The step a successful reply moves the wizard to, from whatever step it is on. */
  function Target(a: Answer): Option<Step> {
    match a
    case SendAnswer(Ok) => Some(EnterOtp)
    case VerifyAnswer(Ok) => Some(Ocr)
    case OnboardAnswer(Ok) => Some(Onboarded)
    case _ => None
  }

  /** The only step changes on the page: the wizard's "Back" edges, "Continue", and a successful reply. */
  predicate PageEdge(p: Page, a: Action, to: Step) {
    || (a.Input? && a.e.PressBack? && Edge(p.w, a.e, to))
    || (a == Press(ContinueButton) && p.w.step == Ocr && to == ChoosePackage)
    || (a.Arrive? && a.i < |p.inFlight| && p.inFlight[a.i] == Answers(a.answer) && Target(a.answer) == Some(to))
  }

  /** A step change happens only along a page edge; a reply's edge starts from any step. */
  lemma PageStepChanges(p: Page, a: Action)
    ensures Do(p, a).w.step != p.w.step ==> PageEdge(p, a, Do(p, a).w.step)
  {
    if !Crashed(p.w) && a.Input? && !IsPress(a.e) {
      StepChangesOnlyAlongEdges(p.w, a.e);
    }
  }

  /** What a button checks before it sends its request. */
  predicate Checked(p: Page, b: Button) {
    match b
    case SendOtpButton => !p.loading && ContactShown(p.w.step) && ContactFilled(p.w)
    case VerifyOtpButton => !p.loading && p.w.step == EnterOtp && EmailOtpFilled(p.w)
    case OcrButton => !p.loading && p.w.step == Ocr && p.w.hasFile
    case ContinueButton => p.w.step == Ocr && |p.w.packages| == 0
    case OnboardButton => !p.loading && p.w.step == ChoosePackage && OnboardCheck(p.w).None?
  }

  function RequestOf(b: Button): Request {
    match b
    case SendOtpButton => SendRequest
    case VerifyOtpButton => VerifyRequest
    case OcrButton => OcrRequest
    case ContinueButton => PackagesRequest
    case OnboardButton => OnboardRequest
  }

  /**
   * A request is sent only by its button and only when the button's checks
   * pass at that moment; otherwise the requests in flight stay, or lose
   * exactly the one a reply answers.
   */
  lemma RequestsSentOnlyAfterChecks(p: Page, a: Action)
    ensures var q := Do(p, a);
      |q.inFlight| > |p.inFlight| ==>
        a.Press? && !Crashed(p.w) && Checked(p, a.b) && q.inFlight == p.inFlight + [RequestOf(a.b)] && q.loading
    ensures var q := Do(p, a);
      |q.inFlight| <= |p.inFlight| ==>
        q.inFlight == p.inFlight
        || (a.Arrive? && a.i < |p.inFlight| && p.inFlight[a.i] == Answers(a.answer)
            && q.inFlight == Without(p.inFlight, a.i) && !q.loading)
  {
  }

  // ---------------------------------------------------------------- interleavings the atomic wizard excludes

  lemma PlayFirst(p: Page, a: Action, rest: seq<Action>)
    ensures Play(p, [a] + rest) == Play(Do(p, a), rest)
  {
    assert ([a] + rest)[1..] == rest;
  }

  /** A reply to a request in flight is handled on the current wizard and clears `accLoading`. */
  lemma Arrives(p: Page, i: nat, a: Answer)
    requires !Crashed(p.w) && i < |p.inFlight| && p.inFlight[i] == Answers(a)
    ensures Do(p, Arrive(i, a)) == Page(Answered(p.w, a), false, Without(p.inFlight, i))
  {
  }

  lemma VerifySent(w: Wizard)
    requires w.step == EnterOtp && EmailOtpFilled(w)
    ensures Do(Idle(w), Press(VerifyOtpButton)) == Page(w.(err := None), true, [VerifyRequest])
  {
  }

  /**
   * The OTP is cleared while its check is in flight: the wizard reaches the
   * OCR step with no OTP, which no sequence of wizard events allows.
   */
  lemma OtpClearedWhileVerifying(w: Wizard)
    requires w.step == EnterOtp && EmailOtpFilled(w)
    ensures var p := Play(Idle(w), [Press(VerifyOtpButton), Input(EditOtp("")), Arrive(0, VerifyAnswer(Ok))]);
      p.w.step == Ocr && p.w.otp == "" && !Consistent(p.w)
  {
    var p1 := Page(w.(err := None), true, [VerifyRequest]);
    var p2 := p1.(w := p1.w.(otp := ""));
    var p3 := Idle(p2.w.(step := Ocr));
    calc {
      Play(Idle(w), [Press(VerifyOtpButton), Input(EditOtp("")), Arrive(0, VerifyAnswer(Ok))]);
      { PlayFirst(Idle(w), Press(VerifyOtpButton), [Input(EditOtp("")), Arrive(0, VerifyAnswer(Ok))]);
        VerifySent(w); }
      Play(p1, [Input(EditOtp("")), Arrive(0, VerifyAnswer(Ok))]);
      { PlayFirst(p1, Input(EditOtp("")), [Arrive(0, VerifyAnswer(Ok))]); }
      Play(p2, [Arrive(0, VerifyAnswer(Ok))]);
      { PlayFirst(p2, Arrive(0, VerifyAnswer(Ok)), []);
        Arrives(p2, 0, VerifyAnswer(Ok));
        assert Without(p2.inFlight, 0) == []; }
      Play(p3, []);
    }
    assert !Filled("");
  }

  lemma OnboardSent(w: Wizard)
    requires w.step == ChoosePackage && !Crashed(w) && OnboardCheck(w).None?
    ensures Do(Idle(w), Press(OnboardButton)) == Page(w.(err := None), true, [OnboardRequest])
  {
  }

  /** No single wizard event leads from the OCR step to the onboarded step. */
  lemma NoEventOnboardsFromOcr(w: Wizard)
    requires w.step == Ocr
    ensures forall e :: Apply(w, e).step != Onboarded
  {
    forall e
      ensures Apply(w, e).step != Onboarded
    {
      StepChangesOnlyAlongEdges(w, e);
    }
  }

  /**
   * "Back" pressed while onboarding is in flight: the success lands on the OCR
   * step and jumps from it to the onboarded step, which no single wizard event can do.
   */
  lemma OnboardLandsAfterBack(w: Wizard)
    requires w.step == ChoosePackage && !Crashed(w) && OnboardCheck(w).None?
    ensures var p1 := Do(Idle(w), Press(OnboardButton));
      var p2 := Do(p1, Input(PressBack));
      var p3 := Do(p2, Arrive(0, OnboardAnswer(Ok)));
      && p2.w.step == Ocr && p3.w.step == Onboarded
      && forall e :: Apply(p2.w, e).step != Onboarded
  {
    OnboardSent(w);
    var p1 := Page(w.(err := None), true, [OnboardRequest]);
    assert !Crashed(p1.w) by {
      assert p1.w.packages == w.packages;
    }
    var p2 := Do(p1, Input(PressBack));
    assert p2 == Page(p1.w.(step := Ocr), true, [OnboardRequest]);
    Arrives(p2, 0, OnboardAnswer(Ok));
    NoEventOnboardsFromOcr(p2.w);
  }

  lemma OcrSent(w: Wizard)
    requires w.step == Ocr && w.hasFile
    ensures Do(Idle(w), Press(OcrButton)) == Page(w.(err := None), true, [OcrRequest])
  {
  }

  lemma ContinueWhileOcr(w: Wizard, inFlight: seq<Request>)
    requires w.step == Ocr && |w.packages| > 0
    ensures Do(Page(w, true, inFlight), Press(ContinueButton)) == Page(w.(step := ChoosePackage), false, inFlight)
  {
  }

  lemma OnboardSentWhileOcr(w: Wizard)
    requires w.step == ChoosePackage && !Crashed(w) && OnboardCheck(w).None?
    ensures Do(Page(w, false, [OcrRequest]), Press(OnboardButton))
         == Page(w.(err := None), true, [OcrRequest, OnboardRequest])
  {
  }

  /** The wizard the OCR race starts from: the OCR step, a file, everything onboarding checks, packages loaded. */
  predicate ReadyForOcrRace(w: Wizard) {
    && w.step == Ocr && w.hasFile && OnboardCheck(w).None? && w.err == None
    && |w.packages| > 0 && forall i :: 0 <= i < |w.packages| ==> w.packages[i].Some?
  }

  /**
   * An OCR reply that arrives after "Continue" and a successful onboarding
   * rewrites the vehicle fields on the onboarded step; one that found nothing
   * empties the VIN there.
   */
  lemma OcrLandsAfterOnboarding(w: Wizard)
    requires ReadyForOcrRace(w)
    ensures var p := Play(Idle(w), [Press(OcrButton), Press(ContinueButton), Press(OnboardButton),
                                    Arrive(1, OnboardAnswer(Ok)), Arrive(0, OcrAnswer(OcrOk(None, None, None, [])))]);
      p.w.step == Onboarded && p.w.vin == "" && !Consistent(p.w)
  {
    OcrRace(w);
    assert !Filled("");
  }

  /** The trace of `OcrLandsAfterOnboarding`, step by step. */
  lemma OcrRace(w: Wizard)
    requires ReadyForOcrRace(w)
    ensures Play(Idle(w), [Press(OcrButton), Press(ContinueButton), Press(OnboardButton),
                           Arrive(1, OnboardAnswer(Ok)), Arrive(0, OcrAnswer(OcrOk(None, None, None, [])))])
         == Idle(OcrAnswered(w.(step := Onboarded), OcrOk(None, None, None, [])))
  {
    var empty := OcrAnswer(OcrOk(None, None, None, []));
    var w2 := w.(step := ChoosePackage);
    assert !Crashed(w2);
    OcrRaceTail(w);
    calc {
      Play(Idle(w), [Press(OcrButton), Press(ContinueButton), Press(OnboardButton),
                     Arrive(1, OnboardAnswer(Ok)), Arrive(0, empty)]);
      { PlayFirst(Idle(w), Press(OcrButton),
                  [Press(ContinueButton), Press(OnboardButton), Arrive(1, OnboardAnswer(Ok)), Arrive(0, empty)]);
        OcrSent(w); }
      Play(Page(w, true, [OcrRequest]),
           [Press(ContinueButton), Press(OnboardButton), Arrive(1, OnboardAnswer(Ok)), Arrive(0, empty)]);
      { PlayFirst(Page(w, true, [OcrRequest]), Press(ContinueButton),
                  [Press(OnboardButton), Arrive(1, OnboardAnswer(Ok)), Arrive(0, empty)]);
        ContinueWhileOcr(w, [OcrRequest]); }
      Play(Page(w2, false, [OcrRequest]), [Press(OnboardButton), Arrive(1, OnboardAnswer(Ok)), Arrive(0, empty)]);
      { PlayFirst(Page(w2, false, [OcrRequest]), Press(OnboardButton), [Arrive(1, OnboardAnswer(Ok)), Arrive(0, empty)]);
        OnboardSentWhileOcr(w2); }
      Play(Page(w2, true, [OcrRequest, OnboardRequest]), [Arrive(1, OnboardAnswer(Ok)), Arrive(0, empty)]);
      Play(Idle(OcrAnswered(w.(step := Onboarded), OcrOk(None, None, None, []))), []);
    }
  }

  /** The two replies of the OCR race, onboarding first. */
  lemma OcrRaceTail(w: Wizard)
    requires ReadyForOcrRace(w)
    ensures var empty := OcrAnswer(OcrOk(None, None, None, []));
      Play(Page(w.(step := ChoosePackage), true, [OcrRequest, OnboardRequest]), [Arrive(1, OnboardAnswer(Ok)), Arrive(0, empty)])
      == Idle(OcrAnswered(w.(step := Onboarded), OcrOk(None, None, None, [])))
  {
    var empty := OcrAnswer(OcrOk(None, None, None, []));
    var w2 := w.(step := ChoosePackage);
    assert !Crashed(w2);
    var p4 := Page(w.(step := Onboarded), false, [OcrRequest]);
    calc {
      Play(Page(w2, true, [OcrRequest, OnboardRequest]), [Arrive(1, OnboardAnswer(Ok)), Arrive(0, empty)]);
      { PlayFirst(Page(w2, true, [OcrRequest, OnboardRequest]), Arrive(1, OnboardAnswer(Ok)), [Arrive(0, empty)]);
        Arrives(Page(w2, true, [OcrRequest, OnboardRequest]), 1, OnboardAnswer(Ok));
        assert Without([OcrRequest, OnboardRequest], 1) == [OcrRequest]; }
      Play(p4, [Arrive(0, empty)]);
      { PlayFirst(p4, Arrive(0, empty), []);
        Arrives(p4, 0, empty);
        assert Without([OcrRequest], 0) == []; }
      Play(Idle(OcrAnswered(w.(step := Onboarded), OcrOk(None, None, None, []))), []);
    }
  }
}
