/**
 * The staff dashboard's account-creation wizard: contact details and OTP, then
 * the vehicle document OCR, then the battery package, then onboarding.
 *
 * Each user action is one transition. A request and its reply happen inside
 * one transition; the reply is an argument, so the network is an oracle.
 * An action whose control is not on screen, or is disabled, changes nothing.
 * This is the page as used when every reply arrives before the next action;
 * `WizardPage` lets replies arrive later, in any order.
 */
module AccountWizard {
  import opened JsValues

  /** The wizard's steps; the component stores them as the numbers 1, 1.5, 2, 3 and 3.9. */
  datatype Step = EnterInfo | EnterOtp | Ocr | ChoosePackage | Onboarded

  /** The stored step number, in tenths. */
  function Tenths(s: Step): (r: nat)
    ensures s.EnterInfo? <==> r == 10
    ensures s.EnterOtp? <==> r == 15
    ensures s.Ocr? <==> r == 20
    ensures s.ChoosePackage? <==> r == 30
    ensures s.Onboarded? <==> r == 39
  {
    match s
    case EnterInfo => 10
    case EnterOtp => 15
    case Ocr => 20
    case ChoosePackage => 30
    case Onboarded => 39
  }

  const MissingContact := "Vui lòng nhập đủ Họ tên, Số điện thoại và Email."
  const SendFailed := "Không gửi được OTP"
  const MissingEmailOtp := "Vui lòng nhập Email & OTP."
  const OtpRejected := "OTP không hợp lệ"
  const MissingFile := "Vui lòng chọn ảnh cà-vẹt xe."
  const OcrFailed := "OCR thất bại"
  const PackagesFailed := "Không tải được danh sách gói"
  const OnboardMissingEmailOtp := "Thiếu Email hoặc OTP."
  const MissingVehicle := "Vui lòng hoàn tất thông tin xe: VIN, Biển số, Model."
  const MissingPackage := "Vui lòng chọn gói pin."
  const OnboardFailed := "Gộp verify & onboard thất bại"
  /** The `TypeError` V8 throws when the first package is `null`. */
  const NullPackageError := "Cannot read properties of null (reading 'packageId')"

  /** A server reply: success, or the message of the error thrown for it. */
  datatype Reply = Ok | Failed(message: string)

  /** The OCR reply: the three suggestion tables in priority order and the accepted model names. */
  datatype OcrReply =
    | OcrOk(final: Option<map<string, string>>, overrides: Option<map<string, string>>,
            suggests: Option<map<string, string>>, acceptedModels: seq<string>)
    | OcrError(message: string)

  /** The package-list reply; a `None` element is a JSON `null`. */
  datatype PackagesReply = PackagesOk(list: seq<Option<Obj>>) | PackagesError(message: string)

  datatype Wizard = Wizard(
    step: Step,
    fullName: string, phone: string, email: string, otp: string,
    hasFile: bool,
    owner: string, vin: string, plate: string, model: string,
    acceptedModels: seq<string>,
    packages: seq<Option<Obj>>, selPackage: string,
    err: Option<string>)

  const Initial := Wizard(EnterInfo, "", "", "", "", false, "", "", "", "", [], [], "", None)

  /** `e.message || fallback` */
  function ErrorText(message: string, fallback: string): (r: string)
    requires fallback != ""
    ensures r != ""
    ensures message != "" ==> r == message
  {
    if message != "" then message else fallback
  }

  predicate Filled(s: string) {
    Trim(s) != ""
  }

  predicate ContactFilled(w: Wizard) {
    Filled(w.fullName) && Filled(w.phone) && Filled(w.email)
  }

  predicate EmailOtpFilled(w: Wizard) {
    Filled(w.email) && Filled(w.otp)
  }

  predicate VehicleFilled(w: Wizard) {
    Filled(w.vin) && Filled(w.plate) && Filled(w.model)
  }

  /**
   * The package step renders `p.packageId` for every package, so a `null`
   * package there throws during rendering; with no error boundary the page is
   * unmounted and no control or reply has any effect afterwards.
   */
  predicate Crashed(w: Wizard) {
    w.step == ChoosePackage && exists i :: 0 <= i < |w.packages| && w.packages[i].None?
  }

  // ---------------------------------------------------------------- replies

  /** What `handleSendOtp` does once the server has answered. */
  function SendAnswered(w: Wizard, reply: Reply): Wizard {
    match reply
    case Ok => w.(step := EnterOtp)
    case Failed(m) => w.(err := Some(ErrorText(m, SendFailed)))
  }

  /** What `handleVerifyOtpOnly` does once the server has answered. */
  function VerifyAnswered(w: Wizard, reply: Reply): Wizard {
    match reply
    case Ok => w.(step := Ocr)
    case Failed(m) => w.(err := Some(ErrorText(m, OtpRejected)))
  }

  /** What `handleUploadOcr` does once the server has answered: it fills the fields whatever the step is by then. */
  function OcrAnswered(w: Wizard, reply: OcrReply): Wizard {
    match reply
    case OcrOk(f, o, s, models) =>
      w.(owner := Pick(f, o, s, "owner"), vin := Pick(f, o, s, "vin"),
         plate := Pick(f, o, s, "licensePlate"), model := Pick(f, o, s, "model"),
         acceptedModels := models)
    case OcrError(m) => w.(err := Some(ErrorText(m, OcrFailed)))
  }

  /**
   * What `loadPackagesIfNeeded` does once the server has answered: the list is
   * stored before the first package's id is read, so a `null` first package
   * leaves the list stored and the `TypeError` as the error.
   */
  function PackagesAnswered(w: Wizard, reply: PackagesReply): Wizard {
    match reply
    case PackagesOk(list) =>
      if |list| == 0 then w.(packages := list)
      else if list[0].None? then w.(packages := list, err := Some(NullPackageError))
      else w.(packages := list, selPackage := PackageId(list[0].value))
    case PackagesError(m) => w.(err := Some(ErrorText(m, PackagesFailed)))
  }

  /** What `handleVerifyAndOnboard` does once the server has answered. */
  function OnboardAnswered(w: Wizard, reply: Reply): Wizard {
    match reply
    case Ok => w.(step := Onboarded)
    case Failed(m) => w.(err := Some(ErrorText(m, OnboardFailed)))
  }

  // ---------------------------------------------------------------- handlers

  /** `handleSendOtp`: clears the error, checks the three contact fields, then asks the server. */
  function SendOtp(w: Wizard, reply: Reply): (r: Wizard)
    ensures r.step == EnterOtp <==> (ContactFilled(w) && reply.Ok?) || (w.step == EnterOtp && !(ContactFilled(w) && reply.Ok?))
    ensures r.err == None <==> ContactFilled(w) && reply.Ok?
    ensures !ContactFilled(w) ==> r.err == Some(MissingContact)
    ensures ContactFilled(w) && reply.Failed? ==> r.err == Some(ErrorText(reply.message, SendFailed))
    ensures r == w.(step := r.step, err := r.err)
  {
    if !ContactFilled(w) then w.(err := Some(MissingContact))
    else SendAnswered(w.(err := None), reply)
  }

  /** `handleVerifyOtpOnly`: clears the error, checks e-mail and OTP, then asks the server. */
  function VerifyOtp(w: Wizard, reply: Reply): (r: Wizard)
    ensures r.step == Ocr <==> (EmailOtpFilled(w) && reply.Ok?) || (w.step == Ocr && !(EmailOtpFilled(w) && reply.Ok?))
    ensures r.err == None <==> EmailOtpFilled(w) && reply.Ok?
    ensures !EmailOtpFilled(w) ==> r.err == Some(MissingEmailOtp)
    ensures EmailOtpFilled(w) && reply.Failed? ==> r.err == Some(ErrorText(reply.message, OtpRejected))
    ensures r == w.(step := r.step, err := r.err)
  {
    if !EmailOtpFilled(w) then w.(err := Some(MissingEmailOtp))
    else VerifyAnswered(w.(err := None), reply)
  }

  /** `pick(k)`: the first table holding `k`, in the order final, overrides, suggests; "" when none does. */
  function Pick(final: Option<map<string, string>>, overrides: Option<map<string, string>>,
                suggests: Option<map<string, string>>, k: string): (r: string)
    ensures final.Some? && k in final.value ==> r == final.value[k]
    ensures (final.None? || k !in final.value) && overrides.Some? && k in overrides.value ==> r == overrides.value[k]
    ensures ((final.None? || k !in final.value) && (overrides.None? || k !in overrides.value)
      && suggests.Some? && k in suggests.value) ==> r == suggests.value[k]
    ensures ((final.None? || k !in final.value) && (overrides.None? || k !in overrides.value)
      && (suggests.None? || k !in suggests.value)) ==> r == ""
  {
    if final.Some? && k in final.value then final.value[k]
    else if overrides.Some? && k in overrides.value then overrides.value[k]
    else if suggests.Some? && k in suggests.value then suggests.value[k]
    else ""
  }

  /** `handleUploadOcr`: fills owner, VIN, plate and model from the OCR reply; the step does not change. */
  function UploadOcr(w: Wizard, reply: OcrReply): (r: Wizard)
    ensures r.step == w.step
    ensures !w.hasFile ==> r.err == Some(MissingFile)
    ensures w.hasFile && reply.OcrError? ==> r.err == Some(ErrorText(reply.message, OcrFailed))
    ensures w.hasFile && reply.OcrOk? ==>
      && r.owner == Pick(reply.final, reply.overrides, reply.suggests, "owner")
      && r.vin == Pick(reply.final, reply.overrides, reply.suggests, "vin")
      && r.plate == Pick(reply.final, reply.overrides, reply.suggests, "licensePlate")
      && r.model == Pick(reply.final, reply.overrides, reply.suggests, "model")
      && r.acceptedModels == reply.acceptedModels
      && r.err == None
    ensures !w.hasFile || reply.OcrError? ==> r == w.(err := r.err)
    ensures r == w.(owner := r.owner, vin := r.vin, plate := r.plate, model := r.model,
                    acceptedModels := r.acceptedModels, err := r.err)
  {
    if !w.hasFile then w.(err := Some(MissingFile))
    else OcrAnswered(w.(err := None), reply)
  }

  /** `String(p.packageId ?? p.Package_ID ?? p.id)` */
  function PackageId(p: Obj): string {
    ToStr(Coalesce(Coalesce(Get(p, "packageId"), Get(p, "Package_ID")), Get(p, "id")))
  }

  /** "Continue": moves to the package step and loads the package list unless one is already loaded. */
  function Continue(w: Wizard, reply: PackagesReply): (r: Wizard)
    ensures r.step == ChoosePackage
    ensures |w.packages| > 0 ==> r == w.(step := ChoosePackage)
    ensures |w.packages| == 0 && reply.PackagesOk? ==> r.packages == reply.list
    ensures |w.packages| == 0 && reply.PackagesOk? && |reply.list| > 0 && reply.list[0].Some? ==>
      r.selPackage == PackageId(reply.list[0].value) && r.err == w.err
    ensures |w.packages| == 0 && reply.PackagesOk? && |reply.list| > 0 && reply.list[0].None? ==>
      r.selPackage == w.selPackage && r.err == Some(NullPackageError)
    ensures |w.packages| == 0 && reply.PackagesError? ==>
      r.packages == w.packages && r.err == Some(ErrorText(reply.message, PackagesFailed))
    ensures r.err != w.err ==> |w.packages| == 0 && (reply.PackagesError? || (|reply.list| > 0 && reply.list[0].None?))
    ensures r.selPackage != w.selPackage ==> |w.packages| == 0 && reply.PackagesOk? && |reply.list| > 0 && reply.list[0].Some?
    ensures r == w.(step := r.step, packages := r.packages, selPackage := r.selPackage, err := r.err)
  {
    var w0 := w.(step := ChoosePackage);
    if |w.packages| > 0 then w0 else PackagesAnswered(w0, reply)
  }

  /** The validation of `handleVerifyAndOnboard`: the first missing piece, in the source's order. */
  function OnboardCheck(w: Wizard): (r: Option<string>)
    ensures r == Some(OnboardMissingEmailOtp) <==> !EmailOtpFilled(w)
    ensures r == Some(MissingVehicle) <==> EmailOtpFilled(w) && !VehicleFilled(w)
    ensures r == Some(MissingPackage) <==> EmailOtpFilled(w) && VehicleFilled(w) && w.selPackage == ""
    ensures r == None <==> EmailOtpFilled(w) && VehicleFilled(w) && w.selPackage != ""
  {
    if !EmailOtpFilled(w) then Some(OnboardMissingEmailOtp)
    else if !VehicleFilled(w) then Some(MissingVehicle)
    else if w.selPackage == "" then Some(MissingPackage)
    else None
  }

  /** `handleVerifyAndOnboard` */
  function Onboard(w: Wizard, reply: Reply): (r: Wizard)
    ensures r.step == Onboarded <==> (OnboardCheck(w).None? && reply.Ok?) || (w.step == Onboarded && !(OnboardCheck(w).None? && reply.Ok?))
    ensures OnboardCheck(w).Some? ==> r.err == OnboardCheck(w)
    ensures OnboardCheck(w).None? && reply.Ok? ==> r.err == None
    ensures OnboardCheck(w).None? && reply.Failed? ==> r.err == Some(ErrorText(reply.message, OnboardFailed))
    ensures r == w.(step := r.step, err := r.err)
  {
    match OnboardCheck(w)
    case Some(msg) => w.(err := Some(msg))
    case None => OnboardAnswered(w.(err := None), reply)
  }

  // ---------------------------------------------------------------- user actions

  datatype Event =
    | EditName(text: string) | EditPhone(text: string) | EditEmail(text: string) | EditOtp(text: string)
    | ChooseFile(present: bool)
    | EditOwner(text: string) | EditVin(text: string) | EditPlate(text: string) | EditModel(text: string)
    | SelectPackage(index: nat)
    | PressSendOtp(reply: Reply) | PressVerifyOtp(reply: Reply) | PressOcr(ocr: OcrReply)
    | PressBack | PressContinue(packagesReply: PackagesReply) | PressOnboard(reply: Reply)

  /** The contact fields and the send button are on screen at steps 1 and 1.5. */
  predicate ContactShown(s: Step) {
    s == EnterInfo || s == EnterOtp
  }

  /** One user action. Controls that are not rendered, or are disabled, do nothing; nothing does anything after a crash. */
  function Apply(w: Wizard, e: Event): Wizard {
    if Crashed(w) then w
    else match e
    case EditName(t) => if ContactShown(w.step) then w.(fullName := t) else w
    case EditPhone(t) => if ContactShown(w.step) then w.(phone := t) else w
    case EditEmail(t) => if ContactShown(w.step) then w.(email := t) else w
    case EditOtp(t) => if w.step == EnterOtp then w.(otp := t) else w
    case ChooseFile(p) => if w.step == Ocr then w.(hasFile := p) else w
    case EditOwner(t) => if w.step == Ocr then w.(owner := t) else w
    case EditVin(t) => if w.step == Ocr then w.(vin := t) else w
    case EditPlate(t) => if w.step == Ocr then w.(plate := t) else w
    case EditModel(t) =>
      if w.step == Ocr && (t == "" || t in w.acceptedModels) then w.(model := t) else w
    case SelectPackage(i) =>
      if w.step == ChoosePackage && i < |w.packages| then w.(selPackage := PackageId(w.packages[i].value)) else w
    case PressSendOtp(reply) => if ContactShown(w.step) then SendOtp(w, reply) else w
    case PressVerifyOtp(reply) => if w.step == EnterOtp && Filled(w.otp) then VerifyOtp(w, reply) else w
    case PressOcr(reply) => if w.step == Ocr && w.hasFile then UploadOcr(w, reply) else w
    case PressBack =>
      if w.step == Ocr then w.(step := EnterOtp)
      else if w.step == ChoosePackage then w.(step := Ocr)
      else w
    case PressContinue(reply) => if w.step == Ocr then Continue(w, reply) else w
    case PressOnboard(reply) => if w.step == ChoosePackage && w.selPackage != "" then Onboard(w, reply) else w
  }

  function Run(w: Wizard, events: seq<Event>): Wizard
    decreases |events|
  {
    if |events| == 0 then w else Run(Apply(w, events[0]), events[1..])
  }

  // ---------------------------------------------------------------- properties

  /**
   * What reaching a step guarantees: from the OCR step on, e-mail and OTP
   * were accepted; once onboarded, the vehicle and the package were given too.
   */
  predicate Consistent(w: Wizard) {
    && (Tenths(w.step) >= 20 ==> EmailOtpFilled(w))
    && (w.step == Onboarded ==> VehicleFilled(w) && w.selPackage != "")
  }

  lemma InitialConsistent()
    ensures Consistent(Initial)
  {
  }

  lemma SendOtpConsistent(w: Wizard, reply: Reply)
    requires Consistent(w) && ContactShown(w.step)
    ensures Consistent(SendOtp(w, reply))
  {
  }

  lemma VerifyOtpConsistent(w: Wizard, reply: Reply)
    requires Consistent(w) && w.step == EnterOtp
    ensures Consistent(VerifyOtp(w, reply))
  {
  }

  lemma UploadOcrConsistent(w: Wizard, reply: OcrReply)
    requires Consistent(w) && w.step == Ocr
    ensures Consistent(UploadOcr(w, reply))
  {
  }

  lemma ContinueConsistent(w: Wizard, reply: PackagesReply)
    requires Consistent(w) && w.step == Ocr
    ensures Consistent(Continue(w, reply))
  {
  }

  lemma OnboardConsistent(w: Wizard, reply: Reply)
    requires Consistent(w) && w.step == ChoosePackage
    ensures Consistent(Onboard(w, reply))
  {
  }

  /** A button that talks to the server. */
  predicate IsPress(e: Event) {
    e.PressSendOtp? || e.PressVerifyOtp? || e.PressOcr? || e.PressContinue? || e.PressOnboard?
  }

  /** Every action keeps the wizard consistent. */
  lemma ApplyPreservesConsistent(w: Wizard, e: Event)
    requires Consistent(w)
    ensures Consistent(Apply(w, e))
  {
    if IsPress(e) {
      PressPreservesConsistent(w, e);
    } else {
      EditPreservesConsistent(w, e);
    }
  }

  lemma PressPreservesConsistent(w: Wizard, e: Event)
    requires Consistent(w) && IsPress(e)
    ensures Consistent(Apply(w, e))
  {
    match e
    case PressSendOtp(reply) =>
      if ContactShown(w.step) {
        SendOtpConsistent(w, reply);
      }
    case PressVerifyOtp(reply) =>
      if w.step == EnterOtp && Filled(w.otp) {
        VerifyOtpConsistent(w, reply);
      }
    case PressOcr(reply) =>
      if w.step == Ocr && w.hasFile {
        UploadOcrConsistent(w, reply);
      }
    case PressContinue(reply) =>
      if w.step == Ocr {
        ContinueConsistent(w, reply);
      }
    case PressOnboard(reply) =>
      if w.step == ChoosePackage && w.selPackage != "" {
        OnboardConsistent(w, reply);
      }
  }

  lemma EditPreservesConsistent(w: Wizard, e: Event)
    requires Consistent(w) && !IsPress(e)
    ensures Consistent(Apply(w, e))
  {
    match e
    case EditName(_) =>
      EditKeepsConsistent(w, Apply(w, e));
    case EditPhone(_) =>
      EditKeepsConsistent(w, Apply(w, e));
    case EditEmail(_) =>
      if ContactShown(w.step) {
        EarlyConsistent(Apply(w, e));
      }
    case EditOtp(_) =>
      if w.step == EnterOtp {
        EarlyConsistent(Apply(w, e));
      }
    case ChooseFile(_) =>
      EditKeepsConsistent(w, Apply(w, e));
    case EditOwner(_) =>
      EditKeepsConsistent(w, Apply(w, e));
    case EditVin(_) =>
      EditKeepsConsistent(w, Apply(w, e));
    case EditPlate(_) =>
      EditKeepsConsistent(w, Apply(w, e));
    case EditModel(_) =>
      EditKeepsConsistent(w, Apply(w, e));
    case SelectPackage(_) =>
      EditKeepsConsistent(w, Apply(w, e));
    case PressBack =>
      EditKeepsConsistent(w, Apply(w, e));
  }

  /** Before the OCR step nothing has been promised yet. */
  lemma EarlyConsistent(w: Wizard)
    requires ContactShown(w.step)
    ensures Consistent(w)
  {
  }

  /**
   * A change that keeps e-mail and OTP, and either keeps the step and the
   * onboarding data or moves to a step before onboarding, keeps consistency.
   */
  lemma EditKeepsConsistent(w: Wizard, w': Wizard)
    requires Consistent(w)
    requires w'.email == w.email && w'.otp == w.otp
    requires Tenths(w'.step) <= Tenths(w.step)
    requires w'.step == Onboarded ==> w' == w
    ensures Consistent(w')
  {
  }

  /** Whatever the user does and whatever the server answers, the wizard stays consistent. */
  lemma {:induction false} RunConsistent(w: Wizard, events: seq<Event>)
    requires Consistent(w)
    ensures Consistent(Run(w, events))
    decreases |events|
  {
    if |events| > 0 {
      ApplyPreservesConsistent(w, events[0]);
      RunConsistent(Apply(w, events[0]), events[1..]);
    }
  }

  /** The only step changes, each with the action and the condition that causes it. */
  predicate Edge(w: Wizard, e: Event, to: Step) {
    || (w.step == EnterInfo && to == EnterOtp && e.PressSendOtp? && e.reply.Ok? && ContactFilled(w))
    || (w.step == EnterOtp && to == Ocr && e.PressVerifyOtp? && e.reply.Ok? && EmailOtpFilled(w))
    || (w.step == Ocr && to == EnterOtp && e.PressBack?)
    || (w.step == Ocr && to == ChoosePackage && e.PressContinue?)
    || (w.step == ChoosePackage && !Crashed(w) && to == Ocr && e.PressBack?)
    || (w.step == ChoosePackage && !Crashed(w) && to == Onboarded && e.PressOnboard? && e.reply.Ok? && OnboardCheck(w).None?)
  }

  /** A step change happens only along an edge. */
  lemma StepChangesOnlyAlongEdges(w: Wizard, e: Event)
    ensures Apply(w, e).step != w.step ==> Edge(w, e, Apply(w, e).step)
  {
  }

  /** Every edge is taken when its action happens under its condition. */
  lemma EdgesAreTaken(w: Wizard, e: Event, to: Step)
    requires Edge(w, e, to)
    ensures Apply(w, e).step == to
  {
    match e
    case PressSendOtp(reply) =>
      assert Apply(w, e) == SendOtp(w, reply);
    case PressVerifyOtp(reply) =>
      assert Filled(w.otp);
      assert Apply(w, e) == VerifyOtp(w, reply);
    case PressContinue(reply) =>
      assert Apply(w, e) == Continue(w, reply);
    case PressOnboard(reply) =>
      assert w.selPackage != "";
      assert Apply(w, e) == Onboard(w, reply);
    case _ =>
  }

  /** Once onboarded, nothing is on screen and no action changes anything. */
  lemma OnboardedIsFinal(w: Wizard, e: Event)
    requires w.step == Onboarded
    ensures Apply(w, e) == w
  {
  }

  /**
   * A package list with a `null` anywhere crashes the package step as soon as
   * it is stored; a `null` first package also leaves the `TypeError` as the error.
   * From then on no event has any effect.
   */
  lemma NullPackageFreezes(w: Wizard, reply: PackagesReply, e: Event)
    requires w.step == Ocr && |w.packages| == 0 && reply.PackagesOk?
    requires exists i :: 0 <= i < |reply.list| && reply.list[i].None?
    ensures var r := Apply(w, PressContinue(reply));
      && Crashed(r) && r.packages == reply.list
      && (reply.list[0].None? ==> r.err == Some(NullPackageError))
      && Apply(r, e) == r
  {
  }

  /** The four messages the onboard handler can set have different lengths, so they are distinct. */
  lemma OnboardMessagesDistinct()
    ensures MissingPackage != OnboardMissingEmailOtp && MissingPackage != MissingVehicle
    ensures MissingPackage != OnboardFailed
  {
    assert |MissingPackage| == 22 && |OnboardMissingEmailOtp| == 21;
    assert |MissingVehicle| == 52 && |OnboardFailed| == 29;
  }

  /**
   * The onboard button is disabled without a package, so its own "choose a
   * package" check never fires: if pressing it leaves that text, the server sent it.
   */
  lemma MissingPackageOnlyFromServer(w: Wizard, reply: Reply)
    ensures var r := Apply(w, PressOnboard(reply));
      r != w && r.err == Some(MissingPackage) ==> reply == Failed(MissingPackage)
  {
    OnboardMessagesDistinct();
  }

  /** The verify button is disabled without an OTP, so its check fails exactly when the e-mail is missing. */
  lemma VerifyCheckMeansMissingEmail(w: Wizard)
    requires w.step == EnterOtp && Filled(w.otp)
    ensures Apply(w, PressVerifyOtp(Ok)).err == Some(MissingEmailOtp) <==> !Filled(w.email)
  {
    var r := VerifyOtp(w, Ok);
    assert Apply(w, PressVerifyOtp(Ok)) == r;
    if Filled(w.email) {
      assert EmailOtpFilled(w) && r.err == None;
    } else {
      assert r.err == Some(MissingEmailOtp);
    }
  }
}
