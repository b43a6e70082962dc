/** The member details page: a form over one member that is read-only until
    Edit is pressed, saved through a PIN-confirmation modal, and reset on a
    confirmed cancel. */
module MemberDetails {
  import opened Common
  import opened Dates
  import opened Js
  import opened Validation
  import opened Members

  /** The update schema: the shared shape plus a boolean `verified` and a
      `planStarted` string that parses as a date. */
  const UpdateSchema: seq<FieldRule> :=
    MemberShape + [FieldRule(Verified, Boolean, false), FieldRule(PlanStarted, DateText, false)]

  /** The update schema accepts a form exactly when the shared shape holds,
      `verified` is a boolean and `planStarted` is a parseable date string. */
  lemma UpdateAcceptedIff(o: JsObject, isEmail: string -> bool)
    ensures SafeParseSucceeds(UpdateSchema, o, isEmail)
        <==> ShapeHolds(o, isEmail) && Get(o, Verified).Bool?
             && Get(o, PlanStarted).Str? && ParseIsoDate(Get(o, PlanStarted).s).Some?
  {
    var extra := [FieldRule(Verified, Boolean, false), FieldRule(PlanStarted, DateText, false)];
    SafeParseAppend(MemberShape, extra, o, isEmail);
    MemberShapeIff(o, isEmail);
    assert SafeParseSucceeds(extra, o, isEmail)
      <==> Admits(extra[0], o, isEmail) && Admits(extra[1], o, isEmail);
  }

  // ---------------------------------------------------------------------------
  // The form's contents
  // ---------------------------------------------------------------------------

  /** `new Date().toISOString().split("T")[0]` and the same for a stored date. */
  function DateInputText(d: Date): string {
    IsoDateString(Normalize(d))
  }

  /** The form before the member arrives. */
  function InitialForm(today: Date): JsObject {
    JsObject(
      serialNumber := Num(0), name := Str(""), age := Num(0), email := Str(""),
      gender := Str(""), phone := Str(""), address := Str(""), emergencyContact := Str(""),
      duration := Num(0), paymentMode := Str(""), utr := Str(""), receiverName := Str(""),
      amount := Str(""), verified := Bool(false), doj := Undefined,
      planStarted := Str(DateInputText(today)))
  }

  /** The member-to-form mapping used on load and on cancel, given the text of
      the plan-start input. Missing optional strings become `""`. */
  function FormWith(m: Member, planStartedText: string): JsObject {
    JsObject(
      serialNumber := if m.serialNumber.Some? then Num(m.serialNumber.value) else Undefined,
      name := Str(m.name), age := Num(m.age), email := Str(OrEmpty(m.email)),
      gender := Str(m.gender), phone := Str(m.phone), address := Str(OrEmpty(m.address)),
      emergencyContact := Str(OrEmpty(m.emergencyContact)), duration := Num(m.duration),
      paymentMode := Str(m.paymentMode), utr := Str(OrEmpty(m.utr)),
      receiverName := Str(OrEmpty(m.receiverName)), amount := Str(m.amount),
      verified := Bool(m.verified), doj := Undefined,
      planStarted := Str(planStartedText))
  }

  /** The plan-start date the form shows: the member's, or today when it has none. */
  function ShownPlanStart(m: Member, today: Date): Date {
    if m.planStarted.Some? then m.planStarted.value else today
  }

  function FormOf(m: Member, today: Date): JsObject {
    FormWith(m, DateInputText(ShownPlanStart(m, today)))
  }

  /** What a stored member must satisfy for its loaded form to be saved
      unchanged: the schema's rules on the member's values, with every missing
      optional string read as `""`. */
  predicate Updatable(m: Member, isEmail: string -> bool) {
    && m.serialNumber.Some?
    && |m.name| >= 1 && m.age >= 1
    && isEmail(OrEmpty(m.email))
    && m.gender in {"male", "female", "other"}
    && 10 <= |m.phone| <= 15
    && |OrEmpty(m.emergencyContact)| >= 10
    && m.duration >= 1
    && m.paymentMode in {"upi", "cash"}
    && |m.amount| >= 1
  }

  /** The shared shape holds of a loaded form exactly when `m` is updatable. */
  lemma FormWithShapeIff(m: Member, planStartedText: string, isEmail: string -> bool)
    ensures ShapeHolds(FormWith(m, planStartedText), isEmail) <==> Updatable(m, isEmail)
  {
    var o := FormWith(m, planStartedText);
    assert Get(o, Gender) in {Str("male"), Str("female"), Str("other")} <==> m.gender in {"male", "female", "other"};
    assert Get(o, PaymentMode) in {Str("upi"), Str("cash")} <==> m.paymentMode in {"upi", "cash"};
  }

  /** A form loaded from `m` with a parseable plan-start text is accepted
      exactly when `m` is updatable. */
  lemma LoadedFormWithAcceptedIff(m: Member, planStartedText: string, isEmail: string -> bool)
    requires ParseIsoDate(planStartedText).Some?
    ensures SafeParseSucceeds(UpdateSchema, FormWith(m, planStartedText), isEmail) <==> Updatable(m, isEmail)
  {
    var o := FormWith(m, planStartedText);
    UpdateAcceptedIff(o, isEmail);
    FormWithShapeIff(m, planStartedText, isEmail);
    assert Get(o, PlanStarted) == Str(planStartedText) && Get(o, Verified).Bool?;
  }

  /** Loading a member and pressing Save without edits gets past validation
      exactly when the member is updatable. */
  lemma LoadedFormAcceptedIff(m: Member, today: Date, isEmail: string -> bool)
    requires var d := Normalize(ShownPlanStart(m, today)); -999999 <= d.year <= 999999
    ensures SafeParseSucceeds(UpdateSchema, FormOf(m, today), isEmail) <==> Updatable(m, isEmail)
  {
    FormPlanStartedParses(m, today);
    LoadedFormWithAcceptedIff(m, DateInputText(ShownPlanStart(m, today)), isEmail);
  }

  /** The plan-start text reads back as the calendar day it was made from, so
      a form loaded from a member passes the `planStarted` check. */
  lemma FormPlanStartedParses(m: Member, today: Date)
    requires var d := Normalize(ShownPlanStart(m, today)); -999999 <= d.year <= 999999
    ensures ParseIsoDate(Get(FormOf(m, today), PlanStarted).s)
         == Some(Normalize(ShownPlanStart(m, today)))
  {
    ParseIsoDateOfString(Normalize(ShownPlanStart(m, today)));
  }

  /** A member stored without an e-mail can not be updated: its form holds `""`,
      which `.optional()` does not let through. */
  lemma MissingEmailBlocksUpdate(m: Member, planStartedText: string, isEmail: string -> bool)
    requires m.email.None? && !isEmail("")
    ensures !SafeParseSucceeds(UpdateSchema, FormWith(m, planStartedText), isEmail)
  {
    UpdateAcceptedIff(FormWith(m, planStartedText), isEmail);
  }

  // ---------------------------------------------------------------------------
  // Input handling
  // ---------------------------------------------------------------------------

  /** The `type` of an `<input>` (a `<select>` reports its own). */
  datatype InputType = TextType | NumberType | EmailType | TelType | DateType | SelectType

  /** `handleChange`'s coercion: number inputs and the duration select store `""`
      for an empty value and `parseInt(value)` otherwise; others store the text. */
  function Coerce(name: Key, value: string, kind: InputType): (v: JsValue)
    ensures (kind == NumberType || name == Duration) && value == "" ==> v == Str("")
    ensures (kind == NumberType || name == Duration) && value != "" ==> v == NumberOf(ParseInt(value))
    ensures !(kind == NumberType || name == Duration) ==> v == Str(value)
  {
    if kind == NumberType || name == Duration then
      if value == "" then Str("") else NumberOf(ParseInt(value))
    else Str(value)
  }

  /** A decimal numeral typed into a number input (or the duration select) is
      stored as the number it denotes; clearing the input stores `""`. */
  lemma NumberInputStoresValue(name: Key, kind: InputType, n: nat)
    requires kind == NumberType || name == Duration
    ensures Coerce(name, NatToString(n), kind) == Num(n)
    ensures Coerce(name, "", kind) == Str("")
  {
    ParseIntOfNatString(n, []);
    assert NatToString(n) + [] == NatToString(n);
  }

  /** The input the page renders for each form property. */
  function InputTypeOf(k: Key): InputType {
    match k
    case Name => TextType
    case SerialNumber => NumberType
    case Email => EmailType
    case Age => NumberType
    case Phone => TelType
    case EmergencyContact => TelType
    case Address => TextType
    case Utr => TextType
    case ReceiverName => TextType
    case Amount => NumberType
    case PlanStarted => DateType
    case _ => SelectType
  }

  /** The amount input is a number input, so any edit stores a number or `""`,
      neither of which the schema's non-empty string admits: once the amount is
      touched the form can not be saved. */
  lemma EditedAmountRejected(o: JsObject, value: string, isEmail: string -> bool)
    ensures !SafeParseSucceeds(UpdateSchema, Set(o, Amount, Coerce(Amount, value, InputTypeOf(Amount))), isEmail)
  {
    var o' := Set(o, Amount, Coerce(Amount, value, InputTypeOf(Amount)));
    UpdateAcceptedIff(o', isEmail);
    assert !StringOfLength(Get(o', Amount), 1, None);
  }

  /** `new Date(formData.planStarted)` on the form's string; the page only
      reaches it once the schema has checked that the value is a string. */
  function DateValueOf(v: JsValue): (r: JsValue)
    ensures v.Str? ==> r == NewDate(v.s)
  {
    if v.Str? then NewDate(v.s) else DateObj(None)
  }

  /** The `yyyy-mm-dd` text of a valid day converts to a Date holding that day. */
  lemma DateValueOfIsoString(d: Date)
    requires ValidDate(d) && -999999 <= d.year <= 999999
    ensures DateValueOf(Str(IsoDateString(d))) == DateObj(Some(d))
  {
    ParseIsoDateOfString(d);
  }

  /** The date sent for a form the schema accepted is the calendar day its
      `planStarted` string names. */
  lemma AcceptedPlanStartIsDate(o: JsObject, isEmail: string -> bool)
    requires SafeParseSucceeds(UpdateSchema, o, isEmail)
    ensures DateValueOf(Get(o, PlanStarted)).DateObj?
    ensures DateValueOf(Get(o, PlanStarted)).time.Some?
  {
    UpdateAcceptedIff(o, isEmail);
  }

  // ---------------------------------------------------------------------------
  // The page's state
  // ---------------------------------------------------------------------------

  class MemberDetailsView {
    var isEditing: bool
    var showUpdateModal: bool
    var pin: string
    var formData: JsObject

    constructor (today: Date)
      ensures !isEditing && !showUpdateModal && pin == ""
      ensures formData == InitialForm(today)
    {
      isEditing := false;
      showUpdateModal := false;
      pin := "";
      formData := InitialForm(today);
    }

    /** The effect on `member`: a loaded member replaces the form. */
    method OnMemberLoaded(member: Option<Member>, today: Date)
      modifies this
      ensures formData == if member.Some? then FormOf(member.value, today) else old(formData)
      ensures isEditing == old(isEditing) && showUpdateModal == old(showUpdateModal)
      ensures pin == old(pin)
    {
      if member.Some? {
        formData := FormOf(member.value, today);
      }
    }

    /** `handleChange` for the input named `name` of type `kind`: only that
        property of the form changes. */
    method HandleChange(name: Key, value: string, kind: InputType)
      modifies this
      ensures formData == Set(old(formData), name, Coerce(name, value, kind))
      ensures isEditing == old(isEditing) && showUpdateModal == old(showUpdateModal)
      ensures pin == old(pin)
    {
      formData := Set(formData, name, Coerce(name, value, kind));
    }

    /** The verified checkbox: its own handler stores `checked`, and it is
        disabled (fires nothing) until Edit is pressed. */
    method ToggleVerified(checked: bool)
      modifies this
      ensures formData == if old(isEditing) then Set(old(formData), Verified, Bool(checked)) else old(formData)
      ensures isEditing == old(isEditing) && showUpdateModal == old(showUpdateModal)
      ensures pin == old(pin)
    {
      if isEditing {
        formData := Set(formData, Verified, Bool(checked));
      }
    }

    /** Whether typing into the input for `k` reaches `handleChange`: inputs are
        read-only (selects disabled) until Edit is pressed, the serial number
        always is, the payment companions appear only for their mode, and
        `verified` and `DOJ` have no text input. */
    predicate Editable(k: Key)
      reads this
    {
      isEditing && k != SerialNumber && k != Verified && k != Doj
      && (k == Utr ==> Get(formData, PaymentMode) == Str("upi"))
      && (k == ReceiverName ==> Get(formData, PaymentMode) == Str("cash"))
    }

    /** The user types `value` into the rendered input for `k`. */
    method UserInput(k: Key, value: string)
      modifies this
      ensures old(Editable(k)) ==> formData == Set(old(formData), k, Coerce(k, value, InputTypeOf(k)))
      ensures !old(Editable(k)) ==> formData == old(formData)
      ensures isEditing == old(isEditing) && showUpdateModal == old(showUpdateModal)
      ensures pin == old(pin)
    {
      if Editable(k) {
        HandleChange(k, value, InputTypeOf(k));
      }
    }

    method SetPin(value: string)
      modifies this
      ensures pin == value
      ensures isEditing == old(isEditing) && showUpdateModal == old(showUpdateModal)
      ensures formData == old(formData)
    {
      pin := value;
    }

    /** `handleEdit`: only switches the form to editing. */
    method HandleEdit()
      modifies this
      ensures isEditing
      ensures showUpdateModal == old(showUpdateModal) && pin == old(pin)
      ensures formData == old(formData)
    {
      isEditing := true;
    }

    /** `handleSave`: only opens the PIN modal. */
    method HandleSave()
      modifies this
      ensures showUpdateModal
      ensures isEditing == old(isEditing) && pin == old(pin) && formData == old(formData)
    {
      showUpdateModal := true;
    }

    /** The modal's Cancel button. */
    method CloseModal()
      modifies this
      ensures !showUpdateModal
      ensures isEditing == old(isEditing) && pin == old(pin) && formData == old(formData)
    {
      showUpdateModal := false;
    }

    /** `handleConfirmUpdate`. A wrong PIN stops before validation; a form the
        schema rejects reports its issues; otherwise the form goes to the server
        with `planStarted` as a Date (`sent`), and `updateSucceeds` is the
        server's answer. */
    method HandleConfirmUpdate(isEmail: string -> bool, updateSucceeds: bool)
      returns (sent: Option<JsObject>, issues: seq<Key>, navigate: bool)
      modifies this
      ensures old(pin) != CorrectPin ==>
        && sent.None? && issues == [] && !navigate
        && isEditing == old(isEditing) && showUpdateModal == old(showUpdateModal)
        && pin == old(pin)
      ensures old(pin) == CorrectPin ==> issues == Issues(UpdateSchema, old(formData), isEmail)
      ensures sent.Some? <==> old(pin) == CorrectPin && SafeParseSucceeds(UpdateSchema, old(formData), isEmail)
      ensures sent.Some? ==>
        sent.value == Set(old(formData), PlanStarted, DateValueOf(Get(old(formData), PlanStarted)))
      ensures sent.None? ==>
        isEditing == old(isEditing) && showUpdateModal == old(showUpdateModal) && pin == old(pin)
      ensures sent.Some? && updateSucceeds ==> !isEditing && !showUpdateModal && pin == ""
      ensures sent.Some? && !updateSucceeds ==> isEditing == old(isEditing) && !showUpdateModal && pin == ""
      ensures navigate <==> sent.Some? && updateSucceeds
      ensures formData == old(formData)
    {
      sent, issues, navigate := None, [], false;
      if pin != CorrectPin {
        return;
      }
      issues := Issues(UpdateSchema, formData, isEmail);
      if issues != [] {
        return;
      }
      sent := Some(Set(formData, PlanStarted, DateValueOf(Get(formData, PlanStarted))));
      if updateSucceeds {
        isEditing := false;
        showUpdateModal := false;
        pin := "";
        navigate := true;
      } else {
        showUpdateModal := false;
        pin := "";
      }
    }

    /** `handleCancel`: when the user confirms, editing stops and the form is
        reset from the member with the same mapping as on load. */
    method HandleCancel(confirmed: bool, member: Option<Member>, today: Date)
      modifies this
      ensures isEditing == (old(isEditing) && !confirmed)
      ensures formData == if confirmed && member.Some? then FormOf(member.value, today) else old(formData)
      ensures showUpdateModal == old(showUpdateModal) && pin == old(pin)
    {
      if confirmed {
        isEditing := false;
        if member.Some? {
          formData := FormOf(member.value, today);
        }
      }
    }
  }
}
