/** The registration form: its field state, the next serial number, the record
    it submits and the schema that gates the submission. */
module RegisterForm {
  import opened Common
  import opened Dates
  import opened Js
  import opened Validation
  import opened Members

  /** The registration schema: the shared shape plus a valid `DOJ` Date. */
  const RegisterSchema: seq<FieldRule> := MemberShape + [FieldRule(Doj, DateObject, false)]

  // ---------------------------------------------------------------------------
  // The next serial number
  // ---------------------------------------------------------------------------

  /** `Math.max(...members.map(m => m.serialNumber || 1))`. */
  function MaxSerial(members: seq<Member>): (r: int)
    requires |members| > 0
    ensures forall i :: 0 <= i < |members| ==> SerialOr(members[i], 1) <= r
    ensures exists i :: 0 <= i < |members| && SerialOr(members[i], 1) == r
  {
    if |members| == 1 then SerialOr(members[0], 1)
    else
      var rest := MaxSerial(members[1..]);
      assert forall i :: 1 <= i < |members| ==> members[i] == members[1..][i - 1];
      if SerialOr(members[0], 1) >= rest then SerialOr(members[0], 1) else rest
  }

  /** The serial the effect proposes for a loaded, non-empty list. */
  function NextSerial(members: seq<Member>): int
    requires |members| > 0
  {
    MaxSerial(members) + 1
  }

  /** The proposal is one more than the largest serial (a missing or zero serial
      counting as 1), so it exceeds every serial in the list and is at least 2. */
  lemma NextSerialFresh(members: seq<Member>)
    requires |members| > 0
    ensures forall i :: 0 <= i < |members| ==> SerialOr(members[i], 1) < NextSerial(members)
    ensures forall i :: 0 <= i < |members| && members[i].serialNumber.Some? ==>
      members[i].serialNumber.value < NextSerial(members)
    ensures exists i :: 0 <= i < |members| && NextSerial(members) == SerialOr(members[i], 1) + 1
    ensures NextSerial(members) >= 2 <==> exists i :: 0 <= i < |members| && SerialOr(members[i], 1) >= 1
  {
    var w :| 0 <= w < |members| && SerialOr(members[w], 1) == MaxSerial(members);
    assert NextSerial(members) == SerialOr(members[w], 1) + 1;
    forall i | 0 <= i < |members| && members[i].serialNumber.Some?
      ensures members[i].serialNumber.value < NextSerial(members)
    {
      assert SerialOr(members[i], 1) <= MaxSerial(members);
    }
  }

  // ---------------------------------------------------------------------------
  // The submitted record
  // ---------------------------------------------------------------------------

  /** The form's state fields; `serialNumber` and `duration` hold `parseInt`
      results (`None` is NaN), the rest are the raw input strings. */
  datatype RegisterInputs = RegisterInputs(
    serialNumber: Option<int>, name: string, email: string, gender: string, age: string,
    phone: string, address: string, emergencyContact: string, duration: Option<int>,
    paymentMode: string, utr: string, receiverName: string, amount: string, doj: string)

  /** The object `handleSubmit` validates and sends. */
  function BuildRecord(v: RegisterInputs): JsObject {
    RecordWith(v, NumberOf(ParseInt(v.age)), NewDate(v.doj))
  }

  /** The record literal, given the parsed age and the joining Date object. */
  function RecordWith(v: RegisterInputs, age: JsValue, joined: JsValue): JsObject {
    JsObject(
      serialNumber := NumberOf(v.serialNumber),
      name := Str(v.name),
      age := age,
      email := Str(v.email),
      gender := Str(v.gender),
      phone := Str(v.phone),
      address := Str(v.address),
      emergencyContact := Str(v.emergencyContact),
      duration := NumberOf(v.duration),
      paymentMode := Str(v.paymentMode),
      utr := if v.paymentMode == "upi" then Str(v.utr) else Undefined,
      receiverName := if v.paymentMode == "cash" then Str(v.receiverName) else Undefined,
      amount := Str(v.amount),
      verified := Undefined,
      doj := joined,
      planStarted := joined)
  }

  /** `utr` goes out only for UPI payments and `receiverName` only for cash, each
      with the text typed; otherwise the property is `undefined`. */
  lemma RecordCompanionFields(v: RegisterInputs)
    ensures Get(BuildRecord(v), Utr) != Undefined <==> v.paymentMode == "upi"
    ensures v.paymentMode == "upi" ==> Get(BuildRecord(v), Utr) == Str(v.utr)
    ensures Get(BuildRecord(v), ReceiverName) != Undefined <==> v.paymentMode == "cash"
    ensures v.paymentMode == "cash" ==> Get(BuildRecord(v), ReceiverName) == Str(v.receiverName)
  {
  }

  /** The age goes out as the number typed: a decimal numeral is sent as its
      value, and an empty age as `NaN`. */
  lemma TypedAgeIsSent(v: RegisterInputs, n: nat)
    ensures Get(BuildRecord(v.(age := NatToString(n))), Age) == Num(n)
    ensures Get(BuildRecord(v.(age := "")), Age) == NaN
  {
    var w := v.(age := NatToString(n));
    RecordAge(w);
    RecordAge(v.(age := ""));
    ParseIntOfNatString(n, []);
    assert NatToString(n) + [] == NatToString(n);
    ParseIntEmpty();
  }

  lemma RecordAge(v: RegisterInputs)
    ensures Get(BuildRecord(v), Age) == NumberOf(ParseInt(v.age))
  {
  }

  /** `DOJ` and `planStarted` are the same date, read from the one date input. */
  lemma RecordDatesAgree(v: RegisterInputs)
    ensures Get(BuildRecord(v), Doj) == Get(BuildRecord(v), PlanStarted)
    ensures Get(BuildRecord(v), Doj) == DateObj(ParseIsoDate(v.doj))
  {
  }

  /** What makes the record valid. `email` and `emergencyContact` are always
      strings, so their `.optional()` never applies: the e-mail must match and
      the emergency contact must have ten characters even when left empty. The
      duration has no upper bound and the companion fields are unchecked. */
  predicate RegisterValid(v: RegisterInputs, isEmail: string -> bool) {
    InputsFitShape(v, isEmail) && ParseIsoDate(v.doj).Some?
  }

  /** The part of `RegisterValid` the shared shape checks. */
  predicate InputsFitShape(v: RegisterInputs, isEmail: string -> bool) {
    v.serialNumber.Some?
    && |v.name| >= 1
    && ParseInt(v.age).Some? && ParseInt(v.age).value >= 1
    && isEmail(v.email)
    && v.gender in {"male", "female", "other"}
    && 10 <= |v.phone| <= 15
    && |v.emergencyContact| >= 10
    && v.duration.Some? && v.duration.value >= 1
    && v.paymentMode in {"upi", "cash"}
    && |v.amount| >= 1
  }

  lemma RegisterAcceptedIff(v: RegisterInputs, isEmail: string -> bool)
    ensures SafeParseSucceeds(RegisterSchema, BuildRecord(v), isEmail) <==> RegisterValid(v, isEmail)
  {
    RegisterSchemaIff(BuildRecord(v), isEmail);
    RecordDatesAgree(v);
    RecordShape(v, isEmail);
  }

  /** The registration schema accepts an object exactly when the shared shape
      holds and `DOJ` is a valid Date. */
  lemma RegisterSchemaIff(o: JsObject, isEmail: string -> bool)
    ensures SafeParseSucceeds(RegisterSchema, o, isEmail)
        <==> ShapeHolds(o, isEmail) && Get(o, Doj).DateObj? && Get(o, Doj).time.Some?
  {
    var dojRule := FieldRule(Doj, DateObject, false);
    SafeParseAppend(MemberShape, [dojRule], o, isEmail);
    MemberShapeIff(o, isEmail);
    SingleRule(dojRule, o, isEmail);
  }

  lemma RecordShape(v: RegisterInputs, isEmail: string -> bool)
    ensures ShapeHolds(BuildRecord(v), isEmail) <==> InputsFitShape(v, isEmail)
  {
    var age := ParseInt(v.age);
    RecordWithShape(v, NumberOf(age), NewDate(v.doj), isEmail);
  }

  lemma RecordWithShape(v: RegisterInputs, age: JsValue, joined: JsValue, isEmail: string -> bool)
    ensures ShapeHolds(RecordWith(v, age, joined), isEmail)
        <==> (v.serialNumber.Some?
              && |v.name| >= 1
              && PositiveNumber(age)
              && isEmail(v.email)
              && v.gender in {"male", "female", "other"}
              && 10 <= |v.phone| <= 15
              && |v.emergencyContact| >= 10
              && v.duration.Some? && v.duration.value >= 1
              && v.paymentMode in {"upi", "cash"}
              && |v.amount| >= 1)
  {
  }

  /** An empty e-mail blocks registration (zod's pattern rejects ""). */
  lemma EmptyEmailRejected(v: RegisterInputs, isEmail: string -> bool)
    requires !isEmail("")
    ensures !SafeParseSucceeds(RegisterSchema, BuildRecord(v.(email := "")), isEmail)
  {
    RegisterAcceptedIff(v.(email := ""), isEmail);
  }

  /** An emergency contact shorter than ten characters, the empty one included,
      blocks registration. */
  lemma ShortEmergencyContactRejected(v: RegisterInputs, isEmail: string -> bool)
    requires |v.emergencyContact| < 10
    ensures !SafeParseSucceeds(RegisterSchema, BuildRecord(v), isEmail)
  {
    RegisterAcceptedIff(v, isEmail);
  }

  /** The schema accepts any positive duration, although the select offers 1..12,
      and accepts an empty UTR or receiver name whatever the payment mode. */
  lemma ScheduleAndCompanionUnchecked(v: RegisterInputs, isEmail: string -> bool, n: int)
    requires SafeParseSucceeds(RegisterSchema, BuildRecord(v), isEmail) && n >= 1
    ensures SafeParseSucceeds(RegisterSchema, BuildRecord(v.(duration := Some(n))), isEmail)
    ensures SafeParseSucceeds(RegisterSchema, BuildRecord(v.(utr := "", receiverName := "")), isEmail)
  {
    RegisterAcceptedIff(v, isEmail);
    RegisterAcceptedIff(v.(duration := Some(n)), isEmail);
    RegisterAcceptedIff(v.(utr := "", receiverName := ""), isEmail);
  }

  // ---------------------------------------------------------------------------
  // The component's state
  // ---------------------------------------------------------------------------

  /** The inputs the form renders. */
  predicate IsRegisterInput(k: Key) {
    k != Verified && k != PlanStarted
  }

  /** The form state after typing `value` into the input for `k`; the serial and
      duration inputs store `parseInt(value)`. */
  function EditInput(v: RegisterInputs, k: Key, value: string): RegisterInputs
    requires IsRegisterInput(k)
  {
    if k == SerialNumber then v.(serialNumber := ParseInt(value))
    else if k == Duration then v.(duration := ParseInt(value))
    else EditText(v, k, value)
  }

  /** The inputs that store the text as typed. */
  function EditText(v: RegisterInputs, k: Key, value: string): RegisterInputs
    requires IsRegisterInput(k) && k != SerialNumber && k != Duration
  {
    match k
    case Name => v.(name := value)
    case Email => v.(email := value)
    case Gender => v.(gender := value)
    case Age => v.(age := value)
    case Phone => v.(phone := value)
    case Address => v.(address := value)
    case EmergencyContact => v.(emergencyContact := value)
    case PaymentMode => v.(paymentMode := value)
    case Utr => v.(utr := value)
    case ReceiverName => v.(receiverName := value)
    case Amount => v.(amount := value)
    case Doj => v.(doj := value)
  }

  class RegisterFormView {
    var loading: bool
    var serialNumber: Option<int>
    var name: string
    var email: string
    var gender: string
    var age: string
    var phone: string
    var address: string
    var emergencyContact: string
    var duration: Option<int>
    var paymentMode: string
    var utr: string
    var receiverName: string
    var amount: string
    var doj: string

    function Inputs(): RegisterInputs
      reads this
    {
      RegisterInputs(serialNumber, name, email, gender, age, phone, address, emergencyContact,
                     duration, paymentMode, utr, receiverName, amount, doj)
    }

    /** Every field starts empty, the serial and duration at 0, and the joining
        date at today's `yyyy-mm-dd`. */
    constructor (today: Date)
      requires ValidDate(today)
      ensures !loading
      ensures Inputs() == RegisterInputs(Some(0), "", "", "", "", "", "", "", Some(0),
                                         "", "", "", "", IsoDateString(today))
    {
      loading := false;
      serialNumber := Some(0);
      name, email, gender, age, phone, address := "", "", "", "", "", "";
      emergencyContact := "";
      duration := Some(0);
      paymentMode, utr, receiverName, amount := "", "", "", "";
      doj := IsoDateString(today);
    }

    /** The effect on `members`: a loaded, non-empty list proposes the next serial;
        otherwise the serial stays as it is. */
    method OnMembersChanged(members: Option<seq<Member>>)
      modifies this
      ensures members.Some? && |members.value| > 0 ==>
        Inputs() == old(Inputs()).(serialNumber := Some(NextSerial(members.value)))
      ensures !(members.Some? && |members.value| > 0) ==> Inputs() == old(Inputs())
      ensures loading == old(loading)
    {
      if members.Some? && |members.value| > 0 {
        serialNumber := Some(MaxSerial(members.value) + 1);
      }
    }

    /** An input's `onChange`: the setter of that input's state field. The
        serial and duration inputs store `parseInt` of the text. */
    method Change(k: Key, value: string)
      requires IsRegisterInput(k)
      modifies this
      ensures Inputs() == EditInput(old(Inputs()), k, value)
      ensures loading == old(loading)
    {
      if k == SerialNumber {
        serialNumber := ParseInt(value);
      } else if k == Duration {
        duration := ParseInt(value);
      } else {
        ChangeText(k, value);
      }
    }

    /** The setter of a field that stores the text as typed. */
    method ChangeText(k: Key, value: string)
      requires IsRegisterInput(k) && k != SerialNumber && k != Duration
      modifies this
      ensures Inputs() == EditText(old(Inputs()), k, value)
      ensures loading == old(loading)
    {
      match k {
        case Name => name := value;
        case Email => email := value;
        case Gender => gender := value;
        case Age => age := value;
        case Phone => phone := value;
        case Address => address := value;
        case EmergencyContact => emergencyContact := value;
        case PaymentMode => paymentMode := value;
        case Utr => utr := value;
        case ReceiverName => receiverName := value;
        case Amount => amount := value;
        case Doj => doj := value;
      }
    }

    /** `handleSubmit`. The record goes to `addMember` (`sent`) only when the schema
        accepts it; otherwise the issues are reported and the form keeps showing
        its loader. `addSucceeds` is the server's answer; success navigates to the
        member list. */
    method HandleSubmit(isEmail: string -> bool, addSucceeds: bool)
      returns (sent: Option<JsObject>, issues: seq<Key>, navigate: bool)
      modifies this
      ensures issues == Issues(RegisterSchema, BuildRecord(old(Inputs())), isEmail)
      ensures sent.Some? <==> SafeParseSucceeds(RegisterSchema, BuildRecord(old(Inputs())), isEmail)
      ensures sent.Some? ==> sent.value == BuildRecord(old(Inputs()))
      ensures loading <==> sent.None?
      ensures navigate <==> sent.Some? && addSucceeds
      ensures Inputs() == old(Inputs())
    {
      loading := true;
      var record := BuildRecord(Inputs());
      issues := Issues(RegisterSchema, record, isEmail);
      if issues != [] {
        return None, issues, false;
      }
      sent := Some(record);
      if addSucceeds {
        loading := false;
        navigate := true;
      } else {
        loading := false;
        navigate := false;
      }
    }
  }
}
