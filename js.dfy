/** The JavaScript values that flow through the forms: record fields, the
    results of `parseInt` and `new Date`, and plain objects keyed by field name. */
module Js {
  import opened Common
  import opened Dates

  /** The property names of a member record and of the edit form. */
  datatype Key =
    | SerialNumber | Name | Age | Email | Gender | Phone | Address | EmergencyContact
    | Duration | PaymentMode | Utr | ReceiverName | Amount | Verified | Doj | PlanStarted

  /** A field value: `undefined`, an integral number, `NaN`, a string, a boolean,
      or a `Date` object (`DateObj(None)` is an Invalid Date). */
  datatype JsValue =
    | Undefined
    | Num(n: int)
    | NaN
    | Str(s: string)
    | Bool(b: bool)
    | DateObj(time: Option<Date>)

  /** A plain object with the member properties; an absent property is `undefined`. */
  datatype JsObject = JsObject(
    serialNumber: JsValue, name: JsValue, age: JsValue, email: JsValue, gender: JsValue,
    phone: JsValue, address: JsValue, emergencyContact: JsValue, duration: JsValue,
    paymentMode: JsValue, utr: JsValue, receiverName: JsValue, amount: JsValue,
    verified: JsValue, doj: JsValue, planStarted: JsValue)

  /** `o[k]`. */
  function Get(o: JsObject, k: Key): JsValue {
    match k
    case SerialNumber => o.serialNumber
    case Name => o.name
    case Age => o.age
    case Email => o.email
    case Gender => o.gender
    case Phone => o.phone
    case Address => o.address
    case EmergencyContact => o.emergencyContact
    case Duration => o.duration
    case PaymentMode => o.paymentMode
    case Utr => o.utr
    case ReceiverName => o.receiverName
    case Amount => o.amount
    case Verified => o.verified
    case Doj => o.doj
    case PlanStarted => o.planStarted
  }

  /** `{ ...o, [k]: v }`: property `k` becomes `v` and no other property changes. */
  function Set(o: JsObject, k: Key, v: JsValue): (r: JsObject)
    ensures Get(r, k) == v
    ensures forall k' :: k' != k ==> Get(r, k') == Get(o, k')
  {
    match k
    case SerialNumber => o.(serialNumber := v)
    case Name => o.(name := v)
    case Age => o.(age := v)
    case Email => o.(email := v)
    case Gender => o.(gender := v)
    case Phone => o.(phone := v)
    case Address => o.(address := v)
    case EmergencyContact => o.(emergencyContact := v)
    case Duration => o.(duration := v)
    case PaymentMode => o.(paymentMode := v)
    case Utr => o.(utr := v)
    case ReceiverName => o.(receiverName := v)
    case Amount => o.(amount := v)
    case Verified => o.(verified := v)
    case Doj => o.(doj := v)
    case PlanStarted => o.(planStarted := v)
  }

  /** The number `parseInt` returns, as a value. */
  function NumberOf(p: Option<int>): (v: JsValue)
    ensures v.Num? <==> p.Some?
    ensures v.Num? ==> v.n == p.value
    ensures v.NaN? <==> p.None?
  {
    match p
    case Some(n) => Num(n)
    case None => NaN
  }

  /** `new Date(s)` for a string from a date input. */
  function NewDate(s: string): JsValue {
    DateObj(ParseIsoDate(s))
  }
}
