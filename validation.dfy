/** The zod object schemas that gate submission. A schema is a list of field
    rules; `safeParse` accepts an object when every rule admits its field, and
    otherwise reports one issue per failing field, in schema order. */
module Validation {
  import opened Common
  import opened Dates
  import opened Js

  /** The check a field's zod type performs. */
  datatype Check =
    | Number(min: Option<int>)                    // z.number(), optionally .min(k)
    | Text(minLength: nat, maxLength: Option<nat>) // z.string().min(a).max(b)
    | EmailText                                   // z.string().email()
    | OneOf(options: seq<string>)                 // z.enum([...])
    | Boolean                                     // z.boolean()
    | DateObject                                  // z.date(): a valid Date object
    | DateText                                    // z.string().refine(!isNaN(Date.parse(s)))

  /** One property of a `z.object` shape; `optional` is `.optional()`. */
  datatype FieldRule = FieldRule(key: Key, check: Check, optional: bool)

  /** Whether the zod type accepts the value. `NaN` is not a number to zod,
      and `isEmail` stands for zod's e-mail pattern. */
  predicate Satisfies(c: Check, v: JsValue, isEmail: string -> bool) {
    match c
    case Number(min) => v.Num? && (min.None? || v.n >= min.value)
    case Text(lo, hi) => v.Str? && |v.s| >= lo && (hi.None? || |v.s| <= hi.value)
    case EmailText => v.Str? && isEmail(v.s)
    case OneOf(opts) => v.Str? && v.s in opts
    case Boolean => v.Bool?
    case DateObject => v.DateObj? && v.time.Some?
    case DateText => v.Str? && ParseIsoDate(v.s).Some?
  }

  /** `.optional()` admits only `undefined`, never an empty string. */
  predicate Admits(r: FieldRule, o: JsObject, isEmail: string -> bool) {
    (r.optional && Get(o, r.key) == Undefined) || Satisfies(r.check, Get(o, r.key), isEmail)
  }

  /** The fields `schema.safeParse(o)` reports issues for, in schema order. */
  function Issues(schema: seq<FieldRule>, o: JsObject, isEmail: string -> bool): (r: seq<Key>)
    ensures |r| <= |schema|
    ensures r == [] <==> forall i :: 0 <= i < |schema| ==> Admits(schema[i], o, isEmail)
    ensures forall k :: k in r ==>
      exists i :: 0 <= i < |schema| && schema[i].key == k && !Admits(schema[i], o, isEmail)
  {
    if schema == [] then []
    else
      var rest := Issues(schema[1..], o, isEmail);
      assert forall i :: 1 <= i < |schema| ==> schema[i] == schema[1..][i - 1];
      if Admits(schema[0], o, isEmail) then rest else [schema[0].key] + rest
  }

  /** Every field whose rule fails is reported. */
  lemma {:induction false} IssuesComplete(schema: seq<FieldRule>, o: JsObject, isEmail: string -> bool, i: nat)
    requires i < |schema| && !Admits(schema[i], o, isEmail)
    ensures schema[i].key in Issues(schema, o, isEmail)
    decreases i
  {
    if i > 0 {
      assert schema[1..][i - 1] == schema[i];
      IssuesComplete(schema[1..], o, isEmail, i - 1);
    }
  }

  /** `schema.safeParse(o).success`. */
  predicate SafeParseSucceeds(schema: seq<FieldRule>, o: JsObject, isEmail: string -> bool) {
    Issues(schema, o, isEmail) == []
  }

  /** A schema extended by more rules accepts exactly when both parts do. */
  lemma {:induction false} SafeParseAppend(a: seq<FieldRule>, b: seq<FieldRule>, o: JsObject, isEmail: string -> bool)
    ensures SafeParseSucceeds(a + b, o, isEmail)
        <==> SafeParseSucceeds(a, o, isEmail) && SafeParseSucceeds(b, o, isEmail)
  {
    var ab := a + b;
    if SafeParseSucceeds(a, o, isEmail) && SafeParseSucceeds(b, o, isEmail) {
      forall i | 0 <= i < |ab| ensures Admits(ab[i], o, isEmail) {
        if i < |a| {
          assert ab[i] == a[i];
        } else {
          assert ab[i] == b[i - |a|];
        }
      }
    }
    if SafeParseSucceeds(ab, o, isEmail) {
      forall i | 0 <= i < |a| ensures Admits(a[i], o, isEmail) {
        assert ab[i] == a[i];
      }
      forall i | 0 <= i < |b| ensures Admits(b[i], o, isEmail) {
        assert ab[|a| + i] == b[i];
      }
    }
  }

  /** A one-rule schema accepts exactly what its rule admits. */
  lemma SingleRule(r: FieldRule, o: JsObject, isEmail: string -> bool)
    ensures SafeParseSucceeds([r], o, isEmail) <==> Admits(r, o, isEmail)
  {
    assert [r][1..] == [];
  }

  /** The thirteen properties both member forms validate identically: the
      member's identity, its contact details and its plan and payment. */
  const MemberShape: seq<FieldRule> := IdentityRules + ContactRules + PlanRules

  const IdentityRules: seq<FieldRule> := [
    FieldRule(SerialNumber, Number(None), false),
    FieldRule(Name, Text(1, None), false),
    FieldRule(Age, Number(Some(1)), false),
    FieldRule(Email, EmailText, true),
    FieldRule(Gender, OneOf(["male", "female", "other"]), false)
  ]

  const ContactRules: seq<FieldRule> := [
    FieldRule(Phone, Text(10, Some(15)), false),
    FieldRule(Address, Text(0, None), true),
    FieldRule(EmergencyContact, Text(10, None), true)
  ]

  const PlanRules: seq<FieldRule> := [
    FieldRule(Duration, Number(Some(1)), false),
    FieldRule(PaymentMode, OneOf(["upi", "cash"]), false),
    FieldRule(Utr, Text(0, None), true),
    FieldRule(ReceiverName, Text(0, None), true),
    FieldRule(Amount, Text(1, None), false)
  ]

  /** A number field the shape reads with `.min(1)`. */
  predicate PositiveNumber(v: JsValue) {
    v.Num? && v.n >= 1
  }

  /** A string field whose length lies in `lo..` (and `..hi` when given). */
  predicate StringOfLength(v: JsValue, lo: nat, hi: Option<nat>) {
    v.Str? && |v.s| >= lo && (hi.None? || |v.s| <= hi.value)
  }

  predicate IdentityHolds(o: JsObject, isEmail: string -> bool) {
    Get(o, SerialNumber).Num?
    && StringOfLength(Get(o, Name), 1, None)
    && PositiveNumber(Get(o, Age))
    && (Get(o, Email) == Undefined || (Get(o, Email).Str? && isEmail(Get(o, Email).s)))
    && Get(o, Gender) in {Str("male"), Str("female"), Str("other")}
  }

  predicate ContactHolds(o: JsObject) {
    StringOfLength(Get(o, Phone), 10, Some(15))
    && (Get(o, Address) == Undefined || Get(o, Address).Str?)
    && (Get(o, EmergencyContact) == Undefined || StringOfLength(Get(o, EmergencyContact), 10, None))
  }

  predicate PlanHolds(o: JsObject) {
    PositiveNumber(Get(o, Duration))
    && Get(o, PaymentMode) in {Str("upi"), Str("cash")}
    && (Get(o, Utr) == Undefined || Get(o, Utr).Str?)
    && (Get(o, ReceiverName) == Undefined || Get(o, ReceiverName).Str?)
    && StringOfLength(Get(o, Amount), 1, None)
  }

  /** The shared shape, field by field. */
  predicate ShapeHolds(o: JsObject, isEmail: string -> bool) {
    IdentityHolds(o, isEmail) && ContactHolds(o) && PlanHolds(o)
  }

  lemma IdentityRulesIff(o: JsObject, isEmail: string -> bool)
    ensures SafeParseSucceeds(IdentityRules, o, isEmail) <==> IdentityHolds(o, isEmail)
  {
    var s := IdentityRules;
    assert (forall i :: 0 <= i < |s| ==> Admits(s[i], o, isEmail))
      <==> (Admits(s[0], o, isEmail) && Admits(s[1], o, isEmail) && Admits(s[2], o, isEmail)
            && Admits(s[3], o, isEmail) && Admits(s[4], o, isEmail));
  }

  lemma ContactRulesIff(o: JsObject, isEmail: string -> bool)
    ensures SafeParseSucceeds(ContactRules, o, isEmail) <==> ContactHolds(o)
  {
    var s := ContactRules;
    assert (forall i :: 0 <= i < |s| ==> Admits(s[i], o, isEmail))
      <==> (Admits(s[0], o, isEmail) && Admits(s[1], o, isEmail) && Admits(s[2], o, isEmail));
  }

  lemma PlanRulesIff(o: JsObject, isEmail: string -> bool)
    ensures SafeParseSucceeds(PlanRules, o, isEmail) <==> PlanHolds(o)
  {
    var s := PlanRules;
    assert (forall i :: 0 <= i < |s| ==> Admits(s[i], o, isEmail))
      <==> (Admits(s[0], o, isEmail) && Admits(s[1], o, isEmail) && Admits(s[2], o, isEmail)
            && Admits(s[3], o, isEmail) && Admits(s[4], o, isEmail));
  }

  /** The shared shape accepts an object exactly when every field meets its rule. */
  lemma MemberShapeIff(o: JsObject, isEmail: string -> bool)
    ensures SafeParseSucceeds(MemberShape, o, isEmail) <==> ShapeHolds(o, isEmail)
  {
    SafeParseAppend(IdentityRules + ContactRules, PlanRules, o, isEmail);
    SafeParseAppend(IdentityRules, ContactRules, o, isEmail);
    IdentityRulesIff(o, isEmail);
    ContactRulesIff(o, isEmail);
    PlanRulesIff(o, isEmail);
  }
}
