/** The member record the components read and write. */
module Members {
  import opened Common
  import opened Dates

  /** One gym member. Optional properties are `Option`s; `planStarted` is the
      start of the current plan, which the registration form sets beside the
      joining date `doj`. */
  datatype Member = Member(
    serialNumber: Option<int>,
    name: string,
    age: int,
    email: Option<string>,
    gender: string,
    phone: string,
    address: Option<string>,
    emergencyContact: Option<string>,
    duration: int,
    paymentMode: string,
    utr: Option<string>,
    receiverName: Option<string>,
    verified: bool,
    amount: string,
    doj: Date,
    planStarted: Option<Date>)

  /** The owner's PIN both the delete dialog and the update modal compare against. */
  const CorrectPin: string := "191800"

  /** `member.serialNumber || fallback`: a missing or zero serial is falsy. */
  function SerialOr(m: Member, fallback: int): int {
    if m.serialNumber.Some? && m.serialNumber.value != 0 then m.serialNumber.value else fallback
  }
}
