/** The portal's records (visitor_portal/visitors/models.py). Times are
    integer seconds. */
module Models {
  import opened Wrappers
  import opened Text

  /** Visit.STATUS_CHOICES. */
  datatype Status = Pending | Ongoing | Ended

  /** The value stored in the status column. */
  function StatusValue(s: Status): string {
    match s
    case Pending => "pending"
    case Ongoing => "ongoing"
    case Ended => "ended"
  }

  /** The choice a stored status value names, if it is one of the three. */
  function ParseStatus(v: string): (r: Option<Status>)
    ensures r.Some? ==> StatusValue(r.value) == v
  {
    if v == "pending" then Some(Pending)
    else if v == "ongoing" then Some(Ongoing)
    else if v == "ended" then Some(Ended)
    else None
  }

  /** Every status survives the trip to the database column and back. */
  lemma StatusRoundTrip(s: Status)
    ensures ParseStatus(StatusValue(s)) == Some(s)
  {
  }

  /** Distinct statuses are stored as distinct values. */
  lemma StatusValueInjective(s: Status, t: Status)
    requires StatusValue(s) == StatusValue(t)
    ensures s == t
  {
    StatusRoundTrip(s);
    StatusRoundTrip(t);
  }

  /** The status column's default. */
  const DefaultStatus: Status := Ongoing

  datatype Employee = Employee(name: string, phone: string, email: string, department: string, active: bool)

  datatype Visitor = Visitor(fullName: string, phone: string, email: string, address: string)

  /** A visit links a visitor and an employee by id. */
  datatype Visit = Visit(
    visitorId: nat, employeeId: nat, purpose: string,
    startedAt: int, endedAt: Option<int>, status: Status,
    smsSentAt: Option<int>, notes: string)

  /** Employee.__str__: the name, and the department in parentheses when there is one. */
  function EmployeeLabel(e: Employee): (r: string)
    ensures StartsWith(r, e.name)
    ensures r == e.name <==> e.department == ""
    ensures e.department != "" ==> r[|e.name|..] == " (" + e.department + ")"
  {
    if e.department != "" then e.name + " (" + e.department + ")" else e.name
  }

  /** Visitor.__str__. */
  function VisitorLabel(v: Visitor): string {
    v.fullName
  }

  /** Visit.__str__: "Visit: {visitor} -> {employee} ({status})". */
  function VisitLabel(v: Visit, visitor: Visitor, employee: Employee): (r: string)
    ensures var p := "Visit: " + visitor.fullName + " -> " + EmployeeLabel(employee);
      && |r| == |p| + |StatusValue(v.status)| + 3
      && r[..|p|] == p && r[|p|] == ' '
      && r[|p| + 1..] == "(" + StatusValue(v.status) + ")"
  {
    "Visit: " + VisitorLabel(visitor) + " -> " + EmployeeLabel(employee) + " (" + StatusValue(v.status) + ")"
  }

  /** Visit.duration_seconds: up to the end when the visit has ended, else up to now. */
  function DurationSeconds(v: Visit, now: int): (d: int)
    ensures v.startedAt + d == if v.endedAt.Some? then v.endedAt.value else now
  {
    match v.endedAt
    case Some(e) => e - v.startedAt
    case None => now - v.startedAt
  }

  /** While a visit is open its duration grows with the clock. */
  lemma {:induction false} OngoingDurationGrows(v: Visit, now: int, later: int)
    requires v.endedAt.None? && now <= later
    ensures DurationSeconds(v, later) - DurationSeconds(v, now) == later - now
  {
  }

  /** Once ended, a visit's duration no longer depends on the clock. */
  lemma EndedDurationFixed(v: Visit, now: int, later: int)
    requires v.endedAt.Some?
    ensures DurationSeconds(v, now) == DurationSeconds(v, later)
  {
  }
}
