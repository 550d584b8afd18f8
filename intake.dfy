/** The visitor intake workflow, the visit detail page and ending a visit
    (visitor_portal/visitors/views.py). The session, the visitor and visit
    tables and the employee table are fields of one Portal object; the
    clock, the random code and the mailer's outcome are parameters. */
module Intake {
  import opened Wrappers
  import opened Text
  import opened Models
  import Mail

  /** A one-time code expires this many seconds after it is issued. */
  const OtpLifetime: int := 300
  /** random.randint(100000, 999999) bounds the code. */
  const CodeMin: int := 100000
  const CodeMax: int := 999999

  /** session["otp_data"]. */
  datatype OtpChallenge = OtpChallenge(email: string, code: string, expiresTs: int)

  /** The two session keys the views use. */
  datatype Session = Session(otpData: Option<OtpChallenge>, activeVisitId: Option<nat>)

  /** `if visit_id:`, where a missing key and the id 0 are both false. */
  predicate HasLink(s: Session) {
    s.activeVisitId.Some? && s.activeVisitId.value != 0
  }

  /** A fresh challenge for `email`; `code` is the random draw. */
  function IssueOtp(email: string, code: int, now: int): (c: OtpChallenge)
    requires CodeMin <= code <= CodeMax
    ensures c.email == email && c.expiresTs == now + OtpLifetime
    ensures |c.code| == 6 && AllDigits(c.code) && c.code[0] != '0'
  {
    assert Pow10(5) == 100000 && Pow10(6) == 1000000;
    NatToStringLength(code, 6);
    OtpChallenge(email, NatToString(code), now + OtpLifetime)
  }

  /** The code check of IntakeView.post: a stored challenge for exactly the
      stripped email, with exactly the stripped code, not yet expired. */
  predicate OtpValid(otpData: Option<OtpChallenge>, submittedEmail: string, submittedCode: string, now: int) {
    && otpData.Some?
    && otpData.value.email == Strip(submittedEmail)
    && otpData.value.code == Strip(submittedCode)
    && now <= otpData.value.expiresTs
  }

  /** Code validation sees only the stripped email and code: blanks typed around
      either never decide it. */
  lemma OtpValidStripped(otpData: Option<OtpChallenge>, submittedEmail: string, submittedCode: string, now: int)
    ensures OtpValid(otpData, submittedEmail, submittedCode, now)
        == OtpValid(otpData, Strip(submittedEmail), Strip(submittedCode), now)
  {
    StripIdempotent(submittedEmail);
    StripIdempotent(submittedCode);
  }

  /** The code just issued for an email is accepted for that email up to and
      including its expiry second, and refused after it. */
  lemma IssuedCodeWindow(email: string, code: int, now: int, t: int)
    requires CodeMin <= code <= CodeMax
    ensures OtpValid(Some(IssueOtp(Strip(email), code, now)), email, NatToString(code), t)
            <==> t <= now + OtpLifetime
  {
    StripIdempotent(email);
    AllDigitsStrip(NatToString(code));
  }

  /** Issuing again supersedes the earlier code: a different earlier code is refused. */
  lemma ReissueSupersedes(email: string, first: int, second: int, later: int, t: int)
    requires CodeMin <= first <= CodeMax && CodeMin <= second <= CodeMax
    requires first != second
    ensures !OtpValid(Some(IssueOtp(email, second, later)), email, NatToString(first), t)
  {
    AllDigitsStrip(NatToString(first));
    if NatToString(first) == NatToString(second) {
      NatToStringInjective(first, second);
    }
  }

  /** A correct code offered with another email is refused. */
  lemma OtherEmailRefused(c: OtpChallenge, email: string, code: string, t: int)
    requires Strip(email) != c.email
    ensures !OtpValid(Some(c), email, code, t)
  {
  }

  /** name__iexact and name__icontains, with ASCII case folding. */
  datatype MatchMode = Exact | Substring

  predicate NameMatches(mode: MatchMode, name: string, query: string) {
    match mode
    case Exact => Lower(name) == Lower(query)
    case Substring => Contains(Lower(name), Lower(query))
  }

  predicate Eligible(e: Employee, query: string, mode: MatchMode) {
    e.active && NameMatches(mode, e.name, query)
  }

  /** `.first()` of the filtered employees: the table is kept in primary-key
      order, which is the order `.first()` uses on an unordered queryset. */
  function FirstMatch(employees: seq<Employee>, query: string, mode: MatchMode, from: nat): (r: Option<nat>)
    requires from <= |employees|
    ensures r.Some? ==>
      && from <= r.value < |employees|
      && Eligible(employees[r.value], query, mode)
      && forall j :: from <= j < r.value ==> !Eligible(employees[j], query, mode)
    ensures r.None? ==> forall j :: from <= j < |employees| ==> !Eligible(employees[j], query, mode)
    decreases |employees| - from
  {
    if from == |employees| then None
    else if Eligible(employees[from], query, mode) then Some(from)
    else FirstMatch(employees, query, mode, from + 1)
  }

  lemma ExactMatchContains(e: Employee, query: string)
    ensures Eligible(e, query, Exact) ==> Eligible(e, query, Substring)
  {
    ContainsSelf(Lower(e.name));
  }

  /** The host lookup of IntakeView.post on the stripped name. */
  function ResolveHost(employees: seq<Employee>, query: string): (r: Option<nat>)
    ensures r.Some? ==> r.value < |employees| && employees[r.value].active
  {
    if query == "" then None
    else
      match FirstMatch(employees, query, Exact, 0)
      case Some(i) => Some(i)
      case None => FirstMatch(employees, query, Substring, 0)
  }

  /** The host is the first active employee whose name equals the query
      ignoring case; failing that, the first whose name contains it; an empty
      query or no such employee gives none. */
  lemma ResolveHostSpec(employees: seq<Employee>, query: string)
    ensures var r := ResolveHost(employees, query);
      && (r.Some? ==> r.value < |employees| && Eligible(employees[r.value], query, Substring))
      && (r.None? <==> query == "" || forall j :: 0 <= j < |employees| ==> !Eligible(employees[j], query, Substring))
      && (query != "" && (exists j :: 0 <= j < |employees| && Eligible(employees[j], query, Exact)) ==>
            && r.Some?
            && Eligible(employees[r.value], query, Exact)
            && forall j :: 0 <= j < r.value ==> !Eligible(employees[j], query, Exact))
      && (r.Some? && (forall j :: 0 <= j < |employees| ==> !Eligible(employees[j], query, Exact)) ==>
            forall j :: 0 <= j < r.value ==> !Eligible(employees[j], query, Substring))
  {
    if query != "" {
      match FirstMatch(employees, query, Exact, 0)
      case Some(i) =>
        ExactMatchContains(employees[i], query);
      case None =>
    }
  }

  /** The active employees offered as suggestions on the form, in table order. */
  function ActiveEmployees(employees: seq<Employee>): (r: seq<Employee>)
    ensures forall e :: e in r <==> e in employees && e.active
  {
    if employees == [] then []
    else (if employees[0].active then [employees[0]] else []) + ActiveEmployees(employees[1..])
  }

  /** The suggestions keep table order: those of a concatenation are those
      of the first part followed by those of the second. */
  lemma {:induction false} ActiveEmployeesAppend(a: seq<Employee>, b: seq<Employee>)
    ensures ActiveEmployees(a + b) == ActiveEmployees(a) + ActiveEmployees(b)
    decreases |a|
  {
    if a != [] {
      assert (a + b)[0] == a[0] && (a + b)[1..] == a[1..] + b;
      ActiveEmployeesAppend(a[1..], b);
    } else {
      assert a + b == b;
    }
  }

  /** The visit status invariant: ended exactly when it has an end time;
      no code path stores a pending visit. */
  predicate WellFormed(v: Visit) {
    (v.endedAt.Some? <==> v.status == Ended) && v.status != Pending
  }

  /** Visit.objects.create(...) in a successful intake; the status it sets
      is also the column's default. */
  function OpenVisit(visitorId: nat, employeeId: nat, purpose: string, now: int): (v: Visit)
    ensures v.status == Ongoing && v.status == DefaultStatus && v.startedAt == now && v.endedAt.None? && v.smsSentAt.None?
    ensures v.visitorId == visitorId && v.employeeId == employeeId && v.purpose == purpose
    ensures WellFormed(v)
  {
    Visit(visitorId, employeeId, purpose, now, None, Ongoing, None, "")
  }

  /** sms_sent_at is set exactly when the arrival notification was accepted. */
  function RecordNotification(v: Visit, dispatched: bool, now: int): (r: Visit)
    requires v.smsSentAt.None?
    ensures r.smsSentAt.Some? <==> dispatched
    ensures dispatched ==> r.smsSentAt == Some(now)
    ensures r.(smsSentAt := None) == v
  {
    if dispatched then v.(smsSentAt := Some(now)) else v
  }

  /** end_visit on one record: only an open visit is closed. */
  function CloseVisit(v: Visit, now: int): (r: Visit)
    ensures r.endedAt.Some?
    ensures v.endedAt.Some? ==> r == v
    ensures v.endedAt.None? ==> r == v.(endedAt := Some(now), status := Ended)
  {
    if v.endedAt.None? then v.(endedAt := Some(now), status := Ended) else v
  }

  /** Closing twice is closing once. */
  lemma CloseIdempotent(v: Visit, first: int, second: int)
    ensures CloseVisit(CloseVisit(v, first), second) == CloseVisit(v, first)
  {
  }

  lemma CloseKeepsWellFormed(v: Visit, now: int)
    requires WellFormed(v)
    ensures WellFormed(CloseVisit(v, now)) && CloseVisit(v, now).status == Ended
  {
  }

  /** Closing freezes the duration at the moment of closing. */
  lemma CloseFreezesDuration(v: Visit, now: int, later: int)
    requires v.endedAt.None?
    ensures DurationSeconds(CloseVisit(v, now), later) == DurationSeconds(v, now)
  {
  }

  datatype FormError = EmailRequired | OtpNotSent | OtpRequired | UnknownHost | InvalidFields

  /** A redirect to the visit page, or the form shown again. */
  datatype Response = RedirectToVisit(visitId: nat) | ShowForm(error: Option<FormError>, otpSent: bool)

  /** The cleaned data of a VisitorForm that passed validation. */
  datatype IntakeForm = IntakeForm(
    fullName: string, email: string, address: string, phone: string,
    employeeName: string, purpose: string, otp: string)

  /** A POST to the intake page: the action button, the raw email field, and
      the cleaned form, None when form.is_valid() fails. */
  datatype PostRequest = PostRequest(action: Option<string>, email: Option<string>, form: Option<IntakeForm>)

  predicate IsSendOtp(req: PostRequest) {
    req.action == Some("send_otp")
  }

  /** form.save(). */
  function VisitorOf(f: IntakeForm): Visitor {
    Visitor(f.fullName, f.phone, f.email, f.address)
  }

  class Portal {
    var session: Session
    var employees: seq<Employee>
    var visitors: map<nat, Visitor>
    var visits: map<nat, Visit>
    var nextVisitorId: nat
    var nextVisitId: nat

    /** Ids are positive and below the next id; every visit is well-formed
        and refers to a stored visitor and employee. */
    ghost predicate Valid()
      reads this
    {
      && 1 <= nextVisitorId && 1 <= nextVisitId
      && (forall id :: id in visitors ==> 1 <= id < nextVisitorId)
      && (forall id :: id in visits ==>
            && 1 <= id < nextVisitId
            && WellFormed(visits[id])
            && visits[id].visitorId in visitors
            && visits[id].employeeId < |employees|)
    }

    constructor (employees: seq<Employee>)
      ensures Valid()
      ensures this.employees == employees
      ensures session == Session(None, None) && visitors == map[] && visits == map[]
      ensures nextVisitorId == 1 && nextVisitId == 1
    {
      this.employees := employees;
      session := Session(None, None);
      visitors, visits := map[], map[];
      nextVisitorId, nextVisitId := 1, 1;
    }

    /** The session names a stored visit that has not ended. */
    ghost predicate OpenVisitLinked()
      reads this
    {
      HasLink(session) && session.activeVisitId.value in visits && visits[session.activeVisitId.value].endedAt.None?
    }

    /** The session after the resume check: only a link to a visit that does
        not exist is dropped; a link to an ended visit stays. */
    ghost function ResumeChecked(): Session
      reads this
    {
      if HasLink(session) && session.activeVisitId.value !in visits then session.(activeVisitId := None) else session
    }

    twostate predicate RecordsUnchanged()
      reads this
    {
      && visitors == old(visitors) && visits == old(visits)
      && nextVisitorId == old(nextVisitorId) && nextVisitId == old(nextVisitId)
      && employees == old(employees)
    }

    /** The session test both IntakeView.get and IntakeView.post start with. */
    method ResumeActive() returns (open: Option<nat>)
      requires Valid()
      modifies this`session
      ensures open.Some? <==> old(OpenVisitLinked())
      ensures open.Some? ==> open.value == old(session.activeVisitId.value) && session == old(session)
      ensures open.None? ==> session == old(ResumeChecked())
    {
      open := None;
      var visitId := session.activeVisitId;
      if visitId.Some? && visitId.value != 0 {
        if visitId.value in visits {
          if visits[visitId.value].endedAt.None? {
            open := visitId;
          }
        } else {
          session := session.(activeVisitId := None);
        }
      }
    }

    /** IntakeView.get: the open visit to offer, and the host suggestions. */
    method Get() returns (activeVisit: Option<Visit>, hosts: seq<Employee>)
      requires Valid()
      modifies this`session
      ensures Valid()
      ensures activeVisit.Some? <==> old(OpenVisitLinked())
      ensures activeVisit.Some? ==> activeVisit.value == visits[old(session.activeVisitId.value)]
      ensures session == old(ResumeChecked())
      ensures hosts == ActiveEmployees(employees)
    {
      var open := ResumeActive();
      activeVisit := if open.Some? then Some(visits[open.value]) else None;
      hosts := ActiveEmployees(employees);
    }

    /** Store a fresh challenge in the session and mail the code. */
    method IssueChallenge(email: string, code: int, now: int, otpDelivered: bool) returns (sent: bool)
      requires CodeMin <= code <= CodeMax
      modifies this`session
      ensures session == old(session).(otpData := Some(IssueOtp(email, code, now)))
      ensures sent == Mail.SendEmailNotification(email, otpDelivered).Some?
    {
      session := session.(otpData := Some(IssueOtp(email, code, now)));
      var result := Mail.SendEmailNotification(email, otpDelivered);
      sent := result.Some?;
    }

    /** form.save(): a new visitor under the next id. */
    method SaveVisitor(form: IntakeForm) returns (visitorId: nat)
      requires Valid()
      modifies this`visitors, this`nextVisitorId
      ensures Valid()
      ensures visitorId == old(nextVisitorId) && visitorId in visitors
      ensures visitors == old(visitors)[visitorId := VisitorOf(form)]
      ensures nextVisitorId == visitorId + 1
    {
      visitorId := nextVisitorId;
      visitors := visitors[visitorId := VisitorOf(form)];
      nextVisitorId := nextVisitorId + 1;
    }

    /** Visit.objects.create(status="ongoing", started_at=now). */
    method CreateOpenVisit(visitorId: nat, host: nat, purpose: string, now: int) returns (visitId: nat)
      requires Valid()
      requires visitorId in visitors && host < |employees|
      modifies this`visits, this`nextVisitId
      ensures Valid()
      ensures visitId == old(nextVisitId)
      ensures visits == old(visits)[visitId := OpenVisit(visitorId, host, purpose, now)]
      ensures nextVisitId == visitId + 1
    {
      visitId := nextVisitId;
      visits := visits[visitId := OpenVisit(visitorId, host, purpose, now)];
      nextVisitId := nextVisitId + 1;
    }

    /** `visit.sms_sent_at = timezone.now()` when the notification was accepted, then save. */
    method StampNotification(visitId: nat, dispatched: bool, now: int)
      requires Valid()
      requires visitId in visits && visits[visitId].smsSentAt.None?
      modifies this`visits
      ensures Valid()
      ensures visits == old(visits)[visitId := RecordNotification(old(visits)[visitId], dispatched, now)]
    {
      visits := visits[visitId := RecordNotification(visits[visitId], dispatched, now)];
    }

    /** IntakeView.post. */
    method Post(req: PostRequest, now: int, code: int, otpDelivered: bool, notifyDelivered: bool)
      returns (resp: Response)
      requires Valid()
      requires CodeMin <= code <= CodeMax
      modifies this
      ensures Valid()
      // a session that holds an open visit is sent back to it and nothing changes
      ensures old(OpenVisitLinked()) ==>
        resp == RedirectToVisit(old(session.activeVisitId.value)) && session == old(session) && RecordsUnchanged()
      ensures !old(OpenVisitLinked()) && IsSendOtp(req) ==>
        SendOtpOutcome(old(ResumeChecked()), req, now, code, otpDelivered, resp) && RecordsUnchanged()
      ensures !old(OpenVisitLinked()) && !IsSendOtp(req) ==>
        SubmitOutcome(old(ResumeChecked()), req, now, code, otpDelivered, notifyDelivered, resp)
    {
      var open := ResumeActive();
      if open.Some? {
        return RedirectToVisit(open.value);
      }
      if IsSendOtp(req) {
        resp := SendOtp(req.email, now, code, otpDelivered);
      } else {
        resp := Submit(req.form, now, code, otpDelivered, notifyDelivered);
      }
    }

    /** The "send_otp" button: a blank email is refused before the session is
        touched; otherwise a challenge is stored and the code mailed. */
    twostate predicate SendOtpOutcome(before: Session, req: PostRequest, now: int, code: int, otpDelivered: bool, resp: Response)
      requires CodeMin <= code <= CodeMax
      reads this
    {
      var email := Strip(req.email.GetOr(""));
      if email == "" then
        resp == ShowForm(Some(EmailRequired), false) && session == before
      else
        && session == before.(otpData := Some(IssueOtp(email, code, now)))
        && resp == if Mail.SendEmailNotification(email, otpDelivered).Some? then ShowForm(None, true)
                   else ShowForm(Some(OtpNotSent), false)
    }

    method SendOtp(rawEmail: Option<string>, now: int, code: int, otpDelivered: bool) returns (resp: Response)
      requires CodeMin <= code <= CodeMax
      modifies this`session
      ensures SendOtpOutcome(old(session), PostRequest(Some("send_otp"), rawEmail, None), now, code, otpDelivered, resp)
    {
      var emailInput := Strip(rawEmail.GetOr(""));
      if emailInput == "" {
        return ShowForm(Some(EmailRequired), false);
      }
      var sent := IssueChallenge(emailInput, code, now, otpDelivered);
      if sent {
        return ShowForm(None, true);
      }
      return ShowForm(Some(OtpNotSent), false);
    }

    /** A wrong, missing or expired code: a fresh challenge for the stripped
        email replaces the stored one, and no record is created. */
    twostate predicate ReissuedOutcome(before: Session, email: string, now: int, code: int, otpDelivered: bool,
                                       resp: Response)
      requires CodeMin <= code <= CodeMax
      reads this
    {
      && RecordsUnchanged()
      && session == before.(otpData := Some(IssueOtp(email, code, now)))
      && resp == if Mail.SendEmailNotification(email, otpDelivered).Some? then ShowForm(Some(OtpRequired), true)
                 else ShowForm(Some(OtpNotSent), false)
    }

    /** A valid code and a known host: one new visitor, one new ongoing visit
        stamped with the notification outcome, and a session holding only the
        link to that visit. */
    twostate predicate AdmittedOutcome(f: IntakeForm, host: nat, now: int, notifyDelivered: bool, resp: Response)
      requires host < |old(employees)|
      reads this
    {
      var visitId := old(nextVisitId);
      var notified := Mail.SendEmailNotification(old(employees)[host].email, notifyDelivered).Some?;
      && resp == RedirectToVisit(visitId)
      && session == Session(None, Some(visitId))
      && visitors == old(visitors)[old(nextVisitorId) := VisitorOf(f)]
      && visits == old(visits)[visitId := RecordNotification(OpenVisit(old(nextVisitorId), host, f.purpose, now), notified, now)]
      && nextVisitorId == old(nextVisitorId) + 1 && nextVisitId == visitId + 1
      && employees == old(employees)
    }

    /** A full submission. Invalid fields and an unknown host change nothing;
        a wrong, missing or expired code issues a fresh challenge; otherwise
        the visitor is admitted. */
    twostate predicate SubmitOutcome(before: Session, req: PostRequest, now: int, code: int,
                                     otpDelivered: bool, notifyDelivered: bool, resp: Response)
      requires CodeMin <= code <= CodeMax
      reads this
    {
      match req.form
      case None =>
        resp == ShowForm(Some(InvalidFields), false) && session == before && RecordsUnchanged()
      case Some(f) =>
        if !OtpValid(before.otpData, f.email, f.otp, now) then
          ReissuedOutcome(before, Strip(f.email), now, code, otpDelivered, resp)
        else
          match ResolveHost(old(employees), Strip(f.employeeName))
          case None =>
            resp == ShowForm(Some(UnknownHost), false) && session == before && RecordsUnchanged()
          case Some(host) =>
            AdmittedOutcome(f, host, now, notifyDelivered, resp)
    }

    /** The code is not accepted: issue and mail a new one. */
    method Reissue(email: string, now: int, code: int, otpDelivered: bool) returns (resp: Response)
      requires CodeMin <= code <= CodeMax
      modifies this`session
      ensures ReissuedOutcome(old(session), email, now, code, otpDelivered, resp)
    {
      var sent := IssueChallenge(email, code, now, otpDelivered);
      if !sent {
        return ShowForm(Some(OtpNotSent), false);
      }
      return ShowForm(Some(OtpRequired), true);
    }

    /** The records of a successful intake, the session update and the host notification. */
    method Admit(form: IntakeForm, host: nat, now: int, notifyDelivered: bool) returns (resp: Response)
      requires Valid()
      requires host < |employees|
      modifies this`visitors, this`visits, this`nextVisitorId, this`nextVisitId, this`session
      ensures Valid()
      ensures AdmittedOutcome(form, host, now, notifyDelivered, resp)
    {
      var visitorId := SaveVisitor(form);
      var visitId := CreateOpenVisit(visitorId, host, form.purpose, now);
      session := session.(otpData := None);
      session := session.(activeVisitId := Some(visitId));
      var notified := Mail.SendEmailNotification(employees[host].email, notifyDelivered);
      StampNotification(visitId, notified.Some?, now);
      return RedirectToVisit(visitId);
    }

    method Submit(cleaned: Option<IntakeForm>, now: int, code: int, otpDelivered: bool, notifyDelivered: bool)
      returns (resp: Response)
      requires Valid()
      requires CodeMin <= code <= CodeMax
      modifies this`visitors, this`visits, this`nextVisitorId, this`nextVisitId, this`session
      ensures Valid()
      ensures SubmitOutcome(old(session), PostRequest(None, None, cleaned), now, code, otpDelivered, notifyDelivered, resp)
    {
      if cleaned.None? {
        return ShowForm(Some(InvalidFields), false);
      }
      var form := cleaned.value;
      var email := Strip(form.email);
      var providedOtp := Strip(form.otp);
      var otpData := session.otpData;

      var otpValid := false;
      if otpData.Some? && otpData.value.email == email && otpData.value.code == providedOtp {
        if now <= otpData.value.expiresTs {
          otpValid := true;
        }
      }
      assert otpValid == OtpValid(otpData, form.email, form.otp, now);
      if !otpValid {
        resp := Reissue(email, now, code, otpDelivered);
        return;
      }

      var employee := ResolveHost(employees, Strip(form.employeeName));
      if employee.None? {
        return ShowForm(Some(UnknownHost), false);
      }
      resp := Admit(form, employee.value, now, notifyDelivered);
    }

    /** visit_detail: None stands for the 404; an open visit is bound to the session. */
    method VisitDetail(visitId: nat) returns (visit: Option<Visit>)
      requires Valid()
      modifies this`session
      ensures Valid()
      ensures visit == if visitId in visits then Some(visits[visitId]) else None
      ensures session == if visitId in visits && visits[visitId].endedAt.None?
                         then old(session).(activeVisitId := Some(visitId)) else old(session)
    {
      if visitId !in visits {
        return None;
      }
      visit := Some(visits[visitId]);
      if visits[visitId].endedAt.None? {
        session := session.(activeVisitId := Some(visitId));
      }
    }

    /** end_visit: `found` is false for the 404. Closing is idempotent, and the
        session link is cleared only when it names this visit. */
    method EndVisit(visitId: nat, now: int) returns (found: bool)
      requires Valid()
      modifies this`visits, this`session
      ensures Valid()
      ensures found == (visitId in old(visits))
      ensures visits == if found then old(visits)[visitId := CloseVisit(old(visits)[visitId], now)] else old(visits)
      ensures found && old(visits)[visitId].endedAt.Some? ==> visits == old(visits)
      ensures session == if found && old(session).activeVisitId == Some(visitId)
                         then old(session).(activeVisitId := None) else old(session)
    {
      if visitId !in visits {
        return false;
      }
      found := true;
      var visit := visits[visitId];
      if visit.endedAt.None? {
        visit := visit.(endedAt := Some(now), status := Ended);
        visits := visits[visitId := visit];
      }
      if session.activeVisitId == Some(visitId) {
        session := session.(activeVisitId := None);
      }
    }
  }

  /** The stored code "123456" is what str(randint(...)) gives for 123456. */
  lemma SampleCode()
    ensures NatToString(123456) == "123456"
  {
    assert NatToString(1) == "1";
    assert NatToString(12) == "12";
    assert NatToString(123) == "123";
    assert NatToString(1234) == "1234";
    assert NatToString(12345) == "12345";
  }

  /** "joh" is no employee's full name, but it is part of John Carter's. */
  lemma HostBySubstring(host: Employee)
    requires host.name == "John Carter" && host.active
    ensures ResolveHost([host], "joh") == Some(0)
  {
    var l := Lower(host.name);
    assert l[0] == 'j' && l[1] == 'o' && l[2] == 'h';
    assert l[..3] == "joh";
    assert Lower("joh") == "joh";
    assert Contains(l, "joh");
    assert FirstMatch([host], "joh", Exact, 0) == None by {
      assert |l| != |Lower("joh")|;
    }
  }

  const SampleHost: Employee := Employee("John Carter", "9876543210", "john@example.com", "Sales", true)
  const SampleEmail: string := "ana@example.com"
  const SampleForm: IntakeForm := IntakeForm("Ana", SampleEmail, "Main St", "9876543210", "joh", "meeting", "123456")

  /** The submission of SampleForm, 60 seconds after its code was issued at 1000. */
  method SubmitSample(portal: Portal) returns (resp: Response, visit: Visit)
    requires portal.Valid()
    requires portal.employees == [SampleHost] && portal.visits == map[] && portal.nextVisitId == 1
    requires portal.session == Session(Some(OtpChallenge(SampleEmail, "123456", 1300)), None)
    modifies portal
    ensures resp == RedirectToVisit(1)
    ensures visit.status == Ongoing && visit.startedAt == 1060 && visit.employeeId == 0
    ensures visit.smsSentAt == Some(1060)
  {
    StripUnchanged(SampleEmail);
    StripUnchanged("123456");
    assert OtpValid(portal.session.otpData, SampleForm.email, SampleForm.otp, 1060);
    StripUnchanged("joh");
    HostBySubstring(SampleHost);
    assert ResolveHost(portal.employees, Strip(SampleForm.employeeName)) == Some(0);
    StripUnchanged("john@example.com");
    assert Mail.SendEmailNotification(SampleHost.email, true).Some?;
    resp := portal.Post(PostRequest(Some("submit"), None, Some(SampleForm)), 1060, 654321, true, true);
    assert 1 in portal.visits;
    visit := portal.visits[1];
  }

  /** A visitor asks for a code, then submits the form with it and the host
      "joh": they are sent to the new visit, which is ongoing and stamped as
      notified. */
  method Walkthrough() returns (first: Response, second: Response, visit: Visit)
    ensures first == ShowForm(None, true)
    ensures second == RedirectToVisit(1)
    ensures visit.status == Ongoing && visit.startedAt == 1060 && visit.employeeId == 0
    ensures visit.smsSentAt == Some(1060)
  {
    var portal := new Portal([SampleHost]);
    StripUnchanged(SampleEmail);
    assert !HasLink(portal.session);
    first := portal.Post(PostRequest(Some("send_otp"), Some(SampleEmail), None), 1000, 123456, true, true);
    SampleCode();
    assert portal.session == Session(Some(OtpChallenge(SampleEmail, "123456", 1300)), None);
    second, visit := SubmitSample(portal);
  }
}
