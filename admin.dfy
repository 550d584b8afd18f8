/** The duration column of the visit admin list (visitor_portal/visitors/admin.py). */
module Admin {
  import opened Wrappers
  import opened Text
  import opened Models

  /** divmod(seconds, 3600) then divmod(remainder, 60): whole hours and
      minutes, the leftover seconds discarded. Python's divmod floors, as
      Dafny's division by a positive constant does. */
  function HoursAndMinutes(seconds: int): (hm: (int, nat))
    ensures hm.1 < 60
    ensures hm.0 * 3600 + hm.1 * 60 <= seconds < hm.0 * 3600 + hm.1 * 60 + 60
  {
    (seconds / 3600, (seconds % 3600) / 60)
  }

  /** The bounds above pin hours and minutes down uniquely. */
  lemma HoursAndMinutesUnique(seconds: int, h: int, m: nat)
    requires m < 60
    requires h * 3600 + m * 60 <= seconds < h * 3600 + m * 60 + 60
    ensures HoursAndMinutes(seconds) == (h, m)
  {
    var (h', m') := HoursAndMinutes(seconds);
    var a, a' := h * 60 + m, h' * 60 + m';
    assert a * 60 <= seconds < a * 60 + 60;
    assert a' * 60 <= seconds < a' * 60 + 60;
    assert a == a';
  }

  /** "{h}h {m}m". */
  function HoursMinutesLabel(seconds: int): string {
    var hm := HoursAndMinutes(seconds);
    IntToString(hm.0) + "h " + NatToString(hm.1) + "m"
  }

  /** The label depends only on the whole minutes: leftover seconds are discarded. */
  lemma LabelDiscardsSeconds(seconds: int)
    ensures HoursMinutesLabel(seconds) == HoursMinutesLabel(seconds - seconds % 60)
  {
    var (h, m) := HoursAndMinutes(seconds);
    var whole := seconds - seconds % 60;
    assert whole == (seconds / 60) * 60;
    assert (h * 60 + m) * 60 <= seconds;
    assert h * 60 + m <= seconds / 60;
    HoursAndMinutesUnique(whole, h, m);
  }

  /** VisitAdmin.duration: the label for a finished visit, "Ongoing" for an
      open one, "-" when there is no start time. */
  function DurationLabel(startedAt: Option<int>, endedAt: Option<int>): (r: string)
    ensures startedAt.None? ==> r == "-"
    ensures startedAt.Some? && endedAt.None? ==> r == "Ongoing"
    ensures startedAt.Some? && endedAt.Some? ==> r == HoursMinutesLabel(endedAt.value - startedAt.value)
  {
    if startedAt.Some? && endedAt.Some? then HoursMinutesLabel(endedAt.value - startedAt.value)
    else if startedAt.Some? then "Ongoing"
    else "-"
  }

  /** The admin column for a stored visit, whose start is always set. */
  function VisitDurationLabel(v: Visit): (r: string)
    ensures v.endedAt.Some? ==> r == HoursMinutesLabel(DurationSeconds(v, 0))
    ensures v.endedAt.None? ==> r == "Ongoing"
  {
    DurationLabel(Some(v.startedAt), v.endedAt)
  }

  /** Ninety minutes render as "1h 30m". */
  lemma NinetyMinutes(start: int)
    ensures DurationLabel(Some(start), Some(start + 5400)) == "1h 30m"
  {
    HoursAndMinutesUnique(5400, 1, 30);
    assert NatToString(30) == NatToString(3) + [DigitChar(0)];
  }
}
