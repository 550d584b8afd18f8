/** The e-mail helpers the intake view calls (visitor_portal/visitors/email.py).
    Delivery through Django's mailer is an oracle: `delivered` says whether
    send_mail returned without raising. */
module Mail {
  import opened Wrappers
  import opened Text

  /** send_email_notification: "sent" on success, None for a blank address or a failed send. */
  function SendEmailNotification(toEmail: string, delivered: bool): (r: Option<string>)
    ensures r.Some? <==> Strip(toEmail) != "" && delivered
    ensures r.Some? ==> r.value == "sent"
  {
    if toEmail == "" || Strip(toEmail) == "" then None
    else if delivered then Some("sent")
    else None
  }
}
