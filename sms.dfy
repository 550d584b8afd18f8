/** Phone normalisation and the pre-network part of the SMS and WhatsApp
    senders (visitor_portal/visitors/sms.py). The HTTP exchange itself is an
    oracle: the provider's reply is passed in. */
module Sms {
  import opened Wrappers
  import opened Text

  /** The default region of _normalize_phone. */
  const DefaultCountry: string := "IN"

  /** Both provider endpoints share this URL. */
  const ProviderUrl: string := "https://www.fast2sms.com/dev/bulkV2"

  /** `+` followed by 10 to 15 ASCII digits, the shape `\+[0-9]{10,15}`. */
  predicate IsCanonical(p: string) {
    |p| >= 1 && p[0] == '+' && 10 <= |p| - 1 <= 15 && AllDigits(p[1..])
  }

  /** The digits after `lstrip('0') or '0'`. */
  function NationalDigits(digits: string): (r: string)
    requires AllDigits(digits)
    ensures AllDigits(r) && r != []
    ensures DigitsValue(r) == DigitsValue(digits)
    ensures r[0] == '0' ==> r == "0"
  {
    TrimZerosValue(digits);
    var t := TrimZeros(digits);
    if t == [] then
      assert "0"[..0] == [];
      "0"
    else t
  }

  /** _normalize_phone: user-entered text to `+` and 10..15 digits, or None. */
  function NormalizePhone(raw: string, defaultCountry: string): (r: Option<string>)
    ensures r.Some? ==> IsCanonical(r.value)
  {
    if raw == [] then None else NormalizeStripped(Strip(raw), defaultCountry)
  }

  /** The rules applied once the input has been stripped. */
  function NormalizeStripped(s: string, defaultCountry: string): (r: Option<string>)
    ensures r.Some? ==> IsCanonical(r.value)
  {
    if StartsWith(s, "+") then International(Digits(s[1..]))
    else if Digits(s) == [] then None
    else National(NationalDigits(Digits(s)), defaultCountry)
  }

  /** `+` and the digits after it, when there are 10 to 15. */
  function International(digits: string): (r: Option<string>)
    requires AllDigits(digits)
    ensures r.Some? <==> 10 <= |digits| <= 15
    ensures r.Some? ==> r.value == "+" + digits && IsCanonical(r.value)
  {
    if 10 <= |digits| <= 15 then Some("+" + digits) else None
  }

  /** The India heuristics and the 10..15-digit fallback on national digits. */
  function National(d: string, defaultCountry: string): (r: Option<string>)
    requires AllDigits(d)
    ensures r.Some? ==> IsCanonical(r.value)
  {
    if Upper(defaultCountry) == "IN" && |d| == 10 then Some("+91" + d)
    else if Upper(defaultCountry) == "IN" && StartsWith(d, "91") && |d| == 12 then Some("+" + d)
    else if 10 <= |d| <= 15 then Some("+" + d)
    else None
  }

  /** Empty, whitespace-only and digit-free input is rejected. */
  lemma NormalizeRejectsDigitless(raw: string, defaultCountry: string)
    requires Digits(raw) == []
    ensures NormalizePhone(raw, defaultCountry) == None
  {
    var s := Strip(raw);
    StripKeepsDigits(raw);
    if |s| > 0 {
      assert s == [s[0]] + s[1..];
      DigitsAppend([s[0]], s[1..]);
    }
  }

  /** A `+`-prefixed input keeps every digit after the `+`, and is accepted
      exactly when there are 10 to 15 of them. */
  lemma NormalizeInternational(raw: string, defaultCountry: string)
    requires StartsWith(Strip(raw), "+")
    ensures var digits := Digits(Strip(raw)[1..]);
            NormalizePhone(raw, defaultCountry) == if 10 <= |digits| <= 15 then Some("+" + digits) else None
  {
  }

  /** Without `+`, leading zeros are dropped (keeping "0" when all were zeros)
      and the national rules decide. */
  lemma NormalizeNational(raw: string, defaultCountry: string)
    requires !StartsWith(Strip(raw), "+")
    requires Digits(raw) != []
    ensures NormalizePhone(raw, defaultCountry) == National(NationalDigits(Digits(raw)), defaultCountry)
  {
    StripKeepsDigits(raw);
  }

  /** Region IN (in any letter case): ten national digits get +91, twelve
      starting with 91 get `+`. */
  lemma NationalIndia(d: string, defaultCountry: string)
    requires AllDigits(d)
    requires Upper(defaultCountry) == "IN"
    ensures |d| == 10 ==> National(d, defaultCountry) == Some("+91" + d)
    ensures |d| == 12 && StartsWith(d, "91") ==> National(d, defaultCountry) == Some("+" + d)
  {
  }

  /** Otherwise 10..15 national digits get `+` and any other count is rejected. */
  lemma NationalFallback(d: string, defaultCountry: string)
    requires AllDigits(d)
    requires Upper(defaultCountry) != "IN" || |d| != 10
    ensures National(d, defaultCountry) == if 10 <= |d| <= 15 then Some("+" + d) else None
  {
  }

  /** For every ten-digit number without a leading zero, region IN prefixes +91. */
  lemma NormalizeTenDigits(d: string)
    requires |d| == 10 && AllDigits(d) && d[0] != '0'
    ensures NormalizePhone(d, "IN") == Some("+91" + d)
  {
    AllDigitsStrip(d);
    DigitsOfDigits(d);
    assert Upper("IN") == "IN";
  }

  /** A ten-digit string with a leading zero is NOT given +91: the zero is
      stripped first and nine digits are too few. */
  lemma NormalizeLeadingZeroTenDigits(d: string)
    requires |d| == 10 && AllDigits(d) && d[0] == '0' && d[1] != '0'
    ensures NormalizePhone(d, "IN") == None
  {
    AllDigitsStrip(d);
    DigitsOfDigits(d);
    assert !StartsWith(d, "+") by { assert IsDigit(d[0]); }
    assert NationalDigits(d) == d[1..] by {
      assert TrimZeros(d) == TrimZeros(d[1..]) == d[1..];
    }
    assert Upper("IN") == "IN";
    assert National(d[1..], "IN") == None;
    assert NormalizePhone(d, "IN") == NormalizeStripped(d, "IN");
  }

  /** Every canonical number is a fixed point: normalisation is idempotent. */
  lemma NormalizeCanonical(p: string, defaultCountry: string)
    requires IsCanonical(p)
    ensures NormalizePhone(p, defaultCountry) == Some(p)
  {
    assert IsDigit(p[|p| - 1]);
    StripUnchanged(p);
    DigitsOfDigits(p[1..]);
    assert p == "+" + p[1..];
  }

  lemma NormalizeIdempotent(raw: string, defaultCountry: string)
    requires NormalizePhone(raw, defaultCountry).Some?
    ensures var p := NormalizePhone(raw, defaultCountry).value;
            NormalizePhone(p, defaultCountry) == Some(p)
  {
    NormalizeCanonical(NormalizePhone(raw, defaultCountry).value, defaultCountry);
  }

  /** An environment setting read with os.getenv; `if not v` treats absent and empty alike. */
  predicate Configured(v: Option<string>) {
    v.Some? && v.value != ""
  }

  datatype SmsSettings = SmsSettings(apiKey: Option<string>, senderId: Option<string>)

  datatype WhatsAppSettings = WhatsAppSettings(apiKey: Option<string>, instanceId: Option<string>, token: Option<string>)

  /** The JSON body posted to the provider; the WhatsApp route adds instance id and token. */
  datatype Payload = Payload(
    route: string, senderId: string, message: string, language: string, flash: int,
    numbers: string, instanceId: Option<string>, token: Option<string>)

  datatype ProviderRequest = ProviderRequest(url: string, authorization: string, payload: Payload)

  /** The recipient the SMS provider gets: a leading +91 removed, else a leading `+`. */
  function SmsRecipient(normalized: string): (r: string)
    ensures StartsWith(normalized, "+91") ==> normalized == "+91" + r
    ensures !StartsWith(normalized, "+91") && StartsWith(normalized, "+") ==> normalized == "+" + r
    ensures !StartsWith(normalized, "+") ==> r == normalized
  {
    if StartsWith(normalized, "+91") then normalized[3..]
    else if StartsWith(normalized, "+") then normalized[1..]
    else normalized
  }

  /** For a normalised number, or the empty string that stands for a failed
      normalisation, the recipient is a non-empty digit string exactly for the
      number, and the number is recovered by putting back its prefix. */
  lemma CanonicalRecipient(n: string)
    requires n == "" || IsCanonical(n)
    ensures var r := SmsRecipient(n); (r != [] && AllDigits(r)) <==> n != ""
    ensures n != "" ==> n == if StartsWith(n, "+91") then "+91" + SmsRecipient(n) else "+" + SmsRecipient(n)
  {
    if n != "" {
      if StartsWith(n, "+91") {
        assert n[3..] == n[1..][2..];
        assert n == "+91" + n[3..];
      } else {
        assert n == "+" + n[1..];
      }
    }
  }

  /** The request send_sms would post, or None when it returns before any network call. */
  function SmsRequest(settings: SmsSettings, toPhone: string, message: string): (r: Option<ProviderRequest>)
    ensures r.Some? <==> Configured(settings.apiKey) && NormalizePhone(toPhone, DefaultCountry).Some?
    ensures r.Some? ==>
      var n := NormalizePhone(toPhone, DefaultCountry).value;
      var numbers := r.value.payload.numbers;
      && numbers != [] && AllDigits(numbers)
      && (if StartsWith(n, "+91") then n == "+91" + numbers else n == "+" + numbers)
      && r.value.url == ProviderUrl && r.value.authorization == settings.apiKey.value
      && r.value.payload.route == "v3"
      && r.value.payload.message == message
  {
    if !Configured(settings.apiKey) then None
    else
      var normalized := NormalizePhone(toPhone, DefaultCountry).GetOr("");
      CanonicalRecipient(normalized);
      var recipients := SmsRecipient(normalized);
      if recipients == [] || !AllDigits(recipients) then None
      else
        Some(ProviderRequest(ProviderUrl, settings.apiKey.value,
          Payload("v3", settings.senderId.GetOr("TXTIND"), message, "english", 0, recipients, None, None)))
  }

  /** The request send_whatsapp would post, or None when it returns before any network call. */
  function WhatsAppRequest(settings: WhatsAppSettings, toPhone: string, message: string): (r: Option<ProviderRequest>)
    ensures r.Some? <==>
      && Configured(settings.apiKey) && Configured(settings.instanceId) && Configured(settings.token)
      && NormalizePhone(toPhone, DefaultCountry).Some?
    ensures r.Some? ==>
      && NormalizePhone(toPhone, DefaultCountry).value == "+" + r.value.payload.numbers
      && r.value.url == ProviderUrl && r.value.authorization == settings.apiKey.value
      && r.value.payload.route == "whatsapp"
      && r.value.payload.instanceId == settings.instanceId
      && r.value.payload.token == settings.token
      && r.value.payload.message == message
  {
    if !Configured(settings.apiKey) || !Configured(settings.instanceId) || !Configured(settings.token) then None
    else
      match NormalizePhone(toPhone, DefaultCountry)
      case None => None
      case Some(normalized) =>
        assert IsCanonical(normalized);
        assert normalized == "+" + normalized[1..];
        var recipients := if StartsWith(normalized, "+") then normalized[1..] else normalized;
        Some(ProviderRequest(ProviderUrl, settings.apiKey.value,
          Payload("whatsapp", "WHATSAPP", message, "english", 0, recipients, settings.instanceId, settings.token)))
  }

  /** send_sms: the provider's reply surfaces only when a request was built. */
  function SendSms(settings: SmsSettings, toPhone: string, message: string, reply: Option<string>): (r: Option<string>)
    ensures SmsRequest(settings, toPhone, message).None? ==> r.None?
    ensures SmsRequest(settings, toPhone, message).Some? ==> r == reply
  {
    match SmsRequest(settings, toPhone, message)
    case None => None
    case Some(_) => reply
  }

  /** send_whatsapp: the provider's reply surfaces only when a request was built. */
  function SendWhatsApp(settings: WhatsAppSettings, toPhone: string, message: string, reply: Option<string>): (r: Option<string>)
    ensures WhatsAppRequest(settings, toPhone, message).None? ==> r.None?
    ensures WhatsAppRequest(settings, toPhone, message).Some? ==> r == reply
  {
    match WhatsAppRequest(settings, toPhone, message)
    case None => None
    case Some(_) => reply
  }

  /** send_message: the request for the channel the message type names. */
  function MessageRequest(messageType: string, sms: SmsSettings, whatsApp: WhatsAppSettings,
                          toPhone: string, message: string): (r: Option<ProviderRequest>)
    ensures Lower(messageType) == "whatsapp" ==>
      (r.Some? <==> && Configured(whatsApp.apiKey) && Configured(whatsApp.instanceId) && Configured(whatsApp.token)
                    && NormalizePhone(toPhone, DefaultCountry).Some?)
    ensures Lower(messageType) != "whatsapp" ==>
      (r.Some? <==> Configured(sms.apiKey) && NormalizePhone(toPhone, DefaultCountry).Some?)
    ensures r.Some? ==> r.value.url == ProviderUrl && r.value.payload.message == message
    ensures r.Some? ==> (r.value.payload.route == "whatsapp" <==> Lower(messageType) == "whatsapp")
    ensures r.Some? && Lower(messageType) == "whatsapp" ==>
      && r.value.authorization == whatsApp.apiKey.value
      && NormalizePhone(toPhone, DefaultCountry).value == "+" + r.value.payload.numbers
    ensures r.Some? && Lower(messageType) != "whatsapp" ==>
      && r.value.authorization == sms.apiKey.value
      && r.value.payload.route == "v3"
      && (var n := NormalizePhone(toPhone, DefaultCountry).value;
          if StartsWith(n, "+91") then n == "+91" + r.value.payload.numbers else n == "+" + r.value.payload.numbers)
  {
    if Lower(messageType) == "whatsapp" then WhatsAppRequest(whatsApp, toPhone, message)
    else SmsRequest(sms, toPhone, message)
  }

  /** Channel selection ignores the case of the message type. */
  lemma MessageTypeCaseInsensitive(messageType: string, sms: SmsSettings, whatsApp: WhatsAppSettings,
                                   toPhone: string, message: string)
    ensures MessageRequest(Lower(messageType), sms, whatsApp, toPhone, message)
         == MessageRequest(messageType, sms, whatsApp, toPhone, message)
  {
    LowerIdempotent(messageType);
  }

  /** With no SMS key, no request is built and nothing is sent, whatever the number. */
  lemma SmsUnconfiguredSendsNothing(settings: SmsSettings, toPhone: string, message: string, reply: Option<string>)
    requires !Configured(settings.apiKey)
    ensures SmsRequest(settings, toPhone, message).None?
    ensures SendSms(settings, toPhone, message, reply).None?
  {
  }
}
