/**
 * The field validators of the webinar serializers: a webinar's start time and host,
 * and the four fields of a payment-verification request.
 */
module WebinarSerializers {
  import opened Results
  import opened Models
  import opened Text

  /** A start time is accepted only when it lies strictly in the future; it is returned unchanged. */
  function ValidateStartTime(value: int, now: int): (r: Result<int, string>)
    ensures r.Ok? <==> value > now
    ensures r.Ok? ==> r.value == value
  {
    if value <= now then Err("Start time must be in the future.") else Ok(value)
  }

  /** The host of a webinar must hold the host role; an accepted host is returned unchanged. */
  function ValidateHost(u: User): (r: Result<User, string>)
    ensures r.Ok? <==> u.role == Host
    ensures r.Ok? ==> r.value == u
  {
    if u.role != Host then Err("Host must have 'host' role.") else Ok(u)
  }

  /** A JSON value of a request body. */
  datatype Value = Text(s: string) | Number(n: int) | Null

  /** A validated payment-verification request. */
  datatype PaymentVerification = PaymentVerification(
    orderId: string, paymentId: string, signature: string, registrationId: int)

  const OrderField: string := "razorpay_order_id"
  const PaymentField: string := "razorpay_payment_id"
  const SignatureField: string := "razorpay_signature"
  const RegistrationField: string := "registration_id"

  /** A required text field: present, a string, not blank once trimmed; its trimmed text. */
  function TextField(data: map<string, Value>, name: string): Option<string> {
    if name in data && data[name].Text? && Trim(data[name].s) != [] then Some(Trim(data[name].s))
    else None
  }

  /** A required integer field: present and a number. */
  function IntegerField(data: map<string, Value>, name: string): Option<int> {
    if name in data && data[name].Number? then Some(data[name].n) else None
  }

  /** The names of the fields of `data` that are missing or malformed. */
  function InvalidFields(data: map<string, Value>): set<string> {
    (if TextField(data, OrderField).None? then {OrderField} else {})
    + (if TextField(data, PaymentField).None? then {PaymentField} else {})
    + (if TextField(data, SignatureField).None? then {SignatureField} else {})
    + (if IntegerField(data, RegistrationField).None? then {RegistrationField} else {})
  }

  /**
   * A payment-verification request is valid only when all four fields are present: three
   * non-blank strings and an integer registration id. Otherwise every bad field is reported.
   */
  function ValidatePaymentVerification(data: map<string, Value>): (r: Result<PaymentVerification, set<string>>)
    ensures r.Ok? <==> && TextField(data, OrderField).Some? && TextField(data, PaymentField).Some?
                       && TextField(data, SignatureField).Some? && IntegerField(data, RegistrationField).Some?
    ensures r.Ok? ==> && RegistrationField in data && data[RegistrationField] == Number(r.value.registrationId)
                      && r.value.orderId == Trim(data[OrderField].s)
                      && r.value.paymentId == Trim(data[PaymentField].s)
                      && r.value.signature == Trim(data[SignatureField].s)
    ensures r.Err? ==> r.error != {} && r.error <= {OrderField, PaymentField, SignatureField, RegistrationField}
    ensures r.Err? ==> (OrderField in r.error <==> TextField(data, OrderField).None?)
    ensures r.Err? ==> (PaymentField in r.error <==> TextField(data, PaymentField).None?)
    ensures r.Err? ==> (SignatureField in r.error <==> TextField(data, SignatureField).None?)
    ensures r.Err? ==> (RegistrationField in r.error <==> IntegerField(data, RegistrationField).None?)
  {
    var bad := InvalidFields(data);
    if bad != {} then Err(bad)
    else
      Ok(PaymentVerification(
        TextField(data, OrderField).value, TextField(data, PaymentField).value,
        TextField(data, SignatureField).value, IntegerField(data, RegistrationField).value))
  }

  /** A verification as a request body. */
  function EncodeVerification(v: PaymentVerification): map<string, Value> {
    map[OrderField := Text(v.orderId), PaymentField := Text(v.paymentId),
        SignatureField := Text(v.signature), RegistrationField := Number(v.registrationId)]
  }

  /** Encoding a verification whose texts are already trimmed and non-blank, then validating it, gives it back. */
  lemma VerificationRoundTrip(v: PaymentVerification)
    requires Trimmed(v.orderId) && Trimmed(v.paymentId) && Trimmed(v.signature)
    ensures ValidatePaymentVerification(EncodeVerification(v)) == Ok(v)
  {
    var data := EncodeVerification(v);
    assert data[OrderField] == Text(v.orderId);
    assert data[PaymentField] == Text(v.paymentId);
    assert data[SignatureField] == Text(v.signature);
    assert data[RegistrationField] == Number(v.registrationId);
  }
}
