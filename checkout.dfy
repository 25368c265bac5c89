/** The checkout page: the payment form's schema, the messages it reports, and
    the plan and price shown in the order summary. */
module Checkout {
  import opened Wrappers
  import opened JsBuiltins

  datatype PaymentForm = PaymentForm(name: string, cardNumber: string, expiryDate: string, cvc: string)

  const NameMessage: string := "Le nom sur la carte est requis."
  const CardMessage: string := "Numéro de carte invalide (16 chiffres)."
  const ExpiryMessage: string := "Date d'expiration invalide (MM/AA)."
  const CvcMessage: string := "CVC invalide (3 ou 4 chiffres)."

  /** The form as the page first shows it. */
  const DefaultPayment: PaymentForm := PaymentForm("", "", "", "")

  // ----- The four field rules -----

  /** `min(2)`: at least two UTF-16 code units. */
  predicate ValidName(s: string) {
    Utf16Length(s) >= 2
  }

  /** `/^\d{16}$/`: exactly sixteen ASCII digits and nothing else. */
  predicate ValidCardNumber(s: string) {
    |s| == 16 && AllDigits(s)
  }

  /** The month alternative of the expiry pattern, `0[1-9]|1[0-2]`. */
  predicate MonthField(m: string) {
    |m| == 2 && ((m[0] == '0' && '1' <= m[1] <= '9') || (m[0] == '1' && '0' <= m[1] <= '2'))
  }

  /** `/^(0[1-9]|1[0-2])\/\d{2}$/`. */
  predicate ValidExpiry(s: string) {
    |s| == 5 && MonthField(s[..2]) && s[2] == '/' && AllDigits(s[3..])
  }

  /** `/^\d{3,4}$/`. */
  predicate ValidCvc(s: string) {
    (|s| == 3 || |s| == 4) && AllDigits(s)
  }

  predicate ValidPayment(p: PaymentForm) {
    ValidName(p.name) && ValidCardNumber(p.cardNumber) && ValidExpiry(p.expiryDate) && ValidCvc(p.cvc)
  }

  // ----- What the schema reports -----

  /** The message of every field that fails its rule, in the schema's field
      order; all fields are checked, so several messages can appear at once. */
  function PaymentErrors(p: PaymentForm): (errs: seq<string>)
    ensures |errs| <= 4
    ensures errs == [] <==> ValidPayment(p)
    ensures NameMessage in errs <==> !ValidName(p.name)
    ensures CardMessage in errs <==> !ValidCardNumber(p.cardNumber)
    ensures ExpiryMessage in errs <==> !ValidExpiry(p.expiryDate)
    ensures CvcMessage in errs <==> !ValidCvc(p.cvc)
  {
    (if ValidName(p.name) then [] else [NameMessage])
    + (if ValidCardNumber(p.cardNumber) then [] else [CardMessage])
    + (if ValidExpiry(p.expiryDate) then [] else [ExpiryMessage])
    + (if ValidCvc(p.cvc) then [] else [CvcMessage])
  }

  /** Submitting: a valid form goes on to the confirmation page, any other
      stays with its messages. The card details are not sent anywhere. */
  function Submit(p: PaymentForm): (r: Result<string, seq<string>>)
    ensures r.Ok? <==> ValidPayment(p)
    ensures r.Ok? ==> r.value == "/confirmation"
    ensures r.Err? ==> r.error != [] && r.error == PaymentErrors(p)
  {
    var errs := PaymentErrors(p);
    if errs == [] then Ok("/confirmation") else Err(errs)
  }

  /** The untouched form cannot be submitted: every field reports its message. */
  lemma DefaultsRefused()
    ensures PaymentErrors(DefaultPayment) == [NameMessage, CardMessage, ExpiryMessage, CvcMessage]
    ensures Submit(DefaultPayment).Err?
  {
    assert !ValidExpiry("");
  }

  // ----- What the expiry rule means -----

  function DigitValue(c: char): int {
    c as int - '0' as int
  }

  /** An expiry date is accepted exactly when it is two digits, a slash and two
      digits, and the first two digits read as a month from 1 to 12. */
  lemma ExpiryMeaning(s: string)
    ensures ValidExpiry(s) <==>
      && |s| == 5 && s[2] == '/'
      && IsDigit(s[0]) && IsDigit(s[1]) && AllDigits(s[3..])
      && 1 <= 10 * DigitValue(s[0]) + DigitValue(s[1]) <= 12
  {
    if |s| == 5 && IsDigit(s[0]) && IsDigit(s[1]) {
      var m := s[..2];
      assert m[0] == s[0] && m[1] == s[1];
    }
  }

  /** Two digits for a number below 100, the first one possibly zero. */
  function TwoDigitText(n: nat): (r: string)
    requires n < 100
    ensures |r| == 2 && AllDigits(r)
    ensures 10 * DigitValue(r[0]) + DigitValue(r[1]) == n
  {
    [DigitChar(n / 10), DigitChar(n % 10)]
  }

  /** Writing month and year on two digits each gives an accepted date exactly
      when the month is 1 to 12; any two-digit year is accepted. */
  lemma ExpiryFormat(month: nat, year: nat)
    requires month < 100 && year < 100
    ensures ValidExpiry(TwoDigitText(month) + "/" + TwoDigitText(year)) <==> 1 <= month <= 12
  {
    var s := TwoDigitText(month) + "/" + TwoDigitText(year);
    assert s[0] == TwoDigitText(month)[0] && s[1] == TwoDigitText(month)[1] && s[2] == '/';
    assert s[3..] == TwoDigitText(year);
    ExpiryMeaning(s);
  }

  /** Month zero, month thirteen and a one-digit month are refused. */
  lemma ExpiryExamples()
    ensures !ValidExpiry("00/25")
    ensures !ValidExpiry("13/25")
    ensures !ValidExpiry("1/25")
    ensures ValidExpiry("01/25") && ValidExpiry("12/99")
  {
    assert "01/25"[..2] == "01" && "01/25"[3..] == "25";
    assert "12/99"[..2] == "12" && "12/99"[3..] == "99";
    assert "00/25"[..2] == "00";
    assert "13/25"[..2] == "13";
  }

  /** Grouped digits are refused; the name rule counts code units, so one
      character outside the Basic Multilingual Plane already makes two. */
  lemma FieldExamples()
    ensures ValidCardNumber("4242424242424242")
    ensures !ValidCardNumber("4242 4242 4242 4242")
    ensures !ValidCardNumber("424242424242424")
    ensures ValidCvc("123") && ValidCvc("1234") && !ValidCvc("12") && !ValidCvc("12345") && !ValidCvc("12a")
    ensures !ValidName("J") && ValidName("Jo") && ValidName("\U{1F600}")
  {
    assert "4242 4242 4242 4242"[4] == ' ';
    assert !IsDigit("12a"[2]);
  }

  // ----- The order summary -----

  /** `value || fallback` on a query parameter: a missing parameter and an
      empty one both give the fallback. */
  function OrFallback(value: Option<string>, fallback: string): (r: string)
    ensures r == fallback || (value == Some(r) && r != [])
    ensures value.Some? && value.value != [] ==> r == value.value
  {
    if value.Some? && value.value != [] then value.value else fallback
  }

  function PlanLabel(plan: Option<string>): string {
    OrFallback(plan, "Non sélectionné")
  }

  function PriceLabel(price: Option<string>): string {
    OrFallback(price, "0")
  }

  /** The summary never shows an empty plan or price; a missing or empty
      parameter shows the fallback, and a given one is shown verbatim. */
  lemma SummaryLabels(plan: Option<string>, price: Option<string>)
    ensures PlanLabel(plan) != [] && PriceLabel(price) != []
    ensures PlanLabel(None) == PlanLabel(Some("")) == "Non sélectionné"
    ensures PriceLabel(None) == PriceLabel(Some("")) == "0"
    ensures plan.Some? && plan.value != [] ==> PlanLabel(plan) == plan.value
    ensures price.Some? && price.value != [] ==> PriceLabel(price) == price.value
    ensures PlanLabel(Some(PlanLabel(plan))) == PlanLabel(plan)
  {
  }
}
