/** The Payment value object (backend/src/domain/value-objects/Payment.js): card data is
    masked when the object is built, and the CVV is never kept. */
module Payments {
  import opened Wrappers
  import Text
  import Reports
  import Keyed

  /** The stored payment. `kind` is the source's `method` field (a keyword here);
      `billingAddress` is an opaque pass-through value. */
  datatype Payment = Payment(kind: string, cardNumber: Option<string>, cardHolder: string,
                             expirationDate: string, cvv: Option<string>,
                             billingAddress: Option<string>)

  /** What `toJSON` exposes: everything but the CVV. */
  datatype PaymentJson = PaymentJson(kind: string, cardNumber: Option<string>, cardHolder: string,
                                     expirationDate: string, billingAddress: Option<string>)

  const Methods: seq<string> := ["credit_card", "debit_card", "cash"]
  const MaskPrefix := "**** **** **** "
  const CvvToken := "***"

  const MethodInvalid := "Payment method must be credit_card, debit_card, or cash"
  const CardRequired := "Card number is required"
  const HolderRequired := "Card holder name is required"
  const ExpiryInvalid := "Expiration date must be in MM/YY format"
  const Messages: seq<string> := [MethodInvalid, CardRequired, HolderRequired, ExpiryInvalid]

  /** `maskCardNumber(cardNumber)`: null for an empty input, otherwise the fixed prefix and
      the last four characters of the number with its whitespace removed. */
  function MaskCardNumber(cardNumber: string): (r: Option<string>)
    ensures cardNumber == "" <==> r.None?
    ensures r.Some? ==> |MaskPrefix| <= |r.value| <= |MaskPrefix| + 4
    ensures r.Some? ==> r.value[..|MaskPrefix|] == MaskPrefix
    ensures r.Some? ==> r.value[|MaskPrefix|..] == Text.SliceLast(Text.StripSpaces(cardNumber), 4)
  {
    if cardNumber == "" then None
    else Some(MaskPrefix + Text.SliceLast(Text.StripSpaces(cardNumber), 4))
  }

  /** `new Payment(kind, cardNumber, cardHolder, expirationDate, cvv, billingAddress)`.
      An empty string stands for a missing (falsy) card number or CVV. */
  function New(kind: string, cardNumber: string, cardHolder: string, expirationDate: string,
               cvv: string, billingAddress: Option<string>): (p: Payment)
    ensures p.kind == kind && p.cardHolder == cardHolder
    ensures p.expirationDate == expirationDate && p.billingAddress == billingAddress
    ensures p.cardNumber == MaskCardNumber(cardNumber)
    ensures p.cvv == if cvv == "" then None else Some(CvvToken)
  {
    Payment(kind,
            if cardNumber != "" then MaskCardNumber(cardNumber) else None,
            cardHolder, expirationDate,
            if cvv != "" then Some(CvvToken) else None,
            billingAddress)
  }

  /** A stored card number never holds more than four characters of the input, and when the
      number has at least four non-blank characters it ends in the same last four. */
  lemma {:induction false} MaskKeepsLastFour(cardNumber: string)
    requires cardNumber != ""
    ensures var m := New("credit_card", cardNumber, "", "", "", None).cardNumber;
            m.Some? && |m.value| - |MaskPrefix| <= 4 &&
            (|Text.StripSpaces(cardNumber)| >= 4 ==>
               var digits := Text.StripSpaces(cardNumber);
               m.value[|m.value| - 4..] == digits[|digits| - 4..])
  {
    var digits := Text.StripSpaces(cardNumber);
    var m := MaskCardNumber(cardNumber).value;
    if |digits| >= 4 {
      assert m == MaskPrefix + digits[|digits| - 4..];
      assert m[|m| - 4..] == digits[|digits| - 4..];
    }
  }

  /** Masking is irreversible: two card numbers with the same last four non-blank
      characters, and any two CVVs, give the same stored payment. */
  lemma MaskForgetsTheRest(kind: string, card1: string, card2: string, holder: string,
                           expiry: string, cvv1: string, cvv2: string, billing: Option<string>)
    requires card1 != "" && card2 != "" && cvv1 != "" && cvv2 != ""
    requires Text.SliceLast(Text.StripSpaces(card1), 4) == Text.SliceLast(Text.StripSpaces(card2), 4)
    ensures New(kind, card1, holder, expiry, cvv1, billing) == New(kind, card2, holder, expiry, cvv2, billing)
  {
  }

  /** A number longer than four digits keeps only its last four. */
  lemma MaskExample()
    ensures MaskCardNumber("123456") == Some(MaskPrefix + "3456")
  {
    var s := "123456";
    assert forall i :: 0 <= i < |s| ==> !Text.IsSpace(s[i]);
    Text.NoSpaceUnchanged(s);
    assert Text.SliceLast(s, 4) == s[2..] == "3456";
  }

  /** The regular expression `^\d{2}\/\d{2}$`. */
  predicate IsExpiry(s: string) {
    |s| == 5 && Text.IsDigit(s[0]) && Text.IsDigit(s[1]) && s[2] == '/' &&
    Text.IsDigit(s[3]) && Text.IsDigit(s[4])
  }

  /** `['credit_card', 'debit_card', 'cash'].includes(kind)` */
  predicate KnownMethod(kind: string) {
    kind in Methods
  }

  /** Every method but cash is paid by card. */
  predicate ByCard(p: Payment) {
    p.kind != "cash"
  }

  /** `p.validate()`: the method must be known; the card checks apply to every method
      other than cash. */
  function Validate(p: Payment): (r: Reports.Report)
    ensures r.errors == Reports.Select(Messages,
      [!KnownMethod(p.kind),
       ByCard(p) && p.cardNumber.None?,
       ByCard(p) && Text.Missing(p.cardHolder),
       ByCard(p) && !IsExpiry(p.expirationDate)])
    ensures r.isValid <==> r.errors == []
    ensures !ByCard(p) ==> r.isValid
  {
    var failing := [!KnownMethod(p.kind),
                    ByCard(p) && p.cardNumber.None?,
                    ByCard(p) && Text.Missing(p.cardHolder),
                    ByCard(p) && !IsExpiry(p.expirationDate)];
    // the three card checks sit inside `if (this._method !== 'cash') { … }`
    var errors := (if !KnownMethod(p.kind) then [MethodInvalid] else [])
                + (if ByCard(p) && p.cardNumber.None? then [CardRequired] else [])
                + (if ByCard(p) && Text.Missing(p.cardHolder) then [HolderRequired] else [])
                + (if ByCard(p) && (p.expirationDate == "" || !IsExpiry(p.expirationDate))
                   then [ExpiryInvalid] else []);
    Reports.SelectUnrolled(Messages, failing);
    Reports.FromErrors(errors)
  }

  /** Each rule's message is reported exactly when that rule fails. */
  lemma ValidateReportsEachRule(p: Payment)
    ensures var errors := Validate(p).errors;
            && (MethodInvalid in errors <==> !KnownMethod(p.kind))
            && (CardRequired in errors <==> ByCard(p) && p.cardNumber.None?)
            && (HolderRequired in errors <==> ByCard(p) && Text.Missing(p.cardHolder))
            && (ExpiryInvalid in errors <==> ByCard(p) && !IsExpiry(p.expirationDate))
  {
    var failing := [!KnownMethod(p.kind),
                    ByCard(p) && p.cardNumber.None?,
                    ByCard(p) && Text.Missing(p.cardHolder),
                    ByCard(p) && !IsExpiry(p.expirationDate)];
    assert Keyed.NoDuplicates(Messages);
    Reports.SelectMember(Messages, failing, 0);
    Reports.SelectMember(Messages, failing, 1);
    Reports.SelectMember(Messages, failing, 2);
    Reports.SelectMember(Messages, failing, 3);
  }

  /** A card payment is accepted exactly when it carries a card number, a holder and an
      MM/YY expiry; cash is always accepted. */
  lemma ValidCardPayment(kind: string, card: string, holder: string, expiry: string,
                         cvv: string, billing: Option<string>)
    ensures var p := New(kind, card, holder, expiry, cvv, billing);
            Validate(p).isValid <==>
              kind == "cash" ||
              (kind in Methods && card != "" && !Text.Missing(holder) && IsExpiry(expiry))
  {
  }

  /** `p.toJSON()`: every stored field except the CVV, unchanged. */
  function ToJson(p: Payment): (j: PaymentJson)
    ensures j.kind == p.kind && j.cardNumber == p.cardNumber && j.cardHolder == p.cardHolder
    ensures j.expirationDate == p.expirationDate && j.billingAddress == p.billingAddress
  {
    PaymentJson(p.kind, p.cardNumber, p.cardHolder, p.expirationDate, p.billingAddress)
  }
}
