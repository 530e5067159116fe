/** The submit handler of the performance-evaluation form (public/js/script.js): the vendor
    ID check, then a loop over the three rating fields, accumulating error messages. */
module PerformanceForm {
  import opened Sequences
  import opened Text
  import opened JsNumbers
  import opened ErrorList

  /** The raw values of the inputs when the form is submitted. */
  datatype Form = Form(vendorId: string, serviceQuality: string, timeliness: string, pricing: string)

  /** The ids of the rating inputs, in the order the handler visits them. */
  const RatingFields: seq<string> := ["ServiceQuality", "Timeliness", "Pricing"]

  /** The value of the input whose id is `RatingFields[i]`. */
  function RatingInputs(f: Form): (r: seq<string>)
    ensures |r| == |RatingFields|
  {
    [f.serviceQuality, f.timeliness, f.pricing]
  }

  /** `s.replace(/([A-Z])/g, ' $1')`: a space in front of every ASCII capital. */
  function SpaceBeforeCapitals(s: string): (r: string)
    decreases |s|
  {
    if s == [] then []
    else
      SpaceBeforeCapitals(s[..|s| - 1]) + CharLabel(s[|s| - 1])
  }

  /** What the replacement makes of one character. */
  function CharLabel(c: char): string {
    if IsAsciiUpper(c) then [' ', c] else [c]
  }

  /** `s` with every space deleted. */
  function WithoutSpaces(s: string): (r: string)
    decreases |s|
  {
    if s == [] then [] else WithoutSpaces(s[..|s| - 1]) + (if s[|s| - 1] == ' ' then [] else [s[|s| - 1]])
  }

  /** The replacement only inserts spaces: deleting the spaces of the label gives back a
      field id that had none. */
  lemma {:induction false} SpaceBeforeCapitalsOnlyInserts(s: string)
    requires forall k :: 0 <= k < |s| ==> s[k] != ' '
    ensures WithoutSpaces(SpaceBeforeCapitals(s)) == s
    decreases |s|
  {
    if s != [] {
      var front, c := s[..|s| - 1], s[|s| - 1];
      SpaceBeforeCapitalsOnlyInserts(front);
      WithoutSpacesAppend(SpaceBeforeCapitals(front), CharLabel(c));
      CharLabelWithoutSpaces(c);
      assert front + [c] == s;
    }
  }

  lemma CharLabelWithoutSpaces(c: char)
    requires c != ' '
    ensures WithoutSpaces(CharLabel(c)) == [c]
  {
    if IsAsciiUpper(c) {
      WithoutSpacesAppend([' '], [c]);
      assert [' '] + [c] == CharLabel(c);
    }
  }

  lemma {:induction false} WithoutSpacesAppend(a: string, b: string)
    ensures WithoutSpaces(a + b) == WithoutSpaces(a) + WithoutSpaces(b)
    decreases |b|
  {
    if b == [] {
      assert a + b == a;
    } else {
      assert (a + b)[..|a + b| - 1] == a + b[..|b| - 1];
      WithoutSpacesAppend(a, b[..|b| - 1]);
    }
  }

  /** The message for a rating field that is out of range. */
  function RatingMessage(field: string): string {
    SpaceBeforeCapitals(field) + " must be between 0 and 5."
  }

  /** The message of each field, in order. */
  function FieldMessages(fields: seq<string>): (r: seq<string>)
    ensures |r| == |fields|
  {
    seq(|fields|, i requires 0 <= i < |fields| => RatingMessage(fields[i]))
  }

  function RatingMessages(): (r: seq<string>)
    ensures |r| == |RatingFields|
  {
    FieldMessages(RatingFields)
  }

  lemma {:induction false} SpaceBeforeCapitalsAppend(a: string, b: string)
    ensures SpaceBeforeCapitals(a + b) == SpaceBeforeCapitals(a) + SpaceBeforeCapitals(b)
    decreases |b|
  {
    if b == [] {
      assert a + b == a;
    } else {
      assert (a + b)[..|a + b| - 1] == a + b[..|b| - 1];
      SpaceBeforeCapitalsAppend(a, b[..|b| - 1]);
    }
  }

  /** Without capitals there is nothing to replace. */
  lemma {:induction false} SpaceBeforeCapitalsLower(s: string)
    requires forall k :: 0 <= k < |s| ==> !IsAsciiUpper(s[k])
    ensures SpaceBeforeCapitals(s) == s
    decreases |s|
  {
    if s != [] {
      SpaceBeforeCapitalsLower(s[..|s| - 1]);
    }
  }

  /** The label of a field id made of capitalised words: each capital gets a space in front. */
  lemma LabelOfWords(cap: char, rest: string)
    requires IsAsciiUpper(cap)
    requires forall k :: 0 <= k < |rest| ==> !IsAsciiUpper(rest[k])
    ensures SpaceBeforeCapitals([cap] + rest) == [' ', cap] + rest
  {
    SpaceBeforeCapitalsAppend([cap], rest);
    SpaceBeforeCapitalsLower(rest);
    assert SpaceBeforeCapitals([cap]) == SpaceBeforeCapitals([]) + CharLabel(cap);
  }

  lemma ServiceQualityLabel()
    ensures SpaceBeforeCapitals("ServiceQuality") == " Service Quality"
  {
    var w1, w2 := ['S'] + "ervice", ['Q'] + "uality";
    LabelOfWords('S', "ervice");
    LabelOfWords('Q', "uality");
    assert "ServiceQuality" == w1 + w2;
    SpaceBeforeCapitalsAppend(w1, w2);
  }

  /** The labels the three messages start with: the label of the first field begins with a
      space too, because its first letter is a capital. */
  lemma RatingLabelsText()
    ensures SpaceBeforeCapitals(RatingFields[0]) == " Service Quality"
    ensures SpaceBeforeCapitals(RatingFields[1]) == " Timeliness"
    ensures SpaceBeforeCapitals(RatingFields[2]) == " Pricing"
  {
    ServiceQualityLabel();
    assert SpaceBeforeCapitals("Timeliness") == " Timeliness" by {
      LabelOfWords('T', "imeliness");
      assert "Timeliness" == ['T'] + "imeliness";
    }
    assert SpaceBeforeCapitals("Pricing") == " Pricing" by {
      LabelOfWords('P', "ricing");
      assert "Pricing" == ['P'] + "ricing";
    }
  }

  /** The three rating messages and the vendor-ID message are pairwise different. */
  lemma MessagesDistinct()
    ensures forall a, b :: 0 <= a < b < |RatingMessages()| ==> RatingMessages()[a] != RatingMessages()[b]
    ensures VendorIdMessage !in RatingMessages()
  {
    RatingLabelsText();
    var m := RatingMessages();
    assert |m[0]| == 41 && |m[1]| == 36 && |m[2]| == 33 && |VendorIdMessage| == 28;
  }

  const VendorIdMessage := "Valid Vendor ID is required."

  /** `!vendorIDValue || isNaN(vendorIDValue)` is false for the trimmed value. */
  predicate VendorIdOk(raw: string, numeral: string -> JsNumber) {
    var t := Trim(raw);
    t != [] && !ToNumber(t, numeral).NaN?
  }

  /** The outcome of the range check on each value read with `parseFloat`, in order. */
  function FieldChecks(inputs: seq<string>, parseFloat: string -> JsNumber): (r: seq<bool>)
    ensures |r| == |inputs|
  {
    seq(|inputs|, i requires 0 <= i < |inputs| => RatingInRange(parseFloat(inputs[i])))
  }

  /** The outcome of the three rating checks, in field order. */
  function RatingChecks(f: Form, parseFloat: string -> JsNumber): (r: seq<bool>)
    ensures |r| == |RatingFields|
  {
    FieldChecks(RatingInputs(f), parseFloat)
  }

  /** The error list the handler shows for a submitted form. */
  function Errors(f: Form, numeral: string -> JsNumber, parseFloat: string -> JsNumber): seq<string> {
    (if VendorIdOk(f.vendorId, numeral) then [] else [VendorIdMessage]) +
    Failed(RatingMessages(), RatingChecks(f, parseFloat))
  }

  /** The submit handler: the vendor ID check, then the rating fields, each failure
      appending its message. Submission is prevented iff the vendor ID is blank or not a
      number, or some rating is not a finite number in [0, 5]. */
  method Submit(f: Form, numeral: string -> JsNumber, parseFloat: string -> JsNumber)
    returns (errors: seq<string>, prevented: bool)
    ensures errors == Errors(f, numeral, parseFloat)
    ensures prevented <==> !VendorIdOk(f.vendorId, numeral) || !AllRatingsInRange(f, parseFloat)
    ensures prevented <==> errors != []
  {
    errors := [];
    var valid := true;
    if !VendorIdOk(f.vendorId, numeral) {
      valid := false;
      errors := errors + [VendorIdMessage];
    }
    var ratingErrors, ratingsValid := CheckRatings(RatingFields, RatingInputs(f), parseFloat);
    errors := errors + ratingErrors;
    valid := valid && ratingsValid;
    ErrorsEmptyIffValid(f, numeral, parseFloat);
    prevented := !valid;
  }

  /** The `forEach` over the rating fields: each field whose value is not a number in
      [0, 5] appends its message, in field order. */
  method CheckRatings(fields: seq<string>, inputs: seq<string>, parseFloat: string -> JsNumber)
    returns (errors: seq<string>, valid: bool)
    requires |fields| == |inputs|
    ensures errors == Failed(FieldMessages(fields), FieldChecks(inputs, parseFloat))
    ensures valid <==> forall k :: 0 <= k < |inputs| ==> FieldChecks(inputs, parseFloat)[k]
  {
    ghost var messages, checks := FieldMessages(fields), FieldChecks(inputs, parseFloat);
    errors := [];
    valid := true;
    var i := 0;
    while i < |fields|
      invariant 0 <= i <= |fields|
      invariant errors == Failed(messages[..i], checks[..i])
      invariant valid <==> forall k :: 0 <= k < i ==> checks[k]
    {
      var value := parseFloat(inputs[i]);
      if value.NaN? || LessThan(value, 0.0) || GreaterThan(value, 5.0) {
        valid := false;
        errors := errors + [RatingMessage(fields[i])];
      }
      FailedPrefixStep(messages, checks, i);
      i := i + 1;
    }
    assert messages[..i] == messages && checks[..i] == checks;
  }

  /** The handler's verdict: no error at all exactly when the vendor ID is a number and
      every rating is in range. */
  lemma ErrorsEmptyIffValid(f: Form, numeral: string -> JsNumber, parseFloat: string -> JsNumber)
    ensures Errors(f, numeral, parseFloat) == [] <==>
      VendorIdOk(f.vendorId, numeral) && forall k :: 0 <= k < |RatingFields| ==> RatingChecks(f, parseFloat)[k]
    ensures Errors(f, numeral, parseFloat) == [] <==>
      VendorIdOk(f.vendorId, numeral) && AllRatingsInRange(f, parseFloat)
  {
    FailedMembers(RatingMessages(), RatingChecks(f, parseFloat));
    AllRatingsInRangeChecks(f, parseFloat);
  }

  /** Every rating parses to a finite number in [0, 5]. */
  predicate AllRatingsInRange(f: Form, parseFloat: string -> JsNumber) {
    forall i :: 0 <= i < |RatingFields| ==> WithinZeroToFive(parseFloat(RatingInputs(f)[i]))
  }

  /** The three rating checks pass together exactly when every rating is a finite number
      in [0, 5]; 0 and 5 themselves pass. */
  lemma AllRatingsInRangeChecks(f: Form, parseFloat: string -> JsNumber)
    ensures AllRatingsInRange(f, parseFloat) <==>
      forall i :: 0 <= i < |RatingFields| ==> RatingChecks(f, parseFloat)[i]
  {
    forall k | 0 <= k < |RatingFields|
      ensures RatingChecks(f, parseFloat)[k] <==> WithinZeroToFive(parseFloat(RatingInputs(f)[k]))
    {
      RatingInRangeExactly(parseFloat(RatingInputs(f)[k]));
    }
  }

  /** The vendor-ID message comes first when present; each rating message appears exactly
      when its own field failed; the rating messages keep the order ServiceQuality,
      Timeliness, Pricing; there is one message per failed check. */
  lemma ErrorsReportEachFailure(f: Form, numeral: string -> JsNumber, parseFloat: string -> JsNumber)
    ensures VendorIdMessage in Errors(f, numeral, parseFloat) <==> !VendorIdOk(f.vendorId, numeral)
    ensures !VendorIdOk(f.vendorId, numeral) ==> Errors(f, numeral, parseFloat)[0] == VendorIdMessage
    ensures forall i :: 0 <= i < |RatingFields| ==>
      (RatingMessages()[i] in Errors(f, numeral, parseFloat) <==> !RatingChecks(f, parseFloat)[i])
    ensures IsSubseq(Failed(RatingMessages(), RatingChecks(f, parseFloat)), RatingMessages())
    ensures |Errors(f, numeral, parseFloat)| ==
      (if VendorIdOk(f.vendorId, numeral) then 0 else 1) + CountOf(RatingChecks(f, parseFloat), false)
  {
    var m, c := RatingMessages(), RatingChecks(f, parseFloat);
    var tail := Failed(m, c);
    MessagesDistinct();
    FailedMembers(m, c);
    assert VendorIdMessage !in tail;
    forall i | 0 <= i < |RatingFields|
      ensures m[i] in Errors(f, numeral, parseFloat) <==> !c[i]
    {
      FailedExactly(m, c, i);
    }
    FailedInOrder(m, c);
  }

  /** The vendor ID check looks at the trimmed value, so trimming the input first changes
      nothing. */
  lemma VendorIdSeesTrimmedValue(raw: string, numeral: string -> JsNumber)
    ensures VendorIdOk(raw, numeral) == VendorIdOk(Trim(raw), numeral)
  {
    TrimIdempotent(raw);
  }

  /** A blank vendor ID (empty or only whitespace) is always refused. */
  lemma VendorIdBlankRefused(raw: string, numeral: string -> JsNumber)
    requires forall k :: 0 <= k < |raw| ==> IsSpace(raw[k])
    ensures !VendorIdOk(raw, numeral)
  {
    var i, j := TrimIsSlice(raw);
  }
}
