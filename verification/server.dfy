/** The three POST handlers of index.js: each checks its request fields, then either answers
    400 without touching the database, or issues one INSERT whose outcome picks the answer. */
module Server {
  import opened Wrappers
  import opened Text
  import opened JsNumbers

  /** The urlencoded request body: field name to value. A field the client did not send
      is absent, and reading it gives `undefined`. */
  type Body = map<string, string>

  /** `req.body[name]`: Some(value), or None for `undefined`. */
  function Field(body: Body, name: string): Option<string> {
    if name in body then Some(body[name]) else None
  }

  /** JavaScript truthiness of a body field: `undefined` and the empty string are falsy. */
  predicate Truthy(v: Option<string>) {
    v.Some? && v.value != ""
  }

  /** The outcome of the INSERT as reported to its callback. */
  datatype DbOutcome = DbOk | DbError(message: string)

  /** An HTTP answer: a status with a text body, or a redirect. */
  datatype Response = Send(status: nat, text: string) | Redirect(location: string)

  /** What a handler did: the parameter list of the INSERT it issued (None if it issued
      none; a parameter is None when the field was `undefined`), and its answer. */
  datatype Handling = Handling(insert: Option<seq<Option<string>>>, response: Response)

  const AllFieldsRequired := "All fields are required."
  const InvalidRatings := "Invalid ratings. Ratings must be between 0 and 5."

  /** The query callback shared by the three handlers. */
  function AfterInsert(db: DbOutcome): Response {
    match db
    case DbError(message) => Send(500, "Database error: " + message)
    case DbOk => Redirect("/success.html")
  }

  /** The field values for the given columns, in column order. */
  function Params(body: Body, columns: seq<string>): (r: seq<Option<string>>)
    ensures |r| == |columns|
    ensures forall i :: 0 <= i < |columns| ==> r[i] == Field(body, columns[i])
  {
    if columns == [] then [] else [Field(body, columns[0])] + Params(body, columns[1..])
  }

  /** Some column has a missing or empty value. */
  predicate SomeMissing(body: Body, columns: seq<string>) {
    exists i :: 0 <= i < |columns| && !Truthy(Field(body, columns[i]))
  }

  /** Once past its guard, a handler issues the INSERT and answers after it: 500 with the
      database's message on an error, a redirect to the success page otherwise. */
  predicate AnsweredAfterInsert(h: Handling, params: seq<Option<string>>, db: DbOutcome) {
    h.insert == Some(params) &&
    (db.DbError? ==> h.response == Send(500, "Database error: " + db.message)) &&
    (db.DbOk? ==> h.response == Redirect("/success.html"))
  }

  const VendorColumns: seq<string> := ["Name", "ServiceCategory", "ContactInfo", "ComplianceCertifications"]

  /** `POST /register-vendor`. */
  function RegisterVendor(body: Body, db: DbOutcome): (h: Handling)
    ensures SomeMissing(body, VendorColumns) ==> h == Handling(None, Send(400, AllFieldsRequired))
    ensures !SomeMissing(body, VendorColumns) ==> AnsweredAfterInsert(h, Params(body, VendorColumns), db)
  {
    var name := Field(body, "Name");
    var serviceCategory := Field(body, "ServiceCategory");
    var contactInfo := Field(body, "ContactInfo");
    var certifications := Field(body, "ComplianceCertifications");
    var params := Params(body, VendorColumns);
    assert [name, serviceCategory, contactInfo, certifications] == params;
    assert params[0] == name && params[1] == serviceCategory && params[2] == contactInfo && params[3] == certifications;
    if !Truthy(name) || !Truthy(serviceCategory) || !Truthy(contactInfo) || !Truthy(certifications) then
      Handling(None, Send(400, AllFieldsRequired))
    else
      Handling(Some([name, serviceCategory, contactInfo, certifications]), AfterInsert(db))
  }

  const RatingColumns: seq<string> := ["ServiceQuality", "Timeliness", "Pricing"]
  const PerformanceColumns: seq<string> := ["VendorID", "ServiceQuality", "Timeliness", "Pricing", "Feedback"]

  /** The number a body field coerces to: `undefined` is NaN, a string goes through `Number`. */
  function NumberOf(v: Option<string>, numeral: string -> JsNumber): JsNumber {
    match v
    case None => NaN
    case Some(s) => ToNumber(s, numeral)
  }

  /** Some rating field is not a finite number in [0, 5]. */
  predicate SomeRatingOutOfRange(body: Body, numeral: string -> JsNumber) {
    exists i :: 0 <= i < |RatingColumns| && !WithinZeroToFive(NumberOf(Field(body, RatingColumns[i]), numeral))
  }

  /** `POST /evaluate-performance`: only the ratings are checked. */
  function EvaluatePerformance(body: Body, numeral: string -> JsNumber, db: DbOutcome): (h: Handling)
    ensures SomeRatingOutOfRange(body, numeral) ==> h == Handling(None, Send(400, InvalidRatings))
    ensures !SomeRatingOutOfRange(body, numeral) ==>
      AnsweredAfterInsert(h, Params(body, PerformanceColumns), db)
  {
    var vendorId := Field(body, "VendorID");
    var serviceQuality := Field(body, "ServiceQuality");
    var timeliness := Field(body, "Timeliness");
    var pricing := Field(body, "Pricing");
    var feedback := Field(body, "Feedback");
    assert [vendorId, serviceQuality, timeliness, pricing, feedback] == Params(body, PerformanceColumns);
    var ratings := Params(body, RatingColumns);
    assert ratings[0] == serviceQuality && ratings[1] == timeliness && ratings[2] == pricing;
    RatingInRangeExactly(NumberOf(serviceQuality, numeral));
    RatingInRangeExactly(NumberOf(timeliness, numeral));
    RatingInRangeExactly(NumberOf(pricing, numeral));
    if !RatingInRange(NumberOf(serviceQuality, numeral)) || !RatingInRange(NumberOf(timeliness, numeral)) ||
       !RatingInRange(NumberOf(pricing, numeral)) then
      Handling(None, Send(400, InvalidRatings))
    else
      Handling(Some([vendorId, serviceQuality, timeliness, pricing, feedback]), AfterInsert(db))
  }

  const ContractColumns: seq<string> := ["VendorID", "DepartmentID", "StartDate", "EndDate", "Status"]

  /** `POST /add-contract`. */
  function AddContract(body: Body, db: DbOutcome): (h: Handling)
    ensures SomeMissing(body, ContractColumns) ==> h == Handling(None, Send(400, AllFieldsRequired))
    ensures !SomeMissing(body, ContractColumns) ==> AnsweredAfterInsert(h, Params(body, ContractColumns), db)
  {
    var vendorId := Field(body, "VendorID");
    var departmentId := Field(body, "DepartmentID");
    var startDate := Field(body, "StartDate");
    var endDate := Field(body, "EndDate");
    var status := Field(body, "Status");
    var params := Params(body, ContractColumns);
    assert [vendorId, departmentId, startDate, endDate, status] == params;
    assert params[0] == vendorId && params[1] == departmentId && params[2] == startDate &&
           params[3] == endDate && params[4] == status;
    if !Truthy(vendorId) || !Truthy(departmentId) || !Truthy(startDate) || !Truthy(endDate) || !Truthy(status) then
      Handling(None, Send(400, AllFieldsRequired))
    else
      Handling(Some([vendorId, departmentId, startDate, endDate, status]), AfterInsert(db))
  }

  /** Every handler answers 400 exactly when it issues no INSERT, and otherwise answers
      either 500 or a redirect, never both and never 400. */
  lemma NoInsertIffRejected(body: Body, numeral: string -> JsNumber, db: DbOutcome)
    ensures RegisterVendor(body, db).insert.None? <==> RegisterVendor(body, db).response.Send? && RegisterVendor(body, db).response.status == 400
    ensures EvaluatePerformance(body, numeral, db).insert.None? <==>
      EvaluatePerformance(body, numeral, db).response.Send? && EvaluatePerformance(body, numeral, db).response.status == 400
    ensures AddContract(body, db).insert.None? <==> AddContract(body, db).response.Send? && AddContract(body, db).response.status == 400
  {
  }

  /** The performance guard never looks at VendorID or Feedback: two bodies that agree on
      the three ratings are both accepted or both rejected. */
  lemma EvaluateIgnoresVendorAndFeedback(b1: Body, b2: Body, numeral: string -> JsNumber, db: DbOutcome)
    requires forall i :: 0 <= i < |RatingColumns| ==> Field(b1, RatingColumns[i]) == Field(b2, RatingColumns[i])
    ensures EvaluatePerformance(b1, numeral, db).insert.Some? <==> EvaluatePerformance(b2, numeral, db).insert.Some?
  {
    assert SomeRatingOutOfRange(b1, numeral) <==> SomeRatingOutOfRange(b2, numeral);
  }

  /** A rating sent blank (empty or only whitespace) converts to 0 and never fails its own
      test; when the other two ratings pass, the request is accepted and the blank string is
      what reaches the INSERT. */
  lemma BlankRatingAccepted(body: Body, numeral: string -> JsNumber, db: DbOutcome)
    requires "ServiceQuality" in body
    requires forall k :: 0 <= k < |body["ServiceQuality"]| ==> IsSpace(body["ServiceQuality"][k])
    requires RatingInRange(NumberOf(Field(body, "Timeliness"), numeral))
    requires RatingInRange(NumberOf(Field(body, "Pricing"), numeral))
    ensures RatingInRange(NumberOf(Field(body, "ServiceQuality"), numeral))
    ensures EvaluatePerformance(body, numeral, db).insert.Some?
    ensures EvaluatePerformance(body, numeral, db).insert.value[1] == Some(body["ServiceQuality"])
  {
    BlankIsZero(body["ServiceQuality"], numeral);
    forall i | 0 <= i < |RatingColumns|
      ensures WithinZeroToFive(NumberOf(Field(body, RatingColumns[i]), numeral))
    {
      RatingInRangeExactly(NumberOf(Field(body, RatingColumns[i]), numeral));
    }
    assert !SomeRatingOutOfRange(body, numeral);
  }
}
