# Corporate vendor management: validators, request guards and the result formatter

This project models the decision logic of a small vendor-management web application,
written in Dafny:

- **The vendor registration form.** The browser checks four fields (name, service category,
  contact e-mail, compliance certification) with anchored regular expressions. It collects
  one error message per failed check, in field order, and blocks submission when any check
  failed.
- **The performance evaluation form.** The browser checks the vendor ID, then runs a loop
  over the three rating fields (service quality, timeliness, pricing). It accumulates
  messages in the same way.
- **The vendor ID autocomplete.** The browser filters the vendor list by an ID prefix or a
  name substring.
- **The server's three POST handlers.** `/register-vendor`, `/evaluate-performance` and
  `/add-contract` each reject a request with 400 or issue one INSERT. They then answer 500
  with the database's message, or redirect to `/success.html`.
- **`formatData`.** This renders an endpoint's JSON answer as HTML: a table for an array, a
  `<pre>` block for an object or `null` (both have `typeof` `'object'`), and a paragraph for
  anything else.

Modules:

- `Wrappers`: `Option`.
- `Sequences`: subsequences, `Flatten`, occurrence counts and an order-preserving `Filter`.
- `Text`: JavaScript's whitespace class, `trim`, `startsWith`/`includes`, and the decimal
  text of a natural number.
- `JsNumbers`: a JavaScript number (NaN, finite, ±Infinity), its comparisons, and string
  to number conversion.
- `ErrorList`: the messages of the failed checks, in check order.
- `VendorForm`, `PerformanceForm` and `Autocomplete`: `public/js/script.js`.
- `Server`: `index.js`.
- `Permissions`: `public/js/permissions.js`.

The submit handlers are methods that build the error list step by step. The performance
handler's `forEach` over the rating fields is a `while` loop. The array branch of
`formatData` is a loop that appends one row per record. Each method is proved equal to a
specification function, and the properties of that function are proved as lemmas. The
regular expressions, the autocomplete filter and the server handlers are pure functions.

Number parsing is not reproduced. Two functions are parameters:

- `numeral`: JavaScript's StringNumericLiteral conversion of a trimmed, non-empty string.
- `parseFloat`.

The surrounding rules are written out:

- a blank string converts to 0;
- NaN fails every comparison;
- ±Infinity compare as infinities.

`toLowerCase` is also a parameter. A JSON number's decimal text and `JSON.stringify` are
parameters, held in `Permissions.Host`.

`formatData` throws in two cases. A record can be null. A cell can hold a value with no
string form: an object with an own `toString` property, directly or inside an array that
`join` converts. `Permissions.Formatted` returns None in both cases.

## Model

| member | source | states |
|---|---|---|
| VendorForm.NameAccepted | public/js/script.js:15-16 | the name check accepts exactly the strings of 1 to 50 characters that are all ASCII letters, ASCII digits or whitespace |
| VendorForm.ServiceCategoryAccepted | public/js/script.js:26-27 | the category check accepts exactly the strings of 1 to 50 ASCII letters or whitespace; any digit makes it fail |
| VendorForm.ServiceCategoryIsName | public/js/script.js:15-16 | every accepted service category also passes the name check |
| VendorForm.ContactInfoCharacterisation | public/js/script.js:37-38 | the e-mail expression accepts a string iff it has no whitespace, exactly one `@` that is not first, and a `.` after it, that is neither right after the `@` nor the last character |
| VendorForm.PlainSplit | public/js/script.js:37-38 | a string split into three `[^\s@]+` parts around `@` and `.` has no whitespace and exactly one `@` |
| VendorForm.OnlyAt | public/js/script.js:37-38 | when `@` occurs once, no position other than the found one holds `@` |
| VendorForm.SampleAddressAccepted | public/js/script.js:41 | the example address of the error message, `xyz@email.com`, passes the check |
| VendorForm.CertificationAccepted | public/js/script.js:48-49 | the certification check accepts exactly the 8-character strings `ISO-` followed by four ASCII digits |
| VendorForm.Submit | public/js/script.js:9-61 | the handler's error list is the messages of the failed checks in order Name, ServiceCategory, ContactInfo, ComplianceCertifications; submission is prevented iff some check failed, iff the list is non-empty |
| VendorForm.ErrorsUnfold | public/js/script.js:14-55 | all four checks run with no short-circuit; each contributes its own message exactly when it fails |
| VendorForm.FailedOfFour | public/js/script.js:14-55 | the failed-check list of four checks is the concatenation of each check's own contribution |
| VendorForm.ErrorsReportEachFailure | public/js/script.js:14-55 | each message is present iff its check failed; the list is a subsequence of the four messages in order; its length is the number of failed checks |
| PerformanceForm.Submit | public/js/script.js:145-179 | the handler's error list is the vendor-ID message (if the trimmed ID is empty or NaN) followed by the rating messages; submission is prevented iff the ID check or some rating failed, iff the list is non-empty |
| PerformanceForm.CheckRatings | public/js/script.js:161-172 | the loop over the rating fields appends, in field order, the message of every field whose parsed value is NaN, below 0 or above 5, and reports valid iff none did |
| PerformanceForm.ErrorsEmptyIffValid | public/js/script.js:150-178 | no error is shown exactly when the vendor ID is numeric and every rating is a finite number in [0, 5] |
| PerformanceForm.AllRatingsInRangeChecks | public/js/script.js:164-165 | the three rating checks pass together exactly when each parsed rating is finite and in [0, 5], end points included |
| PerformanceForm.ErrorsReportEachFailure | public/js/script.js:150-172 | the vendor-ID message comes first when present and only when the ID fails; each rating message is present iff its field failed; rating messages keep the order ServiceQuality, Timeliness, Pricing; one message per failure |
| PerformanceForm.VendorIdSeesTrimmedValue | public/js/script.js:150-152 | the vendor ID check gives the same answer for a value and for its trimmed form |
| PerformanceForm.VendorIdBlankRefused | public/js/script.js:150-152 | a vendor ID made only of whitespace is refused |
| PerformanceForm.SpaceBeforeCapitalsOnlyInserts | public/js/script.js:168 | the label replacement only inserts spaces: removing them gives back a field id that had none |
| PerformanceForm.LabelOfWords | public/js/script.js:168 | a capital followed by lower-case letters becomes a space, the capital and the rest |
| PerformanceForm.RatingLabelsText | public/js/script.js:161-168 | the labels of the three fields are ` Service Quality`, ` Timeliness` and ` Pricing` |
| PerformanceForm.MessagesDistinct | public/js/script.js:155-168 | the three rating messages and the vendor-ID message are pairwise different |
| JsNumbers.RatingInRangeExactly | public/js/script.js:165 | `isNaN(x) \|\| x < 0 \|\| x > 5` is false exactly for the finite numbers in [0, 5]; NaN and both infinities are refused |
| JsNumbers.BlankIsZero | index.js:60-62 | a blank rating string converts to 0, so it passes the server's rating test |
| ErrorList.Failed | public/js/script.js:16-55 | the error list has one message per failed check |
| ErrorList.FailedInOrder | public/js/script.js:16-55 | the messages keep the order of the checks |
| ErrorList.FailedMembers | public/js/script.js:16-55 | a message is shown only for a failed check, every failed check's message is shown, and the list is empty iff every check passed |
| ErrorList.FailedExactly | public/js/script.js:16-55 | with distinct messages, a check's message is shown iff that check failed |
| ErrorList.FailedPrefixStep | public/js/script.js:162-172 | one more check extends the list by its message exactly when it fails |
| Autocomplete.Suggestions | public/js/script.js:110-117 | an empty lowercased query gives nothing; otherwise the result is the vendors whose ID text starts with the query or whose lowercased name contains it, in list order, as a subsequence of the list, each with its multiplicity |
| Autocomplete.SuggestedExactly | public/js/script.js:113-117 | a vendor is suggested iff the query is non-empty, the vendor is in the list and it matches |
| Autocomplete.NonDigitQueryMatchesNamesOnly | public/js/script.js:115-116 | a query holding a non-digit can only match through the name, never through the ID |
| Autocomplete.FullIdSuggestsVendor | public/js/script.js:114-116 | typing a vendor's full ID suggests that vendor |
| Text.NatToStringRoundTrip | public/js/script.js:115 | the decimal text of an ID reads back as the ID |
| Text.NatToStringInjective | public/js/script.js:115 | different IDs have different decimal texts |
| Text.TrimIsSlice | public/js/script.js:150 | `trim` keeps a slice of the input, cuts only whitespace, and what it keeps starts and ends with non-whitespace |
| Text.TrimIdempotent | public/js/script.js:150 | trimming an already trimmed string leaves it unchanged |
| Server.Params | index.js:44 | the INSERT parameters are the request fields in the declared column order, an absent field passed as undefined |
| Server.RegisterVendor | index.js:31-52 | 400 `All fields are required.` with no INSERT iff some of Name, ServiceCategory, ContactInfo, ComplianceCertifications is missing or empty; otherwise one INSERT of those fields, then 500 `Database error: ` + message or a redirect to `/success.html` |
| Server.EvaluatePerformance | index.js:55-80 | 400 `Invalid ratings...` with no INSERT iff some rating is not a finite number in [0, 5]; otherwise one INSERT of VendorID, the ratings and Feedback, then 500 or the redirect |
| Server.AddContract | index.js:142-163 | 400 `All fields are required.` with no INSERT iff some of VendorID, DepartmentID, StartDate, EndDate, Status is missing or empty; otherwise one INSERT, then 500 or the redirect |
| Server.NoInsertIffRejected | index.js:35-162 | in each of the three handlers (`/register-vendor` at lines 35-51, `/evaluate-performance` at 59-79, `/add-contract` at 146-162), no INSERT is issued exactly when the answer is a 400 |
| Server.EvaluateIgnoresVendorAndFeedback | index.js:56-65 | whether an evaluation is inserted depends on the three ratings only, not on VendorID or Feedback |
| Server.BlankRatingAccepted | index.js:59-72 | a service-quality rating sent empty or as whitespace converts to 0 and never fails its own test; when the other two ratings pass, the request is accepted and the blank string itself is the INSERT's service-quality parameter |
| Permissions.FormatData | public/js/permissions.js:56-74 | the formatter returns the rendering the specification function gives for each kind of value; for an array it throws when a record is null or holds a value with an own `toString` property (directly or inside a nested array) |
| Permissions.FormatTable | public/js/permissions.js:57-66 | the loop appends one data row per record in order after the header row and closes the table, and stops with a throw at the first record whose row cannot be rendered |
| Permissions.StartsWithHeading | public/js/permissions.js:59 | every branch's output begins with `<h4>Results for ` + endpoint + `:</h4>` |
| Permissions.ThrowsExactlyOnUnrenderableRecord | public/js/permissions.js:56-74 | rendering fails exactly for an array holding a null record or a record with a value that has no string form; objects, null and primitives always render |
| Permissions.OwnToStringThrows | public/js/permissions.js:63 | `[{"a": {"toString": 1}}]` and `[[[{"toString": null}]]]` both throw, while a record that itself has a `toString` key renders |
| Permissions.TableShape | public/js/permissions.js:57-66 | the table is the heading, the table tag, exactly one header row from the first record's keys, then one `<tr>...</tr>` row per record in array order, then `</table>`, for every array whose records all render |
| Permissions.TableRows | public/js/permissions.js:61-64 | the rows are the header row followed by one row per record, each a `<tr>...</tr>` string |
| Permissions.EmptyArrayTable | public/js/permissions.js:61 | an empty array renders the header row `<tr></tr>` and no data row |
| Permissions.HeaderFromFirstRecord | public/js/permissions.js:61 | when the first record is an object, the header cells are its property names in order (none for `{}`) |
| Permissions.CellContent | public/js/permissions.js:63 | a falsy value (null, false, 0, empty string) is never converted and is shown as `N/A`; any other convertible value is shown as its string form, and a non-empty string verbatim |
| Permissions.ObjectCell | public/js/permissions.js:63 | an object cell converts exactly when the object has no own `toString` property, and then shows `[object Object]` |
| Permissions.RowCells | public/js/permissions.js:63 | a data row holds one cell per value of its record, in order |

## Left out

- DOM effects are not modelled: border colours, the `innerHTML` updates and `alert`. The
  handlers' error lists and their `preventDefault` decision are what those effects display.
- The `fetch` calls are network I/O and are not modelled. They are the vendor table,
  the load of the autocomplete list, and `executePermission`. The vendor list is a
  parameter of `Autocomplete.Suggestions`.
- The rendering of the suggestion list and its click handlers are DOM effects and are not
  modelled.
- Closing the suggestions on an outside click is a DOM effect and is not modelled.
- Express and MySQL plumbing is not modelled: the app setup, static files, the GET routes
  and the connection. The database's answer to an INSERT is an input of each handler.
- The redirect's status code is implicit (Express uses 302).
- JsNumbers.ToNumber: does not model JavaScript's numeric-literal grammar, because number
  parsing is outside the model. A trimmed non-empty string goes to the `numeral`
  parameter. The same holds for `parseFloat`.
- Floating-point rounding is not modelled. A finite number is a `real`.
- Only string request fields are modelled. The body parser's extended syntax (arrays and
  nested objects from bracketed keys) is not.
- Autocomplete.Suggestions: does not model `toLowerCase` itself, which is a parameter.
  Vendor IDs are natural numbers whose decimal text is written out. The exponent form
  JavaScript uses from 10^21 up is not modelled.
- Strings are sequences of Unicode characters, not UTF-16 code units. This matters only
  for `length` outside the Basic Multilingual Plane.
- Permissions.Formatted: does not model `JSON.stringify` or the decimal text of a JSON
  number; both are parameters.
- Permissions.Formatted: models a JSON object's properties in the order `Object.keys`
  returns them, without JavaScript's rule that puts integer-like keys first.
- Autocomplete.Suggestions: vendor names are non-null strings. A row with a null `Name`
  would make `toLowerCase` throw whenever the ID-prefix test fails, so the listener would
  stop and show no suggestions for that query; the model does not capture that.
- The handlers' `console.error` logging of database errors is output only and is not
  modelled.
- Role-based access control, sessions and audit logging are not in the modelled files.
