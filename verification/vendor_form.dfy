/** The submit handler of the vendor-registration form (public/js/script.js): four
    anchored regular-expression checks, an error list and the decision to block submission. */
module VendorForm {
  import opened Sequences
  import opened Text
  import opened ErrorList

  /** The values of the four inputs when the form is submitted. */
  datatype Form = Form(name: string, serviceCategory: string, contactInfo: string, complianceCertifications: string)

  /** `^[cls]{lo,hi}$`: between lo and hi characters, each of the class. */
  predicate ClassRun(t: string, cls: char -> bool, lo: nat, hi: nat) {
    lo <= |t| <= hi && forall k :: 0 <= k < |t| ==> cls(t[k])
  }

  /** `[a-zA-Z0-9\s]` */
  predicate NameClass(c: char) { IsAsciiLetter(c) || IsDigit(c) || IsSpace(c) }

  /** `[a-zA-Z\s]` */
  predicate CategoryClass(c: char) { IsAsciiLetter(c) || IsSpace(c) }

  /** `[^\s@]` */
  predicate EmailClass(c: char) { !IsSpace(c) && c != '@' }

  /** `/^[a-zA-Z0-9\s]{1,50}$/` */
  predicate NameOk(s: string) { ClassRun(s, NameClass, 1, 50) }

  /** `/^[a-zA-Z\s]{1,50}$/` */
  predicate ServiceCategoryOk(s: string) { ClassRun(s, CategoryClass, 1, 50) }

  /** `/^[^\s@]+@[^\s@]+\.[^\s@]+$/`: a local part, `@`, a domain part, `.`, a final part,
      the three parts non-empty and free of whitespace and `@`. The `.` is any one of the
      dots after the `@`, as the regular expression backtracks over them. */
  predicate ContactInfoOk(s: string) {
    exists i, j :: 0 < i < |s| && i + 1 < j < |s| - 1 && s[i] == '@' && s[j] == '.' &&
      ClassRun(s[..i], EmailClass, 1, |s|) &&
      ClassRun(s[i + 1..j], EmailClass, 1, |s|) &&
      ClassRun(s[j + 1..], EmailClass, 1, |s|)
  }

  /** `/^ISO-\d{4}$/` */
  predicate CertificationOk(s: string) {
    IsPrefix("ISO-", s) && ClassRun(s[4..], IsDigit, 4, 4)
  }

  const NameMessage := "Vendor Name must be alphanumeric and up to 50 characters."
  const ServiceCategoryMessage := "Service Category must contain only letters and up to 50 characters."
  const ContactInfoMessage := "Contact Info must be a valid email address (e.g., xyz@email.com)."
  const CertificationMessage := "Compliance Certifications must be in the format ISO-XXXX (e.g., ISO-9001)."

  /** The messages in the order the handler runs the checks. */
  function Messages(): seq<string> {
    [NameMessage, ServiceCategoryMessage, ContactInfoMessage, CertificationMessage]
  }

  /** The outcome of each check, in the same order. */
  function Checks(f: Form): seq<bool> {
    [NameOk(f.name), ServiceCategoryOk(f.serviceCategory),
     ContactInfoOk(f.contactInfo), CertificationOk(f.complianceCertifications)]
  }

  /** The error list the handler shows for a submitted form. */
  function Errors(f: Form): seq<string> {
    Failed(Messages(), Checks(f))
  }

  /** The submit handler: every check runs (no short-circuit), each failure appends its
      message, and submission is prevented iff some check failed. */
  method Submit(f: Form) returns (errors: seq<string>, prevented: bool)
    ensures errors == Errors(f)
    ensures prevented <==> !(NameOk(f.name) && ServiceCategoryOk(f.serviceCategory) &&
                             ContactInfoOk(f.contactInfo) && CertificationOk(f.complianceCertifications))
    ensures prevented <==> errors != []
  {
    ErrorsUnfold(f);
    errors := [];
    var valid := true;
    if !NameOk(f.name) {
      valid := false;
      errors := errors + [NameMessage];
    }
    if !ServiceCategoryOk(f.serviceCategory) {
      valid := false;
      errors := errors + [ServiceCategoryMessage];
    }
    if !ContactInfoOk(f.contactInfo) {
      valid := false;
      errors := errors + [ContactInfoMessage];
    }
    if !CertificationOk(f.complianceCertifications) {
      valid := false;
      errors := errors + [CertificationMessage];
    }
    prevented := !valid;
  }

  /** The error list spelled out check by check. */
  lemma ErrorsUnfold(f: Form)
    ensures Errors(f) ==
      (if NameOk(f.name) then [] else [NameMessage]) +
      (if ServiceCategoryOk(f.serviceCategory) then [] else [ServiceCategoryMessage]) +
      (if ContactInfoOk(f.contactInfo) then [] else [ContactInfoMessage]) +
      (if CertificationOk(f.complianceCertifications) then [] else [CertificationMessage])
  {
    FailedOfFour(Messages(), Checks(f));
  }

  lemma FailedOfFour(m: seq<string>, c: seq<bool>)
    requires |m| == 4 && |c| == 4
    ensures Failed(m, c) ==
      (if c[0] then [] else [m[0]]) + (if c[1] then [] else [m[1]]) +
      (if c[2] then [] else [m[2]]) + (if c[3] then [] else [m[3]])
  {
    var t0, t1, t2, t3 := (if c[0] then [] else [m[0]]), (if c[1] then [] else [m[1]]),
                          (if c[2] then [] else [m[2]]), (if c[3] then [] else [m[3]]);
    assert m[..3][..2] == m[..2] && c[..3][..2] == c[..2];
    assert m[..2][..1] == m[..1] && c[..2][..1] == c[..1];
    assert m[..1][..0] == [] && c[..1][..0] == [];
    assert Failed(m[..1], c[..1]) == t0;
    assert Failed(m[..2], c[..2]) == t0 + t1;
    assert Failed(m[..3], c[..3]) == t0 + t1 + t2;
    assert Failed(m, c) == t0 + t1 + t2 + t3;
  }

  /** Each message appears exactly when its own check failed, the messages keep the order
      Name, ServiceCategory, ContactInfo, ComplianceCertifications, and there is one
      message per failed check. */
  lemma ErrorsReportEachFailure(f: Form)
    ensures NameMessage in Errors(f) <==> !NameOk(f.name)
    ensures ServiceCategoryMessage in Errors(f) <==> !ServiceCategoryOk(f.serviceCategory)
    ensures ContactInfoMessage in Errors(f) <==> !ContactInfoOk(f.contactInfo)
    ensures CertificationMessage in Errors(f) <==> !CertificationOk(f.complianceCertifications)
    ensures IsSubseq(Errors(f), Messages())
    ensures |Errors(f)| == CountOf(Checks(f), false)
  {
    var m := Messages();
    assert forall a, b :: 0 <= a < b < |m| ==> m[a] != m[b];
    FailedExactly(m, Checks(f), 0);
    FailedExactly(m, Checks(f), 1);
    FailedExactly(m, Checks(f), 2);
    FailedExactly(m, Checks(f), 3);
    FailedInOrder(m, Checks(f));
  }

  /** A vendor name is accepted iff it has 1 to 50 characters, each an ASCII letter,
      an ASCII digit or whitespace. */
  lemma NameAccepted(s: string)
    ensures NameOk(s) <==>
      (1 <= |s| <= 50 && forall k :: 0 <= k < |s| ==> IsAsciiLetter(s[k]) || IsDigit(s[k]) || IsSpace(s[k]))
  {
  }

  /** A service category is accepted iff it has 1 to 50 characters, each an ASCII letter
      or whitespace; a single digit anywhere rejects it. */
  lemma ServiceCategoryAccepted(s: string)
    ensures ServiceCategoryOk(s) <==>
      (1 <= |s| <= 50 && forall k :: 0 <= k < |s| ==> IsAsciiLetter(s[k]) || IsSpace(s[k]))
    ensures (exists k :: 0 <= k < |s| && IsDigit(s[k])) ==> !ServiceCategoryOk(s)
  {
  }

  /** Every acceptable service category would also be an acceptable vendor name. */
  lemma ServiceCategoryIsName(s: string)
    requires ServiceCategoryOk(s)
    ensures NameOk(s)
  {
  }

  /** A certification is accepted iff it is `ISO-` followed by exactly four digits,
      eight characters in all. */
  lemma CertificationAccepted(s: string)
    ensures CertificationOk(s) <==>
      |s| == 8 && s[..4] == "ISO-" && forall k :: 4 <= k < 8 ==> IsDigit(s[k])
  {
    if |s| == 8 && s[..4] == "ISO-" {
      assert forall k :: 0 <= k < 4 ==> s[4..][k] == s[k + 4];
    }
  }

  /** The e-mail check in words: no whitespace anywhere, exactly one `@`, something before
      it, and a `.` after it that is neither the first nor the last character after the `@`. */
  predicate EmailShape(s: string) {
    (forall k :: 0 <= k < |s| ==> !IsSpace(s[k])) &&
    CountOf(s, '@') == 1 &&
    exists a, d :: 0 < a < |s| && a + 1 < d < |s| - 1 && s[a] == '@' && s[d] == '.'
  }

  /** The regular expression accepts exactly the strings of that shape. */
  lemma ContactInfoCharacterisation(s: string)
    ensures ContactInfoOk(s) <==> EmailShape(s)
  {
    if ContactInfoOk(s) {
      var i, j :| 0 < i < |s| && i + 1 < j < |s| - 1 && s[i] == '@' && s[j] == '.' &&
        ClassRun(s[..i], EmailClass, 1, |s|) &&
        ClassRun(s[i + 1..j], EmailClass, 1, |s|) &&
        ClassRun(s[j + 1..], EmailClass, 1, |s|);
      PlainSplit(s, i, j);
    }
    if EmailShape(s) {
      var a, d :| 0 < a < |s| && a + 1 < d < |s| - 1 && s[a] == '@' && s[d] == '.';
      OnlyAt(s, a);
      assert ClassRun(s[..a], EmailClass, 1, |s|);
      assert ClassRun(s[a + 1..d], EmailClass, 1, |s|);
      assert ClassRun(s[d + 1..], EmailClass, 1, |s|);
    }
  }

  /** The three parts of a match carry no whitespace and no `@`, so the whole string has
      no whitespace and its only `@` is the separator. */
  lemma PlainSplit(s: string, i: nat, j: nat)
    requires 0 < i < |s| && i + 1 < j < |s| - 1 && s[i] == '@' && s[j] == '.'
    requires ClassRun(s[..i], EmailClass, 1, |s|)
    requires ClassRun(s[i + 1..j], EmailClass, 1, |s|)
    requires ClassRun(s[j + 1..], EmailClass, 1, |s|)
    ensures forall k :: 0 <= k < |s| ==> !IsSpace(s[k])
    ensures CountOf(s, '@') == 1
  {
    forall k | 0 <= k < |s| && k != i && k != j ensures EmailClass(s[k]) {
      if k < i {
        assert s[k] == s[..i][k];
      } else if k < j {
        assert s[k] == s[i + 1..j][k - i - 1];
      } else {
        assert s[k] == s[j + 1..][k - j - 1];
      }
    }
    CountOfSingle(s, '@', i);
  }

  /** If `@` occurs once, at `a`, no other position holds `@`. */
  lemma OnlyAt(s: string, a: nat)
    requires a < |s| && s[a] == '@' && CountOf(s, '@') == 1
    ensures forall k :: 0 <= k < |s| && k != a ==> s[k] != '@'
  {
    var p, r := s[..a], s[a + 1..];
    assert s == p + [s[a]] + r;
    CountOfAppend(p + [s[a]], r, '@');
    CountOfAppend(p, [s[a]], '@');
    assert CountOf([s[a]], '@') == 1;
    assert '@' !in p && '@' !in r;
    forall k | 0 <= k < |s| && k != a ensures s[k] != '@' {
      if k < a { assert s[k] == p[k]; } else { assert s[k] == r[k - a - 1]; }
    }
  }

  /** The placeholder address of the error message passes the check. */
  lemma SampleAddressAccepted()
    ensures ContactInfoOk("xyz@email.com")
  {
    var s := "xyz@email.com";
    assert s[3] == '@' && s[9] == '.';
    assert ClassRun(s[..3], EmailClass, 1, |s|);
    assert ClassRun(s[4..9], EmailClass, 1, |s|);
    assert ClassRun(s[10..], EmailClass, 1, |s|);
  }
}
