/** The input validator (src/Validation/UserValidator.php): four checks run in
    a fixed order (required fields, email, password, name) and the first one
    that fails decides the error. The e-mail syntax check (`filter_var` with
    `FILTER_VALIDATE_EMAIL`) is the parameter `isEmail`. */
module Validation {
  import opened Outcomes
  import opened Php

  const RequiredFields: seq<string> := ["name", "email", "password"]
  const MinPasswordLength: nat := 8
  const MinNameLength: nat := 2
  const MaxNameLength: nat := 100

  /* ---------------------------------------------------------------------- */
  /* Required fields                                                         */
  /* ---------------------------------------------------------------------- */

  /** `empty($userData[$field])`: the key is absent, or its value is "" or "0". */
  predicate IsMissing(data: map<string, string>, field: string) {
    field !in data || IsEmptyString(data[field])
  }

  /** The fields of `fields` that are missing from `data`, in the order of `fields`. */
  function MissingAmong(fields: seq<string>, data: map<string, string>): (r: seq<string>)
    ensures forall f :: f in r <==> f in fields && IsMissing(data, f)
  {
    if fields == [] then []
    else (if IsMissing(data, fields[0]) then [fields[0]] else []) + MissingAmong(fields[1..], data)
  }

  lemma {:induction false} MissingAmongConcat(a: seq<string>, b: seq<string>, data: map<string, string>)
    ensures MissingAmong(a + b, data) == MissingAmong(a, data) + MissingAmong(b, data)
  {
    if a == [] {
      assert a + b == b;
    } else {
      assert (a + b)[1..] == a[1..] + b;
      MissingAmongConcat(a[1..], b, data);
    }
  }

  /** The missing fields are listed in the order name, email, password. */
  lemma MissingRequired(data: map<string, string>)
    ensures MissingAmong(RequiredFields, data) ==
            (if IsMissing(data, "name") then ["name"] else []) +
            (if IsMissing(data, "email") then ["email"] else []) +
            (if IsMissing(data, "password") then ["password"] else [])
  {
    var n := if IsMissing(data, "name") then ["name"] else [];
    var e := if IsMissing(data, "email") then ["email"] else [];
    var p := if IsMissing(data, "password") then ["password"] else [];
    assert RequiredFields[1..] == ["email", "password"];
    assert ["email", "password"][1..] == ["password"];
    assert ["password"][1..] == [];
    assert MissingAmong(["password"], data) == p + [];
    assert MissingAmong(["email", "password"], data) == e + p;
    assert MissingAmong(RequiredFields, data) == n + (e + p);
  }

  /** The loop of `validateRequiredFields` that collects the missing fields. */
  method CollectMissingFields(data: map<string, string>) returns (missing: seq<string>)
    ensures missing == MissingAmong(RequiredFields, data)
    ensures missing == (if IsMissing(data, "name") then ["name"] else []) +
                       (if IsMissing(data, "email") then ["email"] else []) +
                       (if IsMissing(data, "password") then ["password"] else [])
  {
    missing := [];
    for i := 0 to |RequiredFields|
      invariant missing == MissingAmong(RequiredFields[..i], data)
    {
      var field := RequiredFields[i];
      if IsMissing(data, field) {
        missing := missing + [field];
      }
      assert RequiredFields[..i + 1] == RequiredFields[..i] + [field];
      MissingAmongConcat(RequiredFields[..i], [field], data);
    }
    assert RequiredFields[..|RequiredFields|] == RequiredFields;
    MissingRequired(data);
  }

  function MissingFieldsMessage(missing: seq<string>): string {
    "Missing required fields: " + Join(missing, ", ")
  }

  /** `validateRequiredFields`. */
  function RequiredFieldsCheck(data: map<string, string>): (r: Outcome)
    ensures r.Pass? <==> "name" in data && "email" in data && "password" in data &&
                         !IsEmptyString(data["name"]) && !IsEmptyString(data["email"]) &&
                         !IsEmptyString(data["password"])
  {
    var missing := MissingAmong(RequiredFields, data);
    MissingRequired(data);
    if missing != [] then Fail(ValidationError(MissingFieldsMessage(missing))) else Pass
  }

  /* ---------------------------------------------------------------------- */
  /* Email and password                                                      */
  /* ---------------------------------------------------------------------- */

  /** `validateEmail`. */
  function EmailCheck(email: string, isEmail: string -> bool): (r: Outcome)
    ensures r.Pass? <==> isEmail(email)
    ensures r.Fail? ==> r.error == ValidationError("Invalid email format: " + email)
  {
    if isEmail(email) then Pass else Fail(ValidationError("Invalid email format: " + email))
  }

  /** `preg_match('/[lo-hi]/', s)`: some byte of `s` lies in the range. */
  function ContainsInRange(s: string, lo: char, hi: char): (b: bool)
    ensures b <==> exists i :: 0 <= i < |s| && lo <= s[i] <= hi
  {
    if s == [] then false
    else if lo <= s[0] <= hi then true
    else
      var b := ContainsInRange(s[1..], lo, hi);
      assert b ==> exists i :: 0 <= i < |s| && lo <= s[i] <= hi by {
        if b {
          var i :| 0 <= i < |s[1..]| && lo <= s[1..][i] <= hi;
          assert lo <= s[i + 1] <= hi;
        }
      }
      b
  }

  /** The password rules, stated directly. */
  ghost predicate StrongPassword(p: string) {
    |p| >= MinPasswordLength &&
    (exists i :: 0 <= i < |p| && 'A' <= p[i] <= 'Z') &&
    (exists i :: 0 <= i < |p| && 'a' <= p[i] <= 'z') &&
    (exists i :: 0 <= i < |p| && '0' <= p[i] <= '9')
  }

  /** `validatePassword`: length first, then uppercase, lowercase, digit; the
      first rule broken is the one reported. */
  function PasswordCheck(password: string): (r: Outcome)
    ensures r.Pass? <==> StrongPassword(password)
    ensures |password| < MinPasswordLength ==>
            r == Fail(ValidationError("Password must be at least 8 characters long"))
    ensures |password| >= MinPasswordLength && !ContainsInRange(password, 'A', 'Z') ==>
            r == Fail(ValidationError("Password must contain at least one uppercase letter"))
    ensures |password| >= MinPasswordLength && ContainsInRange(password, 'A', 'Z') &&
            !ContainsInRange(password, 'a', 'z') ==>
            r == Fail(ValidationError("Password must contain at least one lowercase letter"))
    ensures |password| >= MinPasswordLength && ContainsInRange(password, 'A', 'Z') &&
            ContainsInRange(password, 'a', 'z') && !ContainsInRange(password, '0', '9') ==>
            r == Fail(ValidationError("Password must contain at least one number"))
  {
    if |password| < MinPasswordLength then
      Fail(ValidationError("Password must be at least 8 characters long"))
    else if !ContainsInRange(password, 'A', 'Z') then
      Fail(ValidationError("Password must contain at least one uppercase letter"))
    else if !ContainsInRange(password, 'a', 'z') then
      Fail(ValidationError("Password must contain at least one lowercase letter"))
    else if !ContainsInRange(password, '0', '9') then
      Fail(ValidationError("Password must contain at least one number"))
    else
      Pass
  }

  /* ---------------------------------------------------------------------- */
  /* Name                                                                    */
  /* ---------------------------------------------------------------------- */

  /** The characters of `[,"\r\n]`; the store's separator `|` is not among them. */
  predicate IsForbiddenNameChar(c: char) {
    c == ',' || c == '"' || c == '\r' || c == '\n'
  }

  /** `preg_match('/[,"\r\n]/', s)`. */
  function ContainsForbidden(s: string): (b: bool)
    ensures b <==> exists i :: 0 <= i < |s| && IsForbiddenNameChar(s[i])
  {
    if s == [] then false
    else if IsForbiddenNameChar(s[0]) then true
    else
      var b := ContainsForbidden(s[1..]);
      assert b ==> exists i :: 0 <= i < |s| && IsForbiddenNameChar(s[i]) by {
        if b {
          var i :| 0 <= i < |s[1..]| && IsForbiddenNameChar(s[1..][i]);
          assert IsForbiddenNameChar(s[i + 1]);
        }
      }
      b
  }

  /** The name rules on the trimmed name, stated directly. */
  ghost predicate WellFormedName(trimmed: string) {
    MinNameLength <= |trimmed| <= MaxNameLength &&
    forall i :: 0 <= i < |trimmed| ==> !IsForbiddenNameChar(trimmed[i])
  }

  /** `validateName`: on the trimmed name, length in [2, 100], then no
      forbidden character. */
  function NameCheck(name: string): (r: Outcome)
    ensures r.Pass? <==> WellFormedName(Trim(name))
    ensures |Trim(name)| < MinNameLength ==>
            r == Fail(ValidationError("Name must be at least 2 characters long"))
    ensures |Trim(name)| > MaxNameLength ==>
            r == Fail(ValidationError("Name must be less than 100 characters long"))
    ensures MinNameLength <= |Trim(name)| <= MaxNameLength && ContainsForbidden(Trim(name)) ==>
            r == Fail(ValidationError("Name contains invalid characters"))
  {
    var trimmed := Trim(name);
    if |trimmed| < MinNameLength then
      Fail(ValidationError("Name must be at least 2 characters long"))
    else if |trimmed| > MaxNameLength then
      Fail(ValidationError("Name must be less than 100 characters long"))
    else if ContainsForbidden(trimmed) then
      Fail(ValidationError("Name contains invalid characters"))
    else
      Pass
  }

  /* ---------------------------------------------------------------------- */
  /* validate                                                                */
  /* ---------------------------------------------------------------------- */

  /** Every rule holds: what `validate` accepts, stated without its order. */
  ghost predicate Acceptable(data: map<string, string>, isEmail: string -> bool) {
    "name" in data && "email" in data && "password" in data &&
    !IsEmptyString(data["name"]) && !IsEmptyString(data["email"]) && !IsEmptyString(data["password"]) &&
    isEmail(data["email"]) && StrongPassword(data["password"]) && WellFormedName(Trim(data["name"]))
  }

  /** `validate`: the four checks in order; the first failure is the outcome. */
  function ValidationOutcome(data: map<string, string>, isEmail: string -> bool): (r: Outcome)
    ensures r.Pass? <==> Acceptable(data, isEmail)
    ensures r.Fail? ==> r.error.ValidationError?
  {
    var required := RequiredFieldsCheck(data);
    if required.Fail? then required
    else
      var email := EmailCheck(data["email"], isEmail);
      if email.Fail? then email
      else
        var password := PasswordCheck(data["password"]);
        if password.Fail? then password
        else NameCheck(data["name"])
  }

  method Validate(data: map<string, string>, isEmail: string -> bool) returns (r: Outcome)
    ensures r == ValidationOutcome(data, isEmail)
  {
    var missing := CollectMissingFields(data);
    if missing != [] {
      return Fail(ValidationError(MissingFieldsMessage(missing)));
    }
    assert RequiredFieldsCheck(data).Pass?;
    r := EmailCheck(data["email"], isEmail);
    if r.Fail? {
      return;
    }
    r := PasswordCheck(data["password"]);
    if r.Fail? {
      return;
    }
    r := NameCheck(data["name"]);
  }

  /* ---------------------------------------------------------------------- */
  /* The order of the checks                                                 */
  /* ---------------------------------------------------------------------- */

  /** Missing fields are reported before anything else is looked at, all of them. */
  lemma MissingFieldsComeFirst(data: map<string, string>, isEmail: string -> bool)
    requires IsMissing(data, "name") || IsMissing(data, "email") || IsMissing(data, "password")
    ensures ValidationOutcome(data, isEmail) ==
            Fail(ValidationError(MissingFieldsMessage(MissingAmong(RequiredFields, data))))
  {
    assert "name" in RequiredFields && "email" in RequiredFields && "password" in RequiredFields;
  }

  /** With every field present, a bad email is reported whatever the password and name are. */
  lemma EmailBeforePassword(data: map<string, string>, isEmail: string -> bool)
    requires RequiredFieldsCheck(data).Pass? && !isEmail(data["email"])
    ensures ValidationOutcome(data, isEmail) == Fail(ValidationError("Invalid email format: " + data["email"]))
  {
  }

  /** A short password is reported before its character classes are checked, and
      before the name. */
  lemma LengthBeforeCharacterClasses(data: map<string, string>, isEmail: string -> bool)
    requires RequiredFieldsCheck(data).Pass? && isEmail(data["email"])
    requires |data["password"]| < MinPasswordLength
    ensures ValidationOutcome(data, isEmail) == Fail(ValidationError("Password must be at least 8 characters long"))
  {
  }

  /** Once the fields are present and the email is accepted, a weak password is
      reported with its own message, whatever the name is. */
  lemma PasswordBeforeName(data: map<string, string>, isEmail: string -> bool)
    requires RequiredFieldsCheck(data).Pass? && isEmail(data["email"])
    requires PasswordCheck(data["password"]).Fail?
    ensures ValidationOutcome(data, isEmail) == PasswordCheck(data["password"])
  {
  }

  /** A name of exactly 100 characters after trimming is accepted, one more is not. */
  lemma NameLengthBoundary(name: string)
    requires !ContainsForbidden(Trim(name))
    ensures |Trim(name)| == MaxNameLength ==> NameCheck(name) == Pass
    ensures |Trim(name)| == MaxNameLength + 1 ==>
            NameCheck(name) == Fail(ValidationError("Name must be less than 100 characters long"))
  {
  }

  /** The name rule bans `,` but lets the store's separator `|` through. */
  lemma SeparatorPassesNameCheck()
    ensures Trim("John|Doe") == "John|Doe" && WellFormedName("John|Doe")
    ensures NameCheck("John|Doe") == Pass
    ensures NameCheck("John,Doe") == Fail(ValidationError("Name contains invalid characters"))
  {
    assert Trim("John|Doe") == "John|Doe";
    assert Trim("John,Doe") == "John,Doe";
    assert ContainsForbidden("John,Doe") by {
      assert IsForbiddenNameChar("John,Doe"[4]);
    }
    assert !ContainsForbidden("John|Doe");
  }

  /* ---------------------------------------------------------------------- */
  /* The validator's unit tests, as lemmas                                   */
  /* ---------------------------------------------------------------------- */

  /** The password every test uses passes the password rules. */
  lemma TestPasswordIsStrong()
    ensures StrongPassword("SecurePass123")
  {
    var p := "SecurePass123";
    assert 'S' == p[0] && 'e' == p[1] && '1' == p[10];
  }

  /** With only a password, both missing fields are listed, name first. */
  lemma NameAndEmailReportedMissing(data: map<string, string>, isEmail: string -> bool)
    requires data == map["password" := "SecurePass123"]
    ensures ValidationOutcome(data, isEmail) == Fail(ValidationError("Missing required fields: name, email"))
  {
    MissingRequired(data);
    assert MissingAmong(RequiredFields, data) == ["name", "email"];
    assert Join(["name", "email"], ", ") == "name, email" by {
      assert ["name", "email"][1..] == ["email"];
    }
  }

  /** Once the fields are present and the email and password pass, the name
      decides the outcome. */
  lemma NameDecides(data: map<string, string>, isEmail: string -> bool)
    requires "name" in data && "email" in data && "password" in data
    requires !IsEmptyString(data["name"]) && !IsEmptyString(data["email"]) && isEmail(data["email"])
    requires StrongPassword(data["password"])
    ensures ValidationOutcome(data, isEmail) == NameCheck(data["name"])
  {
    assert !IsEmptyString(data["password"]);
  }

  /** A one-character name is too short, once email and password pass. */
  lemma OneLetterNameRefused(data: map<string, string>, isEmail: string -> bool)
    requires data == map["name" := "J", "email" := "john.doe@example.com", "password" := "SecurePass123"]
    requires isEmail("john.doe@example.com")
    ensures ValidationOutcome(data, isEmail) == Fail(ValidationError("Name must be at least 2 characters long"))
  {
    assert NameCheck("J") == Fail(ValidationError("Name must be at least 2 characters long")) by {
      assert Trim("J") == "J";
    }
    assert !IsEmptyString("J") && !IsEmptyString("john.doe@example.com") by {
      assert "J"[0] != "0"[0];
    }
    assert data["name"] == "J" && data["email"] == "john.doe@example.com";
    TestPasswordIsStrong();
    NameDecides(data, isEmail);
  }

  /** A comma in the name is refused, once email and password pass. */
  lemma CommaNameRefused(data: map<string, string>, isEmail: string -> bool)
    requires data == map["name" := "John,Doe", "email" := "john.doe@example.com", "password" := "SecurePass123"]
    requires isEmail("john.doe@example.com")
    ensures ValidationOutcome(data, isEmail) == Fail(ValidationError("Name contains invalid characters"))
  {
    assert data["name"] == "John,Doe" && data["email"] == "john.doe@example.com";
    TestPasswordIsStrong();
    NameDecides(data, isEmail);
    SeparatorPassesNameCheck();
  }
}
