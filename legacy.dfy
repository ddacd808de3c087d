/** The legacy `UserManager` (UserManager.php): an older variant of the same
    registration with weaker rules, no duplicate check and unescaped comma
    separated lines. `filter_var` is the parameter `isEmail`, `md5` the
    parameter `md5`, `date('Y-m-d H:i:s')` the formatted parameter `now`, and a
    failing `fopen` / `file_get_contents` the flags `openFails` / `readFails`. */
module Legacy {
  import opened Php
  import opened Entity
  import opened Validation

  const MinLegacyPasswordLength: nat := 6

  /** The line `registerUserAndNotify` appends: the raw fields joined by commas,
      then `PHP_EOL`. */
  function LegacyLine(name: string, email: string, digest: string, stamp: string): string {
    name + "," + email + "," + digest + "," + stamp + "\n"
  }

  /** The checks of `registerUserAndNotify`, in order: the three keys present
      and not `empty`, the email filter, a password of at least 6 bytes. */
  predicate LegacyAcceptable(data: map<string, string>, isEmail: string -> bool) {
    !IsMissing(data, "email") && !IsMissing(data, "name") && !IsMissing(data, "pass") &&
    isEmail(data["email"]) && |data["pass"]| >= MinLegacyPasswordLength
  }

  datatype LegacyOutcome = LegacyOutcome(ok: bool, file: File)

  /** `registerUserAndNotify`: what it returns and the file afterwards. */
  function LegacyRegister(file: File, data: map<string, string>, isEmail: string -> bool,
                          md5: string -> string, now: DateTime, openFails: bool): (r: LegacyOutcome)
    ensures r.ok <==> LegacyAcceptable(data, isEmail) && !openFails
    ensures !r.ok ==> r.file == file
    ensures r.ok ==> r.file == Present(ContentOf(file) +
                                       LegacyLine(data["name"], data["email"], md5(data["pass"]), Format(now)))
  {
    if IsMissing(data, "email") || IsMissing(data, "name") || IsMissing(data, "pass") then
      LegacyOutcome(false, file)
    else if !isEmail(data["email"]) then
      LegacyOutcome(false, file)
    else if |data["pass"]| < MinLegacyPasswordLength then
      LegacyOutcome(false, file)
    else
      var line := LegacyLine(data["name"], data["email"], md5(data["pass"]), Format(now));
      if openFails then LegacyOutcome(false, file)
      else LegacyOutcome(true, Present(ContentOf(file) + line))
  }

  /** A line whose second comma-separated field is exactly `email`. */
  predicate HoldsEmail(line: string, email: string) {
    var parts := Split(line, ',');
    |parts| > 1 && parts[1] == email
  }

  /** `checkUserExists`: a missing file holds nobody; an unreadable one reads as
      the empty string, which holds nobody either; otherwise some line must hold
      the email as its second field. */
  ghost predicate LegacyExists(file: File, email: string, readFails: bool) {
    file.Present? && !readFails &&
    exists i :: 0 <= i < |Split(file.content, '\n')| && HoldsEmail(Split(file.content, '\n')[i], email)
  }

  class UserManager {
    /** `users.txt` in the working directory. */
    var file: File

    constructor (file: File)
      ensures this.file == file
    {
      this.file := file;
    }

    /** `registerUserAndNotify`; the notifications it only logs are not modelled. */
    method RegisterUserAndNotify(data: map<string, string>, isEmail: string -> bool,
                                 md5: string -> string, now: DateTime, openFails: bool) returns (ok: bool)
      modifies this
      ensures var r := LegacyRegister(old(file), data, isEmail, md5, now, openFails);
        ok == r.ok && file == r.file
    {
      if IsMissing(data, "email") || IsMissing(data, "name") || IsMissing(data, "pass") {
        return false;
      }
      if !isEmail(data["email"]) {
        return false;
      }
      if |data["pass"]| < MinLegacyPasswordLength {
        return false;
      }
      var line := LegacyLine(data["name"], data["email"], md5(data["pass"]), Format(now));
      if openFails {
        return false;
      }
      file := Present(ContentOf(file) + line);
      return true;
    }

    /** `checkUserExists`: the scan over the lines, stopping at the first hit. */
    method CheckUserExists(email: string, readFails: bool) returns (b: bool)
      ensures b == LegacyExists(file, email, readFails)
    {
      if file.Absent? {
        return false;
      }
      var content := if readFails then "" else file.content;
      var lines := Split(content, '\n');
      for i := 0 to |lines|
        invariant forall j :: 0 <= j < i ==> !HoldsEmail(lines[j], email)
      {
        var parts := Split(lines[i], ',');
        if |parts| > 1 && parts[1] == email {
          return true;
        }
      }
      return false;
    }
  }

  /* ---------------------------------------------------------------------- */
  /* What the legacy format guarantees, and what it does not                 */
  /* ---------------------------------------------------------------------- */

  /** There is no duplicate check: the same data registers twice and leaves two
      identical lines. */
  lemma LegacyDuplicatesAppended(file: File, data: map<string, string>, isEmail: string -> bool,
                                 md5: string -> string, now: DateTime)
    requires LegacyAcceptable(data, isEmail)
    ensures var first := LegacyRegister(file, data, isEmail, md5, now, false);
      var second := LegacyRegister(first.file, data, isEmail, md5, now, false);
      var line := LegacyLine(data["name"], data["email"], md5(data["pass"]), Format(now));
      first.ok && second.ok && second.file == Present(ContentOf(file) + line + line)
  {
  }

  /** The fields of a legacy line whose name and email hold no comma: the name,
      then the email. */
  lemma LegacyFields(name: string, email: string, rest: string)
    requires ',' !in name && ',' !in email
    ensures var parts := Split(name + "," + email + "," + rest, ',');
      |parts| > 1 && parts[0] == name && parts[1] == email
  {
    assert name + "," + email + "," + rest == name + [','] + (email + [','] + rest);
    SplitConcat(name, email + [','] + rest, ',');
    SplitConcat(email, rest, ',');
    SplitNoDelimiter(name, ',');
    SplitNoDelimiter(email, ',');
  }

  /** A record whose name and email hold no comma and which keeps to one line
      is found after it is appended to a file that ends in a line break. */
  lemma LegacyCleanRecordFound(file: File, data: map<string, string>, isEmail: string -> bool,
                               md5: string -> string, now: DateTime)
    requires LegacyAcceptable(data, isEmail)
    requires EndsWithLineBreak(ContentOf(file))
    requires ',' !in data["name"] && ',' !in data["email"]
    requires '\n' !in data["name"] && '\n' !in data["email"] && '\n' !in md5(data["pass"])
    ensures LegacyExists(LegacyRegister(file, data, isEmail, md5, now, false).file, data["email"], false)
  {
    var rest := md5(data["pass"]) + "," + Format(now);
    var rec := data["name"] + "," + data["email"] + "," + rest;
    FormatHasNo(now, '\n');
    assert '\n' !in rec;
    var after := LegacyRegister(file, data, isEmail, md5, now, false).file;
    assert after.content == ContentOf(file) + rec + "\n";
    AppendedLine(ContentOf(file), rec);
    LegacyFields(data["name"], data["email"], rest);
    var pieces := Split(after.content, '\n');
    assert HoldsEmail(pieces[|pieces| - 2], data["email"]);
  }

  /** The comma the legacy format does not escape: with a name such as
      `John,Doe`, the second field of the line is the part of the name after its
      comma, so the user just registered is not found by their email. */
  lemma CommaInNameHidesRecord(data: map<string, string>, first: string, last: string,
                               isEmail: string -> bool, md5: string -> string, now: DateTime)
    requires LegacyAcceptable(data, isEmail)
    requires data["name"] == first + "," + last && ',' !in first && ',' !in last
    requires last != data["email"]
    requires '\n' !in data["name"] && '\n' !in data["email"] && '\n' !in md5(data["pass"])
    ensures var r := LegacyRegister(Present(""), data, isEmail, md5, now, false);
      r.ok && !LegacyExists(r.file, data["email"], false)
  {
    var email := data["email"];
    var rest := email + "," + md5(data["pass"]) + "," + Format(now);
    var rec := first + "," + last + "," + rest;
    FormatHasNo(now, '\n');
    assert '\n' !in rec;
    var after := LegacyRegister(Present(""), data, isEmail, md5, now, false).file;
    assert after.content == rec + ['\n'] + [];
    SplitConcat(rec, [], '\n');
    SplitNoDelimiter(rec, '\n');
    var lines := Split(after.content, '\n');
    assert lines == [rec, ""];
    LegacyFields(first, last, rest);
    assert !HoldsEmail(lines[0], email);
    assert !HoldsEmail(lines[1], email);
  }
}
