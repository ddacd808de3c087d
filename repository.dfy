/** The flat-file user store (src/Repository/FileUserRepository.php): a record
    codec over `|`-separated lines, and a store whose whole state is the
    `users.txt` file. Opening, locking and reading the file can fail; which of
    them fails on a given call is a parameter of that call. */
module Repository {
  import opened Outcomes
  import opened Php
  import opened Entity

  const Separator: char := '|'
  const FileName: string := "users.txt"

  /* ---------------------------------------------------------------------- */
  /* Field escaping                                                          */
  /* ---------------------------------------------------------------------- */

  /** `escapeField`: a backslash in front of every `|`; the backslash itself is
      not escaped. */
  function Escape(s: string): (r: string)
    ensures |r| == |s| + Count(s, Separator)
  {
    if s == [] then []
    else (if s[0] == Separator then ['\\', Separator] else [s[0]]) + Escape(s[1..])
  }

  /** `unescapeField`: every `\|`, scanned left to right without overlap, becomes `|`. */
  function Unescape(s: string): (r: string)
    ensures |r| <= |s|
  {
    if s == [] then []
    else if |s| >= 2 && s[0] == '\\' && s[1] == Separator then [Separator] + Unescape(s[2..])
    else [s[0]] + Unescape(s[1..])
  }

  /** Escaping keeps every `|`. */
  lemma {:induction false} EscapeCount(s: string)
    ensures Count(Escape(s), Separator) == Count(s, Separator)
  {
    if s != [] {
      EscapeCount(s[1..]);
      var head := if s[0] == Separator then ['\\', Separator] else [s[0]];
      CountConcat(head, Escape(s[1..]), Separator);
    }
  }

  /** Every character other than the backslash occurs in the escaped field
      exactly when it occurs in the field. */
  lemma {:induction false} EscapeKeeps(s: string, c: char)
    requires c != '\\'
    ensures c in Escape(s) <==> c in s
  {
    if s != [] {
      EscapeKeeps(s[1..], c);
      assert s == [s[0]] + s[1..];
    }
  }

  lemma {:induction false} EscapeIdentity(s: string)
    requires Separator !in s
    ensures Escape(s) == s
  {
    if s != [] {
      EscapeIdentity(s[1..]);
      assert s == [s[0]] + s[1..];
    }
  }

  /** The round-trip law of the codec, for every string. */
  lemma {:induction false} UnescapeEscape(s: string)
    ensures Unescape(Escape(s)) == s
  {
    if s != [] {
      UnescapeEscape(s[1..]);
      var rest := Escape(s[1..]);
      if s[0] == Separator {
        assert Escape(s)[2..] == rest;
      } else {
        assert Escape(s)[1..] == rest;
        assert rest == [] || rest[0] != Separator;
      }
      assert s == [s[0]] + s[1..];
    }
  }

  /* ---------------------------------------------------------------------- */
  /* Records                                                                 */
  /* ---------------------------------------------------------------------- */

  /** `createRecord`: the four escaped fields joined by `|`, in the order name,
      email, hash, timestamp. */
  function CreateRecord(u: User): string {
    Join(EscapedFields(u), [Separator])
  }

  function EscapedFields(u: User): seq<string> {
    [Escape(u.name), Escape(u.email), Escape(u.hashedPassword), Escape(Format(u.registeredAt))]
  }

  /** The record written out: the four escaped fields with a separator between each two. */
  lemma RecordShape(u: User)
    ensures CreateRecord(u) == Escape(u.name) + [Separator] + Escape(u.email) + [Separator] +
                               Escape(u.hashedPassword) + [Separator] + Escape(Format(u.registeredAt))
  {
    var s := [Separator];
    var n, e, h, f := Escape(u.name), Escape(u.email), Escape(u.hashedPassword), Escape(Format(u.registeredAt));
    var fs := EscapedFields(u);
    assert fs[1..] == [e, h, f];
    assert [e, h, f][1..] == [h, f];
    assert [h, f][1..] == [f];
    assert Join([h, f], s) == h + s + f;
    assert Join([e, h, f], s) == e + s + (h + s + f);
    assert Join(fs, s) == n + s + (e + s + (h + s + f));
  }

  /** `parseRecord`: split on `|` (ignoring escapes), demand four pieces,
      unescape them and parse the timestamp with `parseDate` (the
      `DateTimeImmutable` constructor; `None` when it throws). */
  function ParseRecord(line: string, parseDate: string -> Option<DateTime>): Option<User> {
    var fields := Split(line, Separator);
    if |fields| != 4 then None
    else match parseDate(Unescape(fields[3]))
      case None => None
      case Some(t) => Some(User(Unescape(fields[0]), Unescape(fields[1]), Unescape(fields[2]), t))
  }

  /** None of the three free-text fields holds the separator (the timestamp never does). */
  predicate SeparatorFree(u: User) {
    Separator !in u.name && Separator !in u.email && Separator !in u.hashedPassword
  }

  /** A record holds three separators plus every `|` inside its fields. */
  lemma RecordSeparators(u: User)
    ensures Count(CreateRecord(u), Separator) ==
            3 + Count(u.name, Separator) + Count(u.email, Separator) + Count(u.hashedPassword, Separator)
  {
    var n, e, h, f := Escape(u.name), Escape(u.email), Escape(u.hashedPassword), Escape(Format(u.registeredAt));
    RecordShape(u);
    EscapeCount(u.name);
    EscapeCount(u.email);
    EscapeCount(u.hashedPassword);
    FormatHasNo(u.registeredAt, Separator);
    EscapeIdentity(Format(u.registeredAt));
    CountZero(f, Separator);
    var s := [Separator];
    CountConcat(n, s, Separator);
    CountConcat(n + s, e, Separator);
    CountConcat(n + s + e, s, Separator);
    CountConcat(n + s + e + s, h, Separator);
    CountConcat(n + s + e + s + h, s, Separator);
    CountConcat(n + s + e + s + h + s, f, Separator);
  }

  /** The pieces of a record with no `|` inside its fields are its escaped fields. */
  lemma RecordFields(u: User)
    requires SeparatorFree(u)
    ensures Split(CreateRecord(u), Separator) ==
            [Escape(u.name), Escape(u.email), Escape(u.hashedPassword), Escape(Format(u.registeredAt))]
  {
    EscapeKeeps(u.name, Separator);
    EscapeKeeps(u.email, Separator);
    EscapeKeeps(u.hashedPassword, Separator);
    FormatHasNo(u.registeredAt, Separator);
    EscapeKeeps(Format(u.registeredAt), Separator);
    SplitJoin(EscapedFields(u), Separator);
  }

  /** Parsing a record written by `createRecord` succeeds exactly when no field
      holds `|` and the timestamp parses, and then gives back the name, email
      and hash that were written. Escaping does not help: a `|` in a field
      splits the line into more than four pieces. */
  lemma RecordRoundTrip(u: User, parseDate: string -> Option<DateTime>)
    ensures ParseRecord(CreateRecord(u), parseDate).Some? <==>
            SeparatorFree(u) && parseDate(Format(u.registeredAt)).Some?
    ensures SeparatorFree(u) && parseDate(Format(u.registeredAt)).Some? ==>
            ParseRecord(CreateRecord(u), parseDate) ==
            Some(User(u.name, u.email, u.hashedPassword, parseDate(Format(u.registeredAt)).value))
  {
    if SeparatorFree(u) {
      RecordFields(u);
      UnescapeEscape(u.name);
      UnescapeEscape(u.email);
      UnescapeEscape(u.hashedPassword);
      UnescapeEscape(Format(u.registeredAt));
    } else {
      RecordSeparators(u);
      CountZero(u.name, Separator);
      CountZero(u.email, Separator);
      CountZero(u.hashedPassword, Separator);
    }
  }

  /* ---------------------------------------------------------------------- */
  /* Lookup over the lines of the file                                       */
  /* ---------------------------------------------------------------------- */

  /** `explode(PHP_EOL, trim($content))`, with `PHP_EOL` = "\n". */
  function Lines(content: string): seq<string> {
    Split(Trim(content), '\n')
  }

  /** A line `findByEmail` accepts for `email`: not `empty`, parses, and holds
      exactly that email (case-sensitive). */
  predicate Matches(line: string, email: string, parseDate: string -> Option<DateTime>) {
    !IsEmptyString(line) &&
    var user := ParseRecord(line, parseDate);
    user.Some? && user.value.email == email
  }

  /** The user of the first matching line, if any. */
  function Lookup(lines: seq<string>, email: string, parseDate: string -> Option<DateTime>): (r: Option<User>)
    ensures r.Some? ==> r.value.email == email
  {
    if lines == [] then None
    else if Matches(lines[0], email, parseDate) then ParseRecord(lines[0], parseDate)
    else Lookup(lines[1..], email, parseDate)
  }

  /** The lookup finds nothing exactly when no line matches. */
  lemma {:induction false} LookupNone(lines: seq<string>, email: string, parseDate: string -> Option<DateTime>)
    ensures Lookup(lines, email, parseDate).None? <==>
            forall i :: 0 <= i < |lines| ==> !Matches(lines[i], email, parseDate)
  {
    if lines != [] {
      LookupNone(lines[1..], email, parseDate);
      if !Matches(lines[0], email, parseDate) {
        forall i | 0 <= i < |lines| && Matches(lines[i], email, parseDate)
          ensures 0 <= i - 1 < |lines[1..]| && Matches(lines[1..][i - 1], email, parseDate)
        {
          assert i != 0;
        }
      }
    }
  }

  /** Otherwise it returns the user of the first matching line; later lines,
      blank lines and lines that do not parse are never consulted. */
  lemma {:induction false} LookupFirst(lines: seq<string>, email: string, parseDate: string -> Option<DateTime>, i: nat)
    requires i < |lines| && Matches(lines[i], email, parseDate)
    requires forall j :: 0 <= j < i ==> !Matches(lines[j], email, parseDate)
    ensures Lookup(lines, email, parseDate) == ParseRecord(lines[i], parseDate)
  {
    if i > 0 {
      LookupFirst(lines[1..], email, parseDate, i - 1);
    }
  }

  /* ---------------------------------------------------------------------- */
  /* The store, as functions of the file                                     */
  /* ---------------------------------------------------------------------- */

  /** What a `save` returns and what the file is afterwards. */
  datatype Saved = Saved(outcome: Outcome, file: File)

  /** `save`: `fopen(.., 'a')` (creates the file), `flock`, append the record and
      `PHP_EOL`. Both failures are re-thrown as "Failed to save user: ...". */
  function SaveEffect(file: File, u: User, path: string, openFails: bool, lockFails: bool): (s: Saved)
    ensures s.outcome.Pass? <==> !openFails && !lockFails
    ensures s.outcome.Pass? ==> s.file == Present(ContentOf(file) + CreateRecord(u) + "\n")
    ensures s.outcome.Fail? ==> ContentOf(s.file) == ContentOf(file) && s.outcome.error.StorageError?
    ensures s.outcome.Fail? ==> "Failed to save user: " <= s.outcome.error.message
  {
    if openFails then
      Saved(Fail(StorageError("Failed to save user: Cannot open file for writing: " + path)), file)
    else if lockFails then
      Saved(Fail(StorageError("Failed to save user: Cannot acquire file lock for writing")), Present(ContentOf(file)))
    else
      Saved(Pass, Present(ContentOf(file) + CreateRecord(u) + "\n"))
  }

  /** `findByEmail`: a missing file finds nothing; an unreadable one throws
      "Failed to find user: Cannot read file: ..."; otherwise the first match. */
  function FindResult(file: File, email: string, path: string, readFails: bool,
                      parseDate: string -> Option<DateTime>): (r: Result<Option<User>>)
    ensures file.Absent? ==> r == Success(None)
    ensures r.Failure? <==> file.Present? && readFails
    ensures r.Failure? ==> r.error.StorageError? && "Failed to find user: " <= r.error.message
    ensures r.Success? && r.value.Some? ==> r.value.value.email == email
  {
    match file
    case Absent => Success(None)
    case Present(content) =>
      if readFails then Failure(StorageError("Failed to find user: Cannot read file: " + path))
      else Success(Lookup(Lines(content), email, parseDate))
  }

  /** `existsByEmail`: `findByEmail(..) !== null`, its errors passed on. */
  function ExistsResult(file: File, email: string, path: string, readFails: bool,
                        parseDate: string -> Option<DateTime>): (r: Result<bool>)
    ensures r.Failure? <==> file.Present? && readFails
    ensures r.Success? ==>
      (r.value <==> (file.Present? &&
                     exists i :: 0 <= i < |Lines(file.content)| && Matches(Lines(file.content)[i], email, parseDate)))
  {
    match FindResult(file, email, path, readFails, parseDate)
    case Failure(e) => Failure(e)
    case Success(found) =>
      if file.Present? then
        LookupNone(Lines(file.content), email, parseDate);
        Success(found.Some?)
      else Success(false)
  }

  /* ---------------------------------------------------------------------- */
  /* The store object                                                        */
  /* ---------------------------------------------------------------------- */

  class FileUserRepository {
    const dataDirectory: string
    /** `new DateTimeImmutable($s)`: `None` when it throws. */
    const parseDate: string -> Option<DateTime>
    /** `users.txt` in the data directory. */
    var file: File

    constructor (dataDirectory: string, parseDate: string -> Option<DateTime>, file: File)
      ensures this.dataDirectory == dataDirectory && this.parseDate == parseDate && this.file == file
    {
      this.dataDirectory := dataDirectory;
      this.parseDate := parseDate;
      this.file := file;
    }

    function FilePath(): string {
      dataDirectory + "/" + FileName
    }

    method Save(user: User, openFails: bool, lockFails: bool) returns (r: Outcome)
      modifies this
      ensures r == SaveEffect(old(file), user, FilePath(), openFails, lockFails).outcome
      ensures file == SaveEffect(old(file), user, FilePath(), openFails, lockFails).file
    {
      var record := CreateRecord(user);
      if openFails {
        return Fail(StorageError("Failed to save user: Cannot open file for writing: " + FilePath()));
      }
      file := Present(ContentOf(file));
      if lockFails {
        return Fail(StorageError("Failed to save user: Cannot acquire file lock for writing"));
      }
      file := Present(file.content + record + "\n");
      return Pass;
    }

    method FindByEmail(email: string, readFails: bool) returns (r: Result<Option<User>>)
      ensures r == FindResult(file, email, FilePath(), readFails, parseDate)
    {
      if file.Absent? {
        return Success(None);
      }
      if readFails {
        return Failure(StorageError("Failed to find user: Cannot read file: " + FilePath()));
      }
      var lines := Lines(file.content);
      for i := 0 to |lines|
        invariant forall j :: 0 <= j < i ==> !Matches(lines[j], email, parseDate)
      {
        if !IsEmptyString(lines[i]) {
          var user := ParseRecord(lines[i], parseDate);
          if user.Some? && user.value.email == email {
            LookupFirst(lines, email, parseDate, i);
            return Success(user);
          }
        }
      }
      LookupNone(lines, email, parseDate);
      return Success(None);
    }

    method ExistsByEmail(email: string, readFails: bool) returns (r: Result<bool>)
      ensures r == ExistsResult(file, email, FilePath(), readFails, parseDate)
    {
      var found := FindByEmail(email, readFails);
      if found.Failure? {
        return Failure(found.error);
      }
      return Success(found.value.Some?);
    }
  }

  /* ---------------------------------------------------------------------- */
  /* What a save makes visible                                               */
  /* ---------------------------------------------------------------------- */

  /** The three free-text fields stay on one line, and the name does not start
      with a character `trim` would strip (a name that went through `trim` never does). */
  predicate SingleLine(u: User) {
    '\n' !in u.name && '\n' !in u.email && '\n' !in u.hashedPassword &&
    (u.name == [] || !IsTrimChar(u.name[0]))
  }

  lemma RecordIsOneLine(u: User)
    requires SingleLine(u)
    ensures var rec := CreateRecord(u);
      rec != [] && '\n' !in rec && !IsTrimChar(rec[0]) && !IsTrimChar(rec[|rec| - 1])
  {
    var n, e, h, f := Escape(u.name), Escape(u.email), Escape(u.hashedPassword), Escape(Format(u.registeredAt));
    RecordShape(u);
    EscapeKeeps(u.name, '\n');
    EscapeKeeps(u.email, '\n');
    EscapeKeeps(u.hashedPassword, '\n');
    FormatHasNo(u.registeredAt, '\n');
    FormatHasNo(u.registeredAt, Separator);
    EscapeIdentity(Format(u.registeredAt));
    var rec := CreateRecord(u);
    assert rec == (n + [Separator] + e + [Separator] + h + [Separator]) + f;
    assert rec[|rec| - 1] == f[|f| - 1];
    if u.name != [] {
      assert n[0] == (if u.name[0] == Separator then '\\' else u.name[0]);
      assert rec[0] == n[0];
    }
  }

  lemma TrimRightDropsBreak(body: string)
    requires body != [] && !IsTrimChar(body[|body| - 1])
    ensures TrimRight(body + "\n") == body
  {
    var x := body + "\n";
    assert x[..|x| - 1] == body;
  }

  lemma TrimLeftAppended(content: string, tail: string)
    requires tail != [] && !IsTrimChar(tail[0])
    ensures TrimLeft(content + tail) == TrimLeft(content) + tail
  {
    TrimLeftConcat(content, tail);
    if TrimLeft(content) == [] {
      assert TrimLeft(tail) == tail;
    }
  }

  /** `trim` of a file that ends in a line break, extended by a one-line record
      and a line break, keeps the record whole at its end. */
  lemma TrimAppended(content: string, rec: string)
    requires EndsWithLineBreak(content)
    requires rec != [] && !IsTrimChar(rec[0]) && !IsTrimChar(rec[|rec| - 1])
    ensures Trim(content + rec + "\n") == TrimLeft(content) + rec
    ensures EndsWithLineBreak(TrimLeft(content))
  {
    var tail := rec + "\n";
    var t := TrimLeft(content);
    assert content + rec + "\n" == content + tail;
    TrimLeftAppended(content, tail);
    assert TrimLeft(content + tail) == (t + rec) + "\n";
    TrimRightDropsBreak(t + rec);
    TrimLeftKeepsBreak(content);
  }

  lemma TrimLeftKeepsBreak(content: string)
    requires EndsWithLineBreak(content)
    ensures EndsWithLineBreak(TrimLeft(content))
  {
    var t := TrimLeft(content);
    if t != [] {
      TrimLeftSuffix(content);
      assert t[|t| - 1] == content[|content| - 1];
    }
  }

  /** Appending a one-line record and a line break to a file that ends in a
      line break makes the record the last line `findByEmail` reads. */
  lemma AppendedRecordIsLastLine(content: string, rec: string)
    requires EndsWithLineBreak(content)
    requires rec != [] && '\n' !in rec && !IsTrimChar(rec[0]) && !IsTrimChar(rec[|rec| - 1])
    ensures var lines := Lines(content + rec + "\n"); lines[|lines| - 1] == rec
  {
    TrimAppended(content, rec);
    LastPiece(TrimLeft(content), rec);
  }

  /** After a successful save of a user whose fields hold neither `|` nor a line
      break, into a file that ends in a line break, `findByEmail` of that email
      finds a user. */
  lemma SavedUserIsFound(file: File, u: User, path: string, parseDate: string -> Option<DateTime>)
    requires EndsWithLineBreak(ContentOf(file))
    requires SeparatorFree(u) && SingleLine(u)
    requires parseDate(Format(u.registeredAt)).Some?
    ensures var after := SaveEffect(file, u, path, false, false).file;
      FindResult(after, u.email, path, false, parseDate).value.Some?
  {
    var rec := CreateRecord(u);
    RecordIsOneLine(u);
    RecordRoundTrip(u, parseDate);
    RecordSeparators(u);
    AppendedRecordIsLastLine(ContentOf(file), rec);
    var lines := Lines(ContentOf(file) + rec + "\n");
    assert Matches(lines[|lines| - 1], u.email, parseDate);
    LookupNone(lines, u.email, parseDate);
  }

  /** The failure the escaping does not prevent: saved into an empty file, a
      user with `|` in any field cannot be found again. */
  lemma SeparatorHidesRecord(u: User, path: string, parseDate: string -> Option<DateTime>)
    requires !SeparatorFree(u) && SingleLine(u)
    ensures var after := SaveEffect(Present(""), u, path, false, false).file;
      FindResult(after, u.email, path, false, parseDate) == Success(None)
  {
    var rec := CreateRecord(u);
    RecordIsOneLine(u);
    RecordRoundTrip(u, parseDate);
    TrimAppended("", rec);
    SplitNoDelimiter(rec, '\n');
    var lines := Lines("" + rec + "\n");
    assert "" + rec == rec;
    assert lines == [rec];
    LookupNone(lines, u.email, parseDate);
  }
}
