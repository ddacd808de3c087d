/** The registration transaction (src/Service/UserRegistrationService.php):
    validate, refuse a known email, hash, build the `User`, save it, then send the
    welcome and the admin notification inside one `try` that swallows their
    failures. The password hasher is the parameter `hash` (`None` when
    `password_hash` fails), the clock is the parameter `now`, and the faults of
    the file system and of the notifier are the fields of `Faults`. */
module Registration {
  import opened Outcomes
  import opened Php
  import opened Entity
  import opened Validation
  import opened Repository
  import opened Notification

  /** Which of the effectful calls fail during one registration. */
  datatype Faults = Faults(readFails: bool, openFails: bool, lockFails: bool,
                           welcomeThrows: bool, adminThrows: bool)

  const NoFaults: Faults := Faults(false, false, false, false, false)

  /** What `registerUser` returns or throws, the file afterwards, and the
      notifications it asked for. */
  datatype Registration = Registration(result: Result<User>, file: File, notices: seq<Notice>)

  /** The notifications of a saved user: welcome first; the admin notification
      only when the welcome did not throw, as both share one `try`. */
  function NoticesFor(u: User, welcomeThrows: bool): (ns: seq<Notice>)
    ensures |ns| >= 1 && ns[0] == Welcome(u)
    ensures AdminAlert(u) in ns <==> !welcomeThrows
    ensures forall n :: n in ns ==> n.user == u
  {
    [Welcome(u)] + (if welcomeThrows then [] else [AdminAlert(u)])
  }

  function DuplicateMessage(email: string): string {
    "User with email " + email + " already exists"
  }

  /** `registerUser` on a store holding `file`; `RegisterContract` states what it promises. */
  function Register(file: File, data: map<string, string>, isEmail: string -> bool,
                    hash: string -> Option<string>, parseDate: string -> Option<DateTime>,
                    path: string, now: DateTime, faults: Faults): Registration
  {
    var checked := ValidationOutcome(data, isEmail);
    if checked.Fail? then Registration(Failure(checked.error), file, [])
    else Admit(file, data, isEmail, hash, parseDate, path, now, faults)
  }

  /** The steps after a successful validation: the duplicate check and the hash. */
  function Admit(file: File, data: map<string, string>, isEmail: string -> bool,
                 hash: string -> Option<string>, parseDate: string -> Option<DateTime>,
                 path: string, now: DateTime, faults: Faults): Registration
    requires "name" in data && "email" in data && "password" in data
  {
    var email := data["email"];
    match ExistsResult(file, email, path, faults.readFails, parseDate)
    case Failure(e) => Registration(Failure(e), file, [])
    case Success(known) =>
      if known then Registration(Failure(UserAlreadyExists(DuplicateMessage(email))), file, [])
      else
        match hash(data["password"])
        case None => Registration(Failure(HashingError("Failed to hash password")), file, [])
        case Some(h) => Persist(file, User(Trim(data["name"]), email, h, now), path, faults)
  }

  /** The steps from `save` on: store the user, then notify. */
  function Persist(file: File, u: User, path: string, faults: Faults): Registration {
    var saved := SaveEffect(file, u, path, faults.openFails, faults.lockFails);
    if saved.outcome.Fail? then Registration(Failure(saved.outcome.error), saved.file, [])
    else Registration(Success(u), saved.file, NoticesFor(u, faults.welcomeThrows))
  }

  /** From `save` on: a failed save reports its storage error and notifies
      nobody; otherwise the user is returned, its record appended and announced. */
  lemma PersistContract(file: File, u: User, path: string, faults: Faults)
    ensures var reg := Persist(file, u, path, faults);
      (reg.result.Success? <==> !faults.openFails && !faults.lockFails) &&
      (reg.result.Failure? ==>
         reg.result.error.StorageError? && reg.notices == [] && ContentOf(reg.file) == ContentOf(file)) &&
      (reg.result.Success? ==>
         reg.result == Success(u) && reg.file == Present(ContentOf(file) + CreateRecord(u) + "\n") &&
         reg.notices == NoticesFor(u, faults.welcomeThrows))
  {
  }

  /** After validation: a known email or a failed lookup or hash changes nothing. */
  lemma AdmitContract(file: File, data: map<string, string>, isEmail: string -> bool,
                         hash: string -> Option<string>, parseDate: string -> Option<DateTime>,
                         path: string, now: DateTime, faults: Faults)
    requires "name" in data && "email" in data && "password" in data
    ensures var reg := Admit(file, data, isEmail, hash, parseDate, path, now, faults);
      (reg.result.Success? <==>
         ExistsResult(file, data["email"], path, faults.readFails, parseDate) == Success(false) &&
         hash(data["password"]).Some? && !faults.openFails && !faults.lockFails) &&
      (reg.result.Failure? ==>
         reg.notices == [] && ContentOf(reg.file) == ContentOf(file) &&
         (!reg.result.error.StorageError? ==> reg.file == file)) &&
      (reg.result.Success? ==>
         reg.result.value == User(Trim(data["name"]), data["email"], hash(data["password"]).value, now) &&
         reg.file == Present(ContentOf(file) + CreateRecord(reg.result.value) + "\n") &&
         reg.notices == NoticesFor(reg.result.value, faults.welcomeThrows))
  {
    var email := data["email"];
    if ExistsResult(file, email, path, faults.readFails, parseDate) == Success(false) && hash(data["password"]).Some? {
      PersistContract(file, User(Trim(data["name"]), email, hash(data["password"]).value, now), path, faults);
    }
  }

  /** What `registerUser` promises: a validation failure propagates before
      anything is looked up or written; no failure notifies anyone or changes the
      content, and only a failed save can have created the file; success exactly
      when every step succeeds, with the returned user the one whose record was
      appended and announced. */
  lemma RegisterContract(file: File, data: map<string, string>, isEmail: string -> bool,
                         hash: string -> Option<string>, parseDate: string -> Option<DateTime>,
                         path: string, now: DateTime, faults: Faults)
    ensures ValidationOutcome(data, isEmail).Fail? ==>
            Register(file, data, isEmail, hash, parseDate, path, now, faults) == Registration(Failure(ValidationOutcome(data, isEmail).error), file, [])
    ensures var reg := Register(file, data, isEmail, hash, parseDate, path, now, faults);
      reg.result.Failure? ==>
        reg.notices == [] && ContentOf(reg.file) == ContentOf(file) &&
        (!reg.result.error.StorageError? ==> reg.file == file)
    ensures Register(file, data, isEmail, hash, parseDate, path, now, faults).result.Success? <==>
            Acceptable(data, isEmail) &&
            ExistsResult(file, data["email"], path, faults.readFails, parseDate) == Success(false) &&
            hash(data["password"]).Some? && !faults.openFails && !faults.lockFails
    ensures var reg := Register(file, data, isEmail, hash, parseDate, path, now, faults);
      reg.result.Success? ==>
        reg.result.value == User(Trim(data["name"]), data["email"], hash(data["password"]).value, now) &&
        reg.file == Present(ContentOf(file) + CreateRecord(reg.result.value) + "\n") &&
        reg.notices == NoticesFor(reg.result.value, faults.welcomeThrows)
  {
    if ValidationOutcome(data, isEmail).Pass? {
      AdmitContract(file, data, isEmail, hash, parseDate, path, now, faults);
      assert Register(file, data, isEmail, hash, parseDate, path, now, faults) == Admit(file, data, isEmail, hash, parseDate, path, now, faults);
    }
  }

  class UserRegistrationService {
    const repository: FileUserRepository
    const notifier: NotificationPort
    /** `filter_var($email, FILTER_VALIDATE_EMAIL)`. */
    const isEmail: string -> bool
    /** `PasswordHashingService::hash`; `None` when it throws. */
    const hash: string -> Option<string>

    constructor (repository: FileUserRepository, notifier: NotificationPort,
                 isEmail: string -> bool, hash: string -> Option<string>)
      ensures this.repository == repository && this.notifier == notifier
      ensures this.isEmail == isEmail && this.hash == hash
    {
      this.repository := repository;
      this.notifier := notifier;
      this.isEmail := isEmail;
      this.hash := hash;
    }

    /** `registerUser`. */
    method RegisterUser(data: map<string, string>, now: DateTime, faults: Faults) returns (r: Result<User>)
      modifies repository, notifier
      ensures var reg := Register(old(repository.file), data, isEmail, hash, repository.parseDate,
                                  repository.FilePath(), now, faults);
        r == reg.result && repository.file == reg.file &&
        notifier.requested == old(notifier.requested) + reg.notices
    {
      ghost var file := repository.file;
      ghost var path := repository.FilePath();
      ghost var parseDate := repository.parseDate;
      var checked := Validate(data, isEmail);
      if checked.Fail? {
        return Failure(checked.error);
      }
      var email := data["email"];
      assert Register(file, data, isEmail, hash, parseDate, path, now, faults) ==
             Admit(file, data, isEmail, hash, parseDate, path, now, faults);
      var known := repository.ExistsByEmail(email, faults.readFails);
      if known.Failure? {
        return Failure(known.error);
      }
      if known.value {
        return Failure(UserAlreadyExists(DuplicateMessage(email)));
      }
      var hashed := hash(data["password"]);
      if hashed.None? {
        return Failure(HashingError("Failed to hash password"));
      }
      var user := User(Trim(data["name"]), email, hashed.value, now);
      assert Admit(file, data, isEmail, hash, parseDate, path, now, faults) == Persist(file, user, path, faults);
      r := SaveAndNotify(user, faults);
    }

    /** Steps 5 and 6 of `registerUser`: save the user, then send the welcome and
        the admin notification in one `try` whose failures are swallowed. */
    method SaveAndNotify(user: User, faults: Faults) returns (r: Result<User>)
      modifies repository, notifier
      ensures var reg := Persist(old(repository.file), user, repository.FilePath(), faults);
        r == reg.result && repository.file == reg.file &&
        notifier.requested == old(notifier.requested) + reg.notices
    {
      var saved := repository.Save(user, faults.openFails, faults.lockFails);
      if saved.Fail? {
        return Failure(saved.error);
      }
      var welcomed := notifier.SendWelcomeNotification(user, faults.welcomeThrows);
      if welcomed {
        var _ := notifier.SendAdminNotification(user, faults.adminThrows);
      }
      return Success(user);
    }

    /** `userExists`: the repository's `existsByEmail`. */
    method UserExists(email: string, readFails: bool) returns (r: Result<bool>)
      ensures r == ExistsResult(repository.file, email, repository.FilePath(), readFails, repository.parseDate)
    {
      r := repository.ExistsByEmail(email, readFails);
    }
  }

  /* ---------------------------------------------------------------------- */
  /* Properties of the transaction                                           */
  /* ---------------------------------------------------------------------- */

  /** Notification failures never reach the caller: the result and the file are
      those of a run in which both notifications succeed. */
  lemma NotificationFailuresSwallowed(file: File, data: map<string, string>, isEmail: string -> bool,
                                      hash: string -> Option<string>, parseDate: string -> Option<DateTime>,
                                      path: string, now: DateTime, faults: Faults)
    ensures var quiet := faults.(welcomeThrows := false, adminThrows := false);
      var reg := Register(file, data, isEmail, hash, parseDate, path, now, faults);
      var calm := Register(file, data, isEmail, hash, parseDate, path, now, quiet);
      reg.result == calm.result && reg.file == calm.file
  {
    if ValidationOutcome(data, isEmail).Pass? {
      AdmitSwallows(file, data, isEmail, hash, parseDate, path, now, faults);
    }
  }

  lemma AdmitSwallows(file: File, data: map<string, string>, isEmail: string -> bool,
                                      hash: string -> Option<string>, parseDate: string -> Option<DateTime>,
                                      path: string, now: DateTime, faults: Faults)
    requires "name" in data && "email" in data && "password" in data
    ensures var quiet := faults.(welcomeThrows := false, adminThrows := false);
      var reg := Admit(file, data, isEmail, hash, parseDate, path, now, faults);
      var calm := Admit(file, data, isEmail, hash, parseDate, path, now, quiet);
      reg.result == calm.result && reg.file == calm.file
  {
    var email := data["email"];
    if ExistsResult(file, email, path, faults.readFails, parseDate) == Success(false) && hash(data["password"]).Some? {
      PersistSwallows(file, User(Trim(data["name"]), email, hash(data["password"]).value, now), path, faults);
    }
  }

  lemma PersistSwallows(file: File, u: User, path: string, faults: Faults)
    ensures var quiet := faults.(welcomeThrows := false, adminThrows := false);
      Persist(file, u, path, faults).result == Persist(file, u, path, quiet).result &&
      Persist(file, u, path, faults).file == Persist(file, u, path, quiet).file
  {
  }

  /** A known email is refused with `UserAlreadyExistsException`, and `save` is
      never reached. */
  lemma DuplicateRefused(file: File, data: map<string, string>, isEmail: string -> bool,
                         hash: string -> Option<string>, parseDate: string -> Option<DateTime>,
                         path: string, now: DateTime, faults: Faults)
    requires ValidationOutcome(data, isEmail).Pass?
    requires ExistsResult(file, data["email"], path, faults.readFails, parseDate) == Success(true)
    ensures Register(file, data, isEmail, hash, parseDate, path, now, faults) ==
            Registration(Failure(UserAlreadyExists(DuplicateMessage(data["email"]))), file, [])
  {
  }

  /** A user that went through registration keeps to one line: the trimmed name
      passed the name rule, so it has no line break and starts with no blank. */
  lemma RegisteredUserIsSingleLine(data: map<string, string>, isEmail: string -> bool, u: User)
    requires Acceptable(data, isEmail)
    requires u.name == Trim(data["name"])
    requires '\n' !in u.email && '\n' !in u.hashedPassword
    ensures SingleLine(u)
  {
    assert forall i :: 0 <= i < |u.name| ==> !IsForbiddenNameChar(u.name[i]);
  }

  /** Sequential uniqueness: once a registration has succeeded on a file the
      store has only appended to, a second registration with the same email is
      refused and writes nothing, provided no field of the first user holds the
      separator or a line break and its timestamp parses back. */
  lemma SecondRegistrationRefused(file: File, data1: map<string, string>, data2: map<string, string>,
                                  isEmail: string -> bool, hash: string -> Option<string>,
                                  parseDate: string -> Option<DateTime>, path: string,
                                  now1: DateTime, now2: DateTime, faults1: Faults, faults2: Faults)
    requires EndsWithLineBreak(ContentOf(file))
    requires var first := Register(file, data1, isEmail, hash, parseDate, path, now1, faults1);
      first.result.Success? &&
      SeparatorFree(first.result.value) &&
      '\n' !in first.result.value.email && '\n' !in first.result.value.hashedPassword &&
      parseDate(Format(now1)).Some?
    requires "email" in data1 && "email" in data2 && data2["email"] == data1["email"]
    requires !faults2.readFails
    ensures var first := Register(file, data1, isEmail, hash, parseDate, path, now1, faults1);
      var second := Register(first.file, data2, isEmail, hash, parseDate, path, now2, faults2);
      second.result.Failure? && second.file == first.file &&
      (ValidationOutcome(data2, isEmail).Pass? ==>
         second.result.error == UserAlreadyExists(DuplicateMessage(data1["email"])))
  {
    var first := Register(file, data1, isEmail, hash, parseDate, path, now1, faults1);
    RegisterContract(file, data1, isEmail, hash, parseDate, path, now1, faults1);
    var u := first.result.value;
    RegisteredUserIsSingleLine(data1, isEmail, u);
    SavedUserIsFound(file, u, path, parseDate);
    assert first.file == SaveEffect(file, u, path, false, false).file;
    assert ExistsResult(first.file, data2["email"], path, faults2.readFails, parseDate) == Success(true);
    if ValidationOutcome(data2, isEmail).Pass? {
      DuplicateRefused(first.file, data2, isEmail, hash, parseDate, path, now2, faults2);
    } else {
      RegisterContract(first.file, data2, isEmail, hash, parseDate, path, now2, faults2);
    }
  }

  /** The duplicate the escaping lets through: data the validator accepts whose
      trimmed name holds `|` registers twice on a new file. */
  lemma SeparatorInNameRegistersTwice(data: map<string, string>, isEmail: string -> bool,
                                      hash: string -> Option<string>, parseDate: string -> Option<DateTime>,
                                      path: string, now1: DateTime, now2: DateTime)
    requires ValidationOutcome(data, isEmail).Pass?
    requires Separator in Trim(data["name"]) && '\n' !in data["email"]
    requires hash(data["password"]).Some? && '\n' !in hash(data["password"]).value
    ensures var first := Register(Present(""), data, isEmail, hash, parseDate, path, now1, NoFaults);
      var second := Register(first.file, data, isEmail, hash, parseDate, path, now2, NoFaults);
      first.result.Success? && second.result.Success? &&
      second.result.value.email == first.result.value.email
  {
    EmptyFileKnowsNobody(data["email"], path, parseDate);
    var first := Register(Present(""), data, isEmail, hash, parseDate, path, now1, NoFaults);
    var u := first.result.value;
    RegisteredUserIsSingleLine(data, isEmail, u);
    SeparatorHidesRecord(u, path, parseDate);
  }

  lemma EmptyFileKnowsNobody(email: string, path: string, parseDate: string -> Option<DateTime>)
    ensures ExistsResult(Present(""), email, path, false, parseDate) == Success(false)
  {
    assert Lines("") == [""] by {
      assert Trim("") == "";
    }
  }

  /** Such data exists: the test suite's own password with the name `John|Doe`. */
  lemma JohnPipeDoeIsAccepted(data: map<string, string>, isEmail: string -> bool)
    requires data == map["name" := "John|Doe", "email" := "john@example.com", "password" := "SecurePass123"]
    requires isEmail("john@example.com")
    ensures ValidationOutcome(data, isEmail).Pass? && Separator in Trim(data["name"])
  {
    assert data["name"] == "John|Doe" && data["email"] == "john@example.com" && data["password"] == "SecurePass123";
    TestPasswordIsStrong();
    SeparatorPassesNameCheck();
    assert "John|Doe"[4] == Separator;
    assert StrongPassword(data["password"]);
    assert WellFormedName(Trim(data["name"]));
    NotEmpty(data["name"]);
    NotEmpty(data["email"]);
    NotEmpty(data["password"]);
    assert Acceptable(data, isEmail);
  }

  lemma NotEmpty(s: string)
    requires |s| >= 2
    ensures !IsEmptyString(s)
  {
  }
}
