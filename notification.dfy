/** The e-mail notifier (src/Service/EmailNotificationService.php): the two
    mails a registration produces, the header-injection sanitising of the user's
    name, and the record `sendEmail` leaves behind (recipient, subject and a
    100-byte body preview). The abstract notification port the registration
    service talks to (src/Service/NotificationServiceInterface.php) is modelled
    here too. */
module Notification {
  import opened Php
  import opened Entity

  const AdminAddress: string := "admin@ourplatform.com"
  const PlatformName: string := "OurPlatform"
  const WelcomeSubject: string := "Welcome to OurPlatform!"
  const AdminSubject: string := "New User Registration"
  const PreviewLength: nat := 100

  /* ---------------------------------------------------------------------- */
  /* sanitizeForEmail                                                        */
  /* ---------------------------------------------------------------------- */

  /** The characters that could start a new mail header line. */
  predicate IsHeaderBreak(c: char) {
    c == '\r' || c == '\n' || c == '\t'
  }

  /** `str_replace($from, $to, $s)` for single characters. */
  function ReplaceChar(s: string, from: char, to: char): (r: string)
    ensures |r| == |s|
    ensures forall i :: 0 <= i < |s| ==> r[i] == (if s[i] == from then to else s[i])
  {
    if s == [] then []
    else [if s[0] == from then to else s[0]] + ReplaceChar(s[1..], from, to)
  }

  /** `sanitizeForEmail`: `str_replace(["\r", "\n", "\t"], ' ', $text)`, which
      replaces the three searches one after the other. */
  function Sanitize(s: string): (r: string)
    ensures |r| == |s|
    ensures forall i :: 0 <= i < |s| ==> r[i] == (if IsHeaderBreak(s[i]) then ' ' else s[i])
  {
    ReplaceChar(ReplaceChar(ReplaceChar(s, '\r', ' '), '\n', ' '), '\t', ' ')
  }

  /** No CR, LF or TAB survives sanitising. */
  lemma SanitizedHasNoBreak(s: string)
    ensures forall i :: 0 <= i < |Sanitize(s)| ==> !IsHeaderBreak(Sanitize(s)[i])
    ensures '\r' !in Sanitize(s) && '\n' !in Sanitize(s) && '\t' !in Sanitize(s)
  {
    var r := Sanitize(s);
    assert forall i :: 0 <= i < |r| ==> !IsHeaderBreak(r[i]);
  }

  /** Sanitising twice is sanitising once. */
  lemma SanitizeIdempotent(s: string)
    ensures Sanitize(Sanitize(s)) == Sanitize(s)
  {
    var r := Sanitize(s);
    var rr := Sanitize(r);
    forall i | 0 <= i < |r| ensures rr[i] == r[i] {
      assert r[i] == (if IsHeaderBreak(s[i]) then ' ' else s[i]);
    }
  }

  /** Text without CR, LF or TAB is left as it is. */
  lemma SanitizeClean(s: string)
    requires '\r' !in s && '\n' !in s && '\t' !in s
    ensures Sanitize(s) == s
  {
    var r := Sanitize(s);
    forall i | 0 <= i < |s| ensures r[i] == s[i] {
      assert s[i] in s;
    }
  }

  /* ---------------------------------------------------------------------- */
  /* The two mails                                                           */
  /* ---------------------------------------------------------------------- */

  datatype Email = Email(to: string, subject: string, body: string)

  /** The lines of `createWelcomeEmailBody`'s template, filled in. */
  function WelcomeLines(u: User): seq<string> {
    ["Hi " + Sanitize(u.name) + ",",
     "",
     "Welcome to " + PlatformName + "! We are glad to have you.",
     "",
     "Your account details:",
     "Email: " + u.email,
     "Registered: " + Format(u.registeredAt),
     "",
     "Best regards,",
     PlatformName + " Team"]
  }

  /** `createWelcomeEmailBody`. */
  function WelcomeBody(u: User): string {
    Join(WelcomeLines(u), "\n")
  }

  /** The lines of `createAdminNotificationBody`'s template, filled in. */
  function AdminLines(u: User): seq<string> {
    ["A new user has registered:",
     "",
     "Name: " + Sanitize(u.name),
     "Email: " + u.email,
     "Registration Time: " + Format(u.registeredAt)]
  }

  /** `createAdminNotificationBody`. */
  function AdminBody(u: User): string {
    Join(AdminLines(u), "\n")
  }

  /** The mail `sendWelcomeNotification` sends: to the user, under the welcome
      subject, opening with a line that holds the sanitised name and nothing else. */
  function WelcomeEmail(u: User): (m: Email)
    ensures m.to == u.email && m.subject == "Welcome to OurPlatform!"
    ensures Split(m.body, '\n')[0] == "Hi " + Sanitize(u.name) + ","
  {
    WelcomeFirstLine(u);
    Email(u.email, WelcomeSubject, WelcomeBody(u))
  }

  /** The mail `sendAdminNotification` sends: to the fixed admin address, with
      the sanitised name alone on its third line. */
  function AdminEmail(u: User): (m: Email)
    ensures m.to == "admin@ourplatform.com" && m.subject == "New User Registration"
    ensures var lines := Split(m.body, '\n'); |lines| >= 3 && lines[2] == "Name: " + Sanitize(u.name)
  {
    AdminNameLine(u);
    Email(AdminAddress, AdminSubject, AdminBody(u))
  }

  /** Whatever the name holds, it cannot open a new line of the welcome body:
      the whole first line is the greeting with the sanitised name. */
  lemma WelcomeFirstLine(u: User)
    ensures Split(WelcomeBody(u), '\n')[0] == "Hi " + Sanitize(u.name) + ","
  {
    SanitizedHasNoBreak(u.name);
    SplitJoinHead(WelcomeLines(u), '\n');
  }

  /** Likewise in the admin body: the first three lines are the header, a blank
      line and the name line, whatever the name holds. */
  lemma AdminNameLine(u: User)
    ensures var lines := Split(AdminBody(u), '\n');
      |lines| >= 3 && lines[..3] == ["A new user has registered:", "", "Name: " + Sanitize(u.name)]
  {
    var ls := AdminLines(u);
    SanitizedHasNoBreak(u.name);
    SplitJoinHead(ls, '\n');
    SplitJoinHead(ls[1..], '\n');
    SplitJoinHead(ls[1..][1..], '\n');
  }

  /* ---------------------------------------------------------------------- */
  /* sendEmail                                                               */
  /* ---------------------------------------------------------------------- */

  /** `substr($body, 0, 100) . '...'`. */
  function Preview(body: string): (p: string)
    ensures |p| == (if |body| < PreviewLength then |body| else PreviewLength) + 3
    ensures p[|p| - 3..] == "..."
    ensures |body| <= PreviewLength ==> p == body + "..."
    ensures |body| > PreviewLength ==> p[..PreviewLength] == body[..PreviewLength]
  {
    (if |body| < PreviewLength then body else body[..PreviewLength]) + "..."
  }

  /** What `sendEmail` leaves behind: the `EMAIL_SENT` log entry. */
  datatype SentEmail = SentEmail(to: string, subject: string, bodyPreview: string)

  function Record(m: Email): (s: SentEmail)
    ensures s.to == m.to && s.subject == m.subject
    ensures |s.bodyPreview| <= PreviewLength + 3
  {
    SentEmail(m.to, m.subject, Preview(m.body))
  }

  class EmailNotificationService {
    /** The `EMAIL_SENT` entries written so far, oldest first. */
    var outbox: seq<SentEmail>

    constructor ()
      ensures outbox == []
    {
      outbox := [];
    }

    method SendEmail(m: Email)
      modifies this
      ensures outbox == old(outbox) + [Record(m)]
    {
      outbox := outbox + [SentEmail(m.to, m.subject, Preview(m.body))];
    }

    /** `sendWelcomeNotification`. */
    method SendWelcomeNotification(u: User)
      modifies this
      ensures outbox == old(outbox) + [Record(WelcomeEmail(u))]
    {
      var body := WelcomeBody(u);
      SendEmail(Email(u.email, WelcomeSubject, body));
    }

    /** `sendAdminNotification`. */
    method SendAdminNotification(u: User)
      modifies this
      ensures outbox == old(outbox) + [Record(AdminEmail(u))]
    {
      var body := AdminBody(u);
      SendEmail(Email(AdminAddress, AdminSubject, body));
    }
  }

  /* ---------------------------------------------------------------------- */
  /* The notification port                                                   */
  /* ---------------------------------------------------------------------- */

  datatype Notice = Welcome(user: User) | AdminAlert(user: User)

  /** `NotificationServiceInterface` as the registration service sees it: a
      call that is recorded and may throw. `throws` is the fault of that call. */
  class NotificationPort {
    /** Every notification the service asked for, in call order. */
    var requested: seq<Notice>

    constructor ()
      ensures requested == []
    {
      requested := [];
    }

    method SendWelcomeNotification(u: User, throws: bool) returns (ok: bool)
      modifies this
      ensures ok == !throws
      ensures requested == old(requested) + [Welcome(u)]
    {
      requested := requested + [Welcome(u)];
      ok := !throws;
    }

    method SendAdminNotification(u: User, throws: bool) returns (ok: bool)
      modifies this
      ensures ok == !throws
      ensures requested == old(requested) + [AdminAlert(u)]
    {
      requested := requested + [AdminAlert(u)];
      ok := !throws;
    }
  }
}
