/**
  The account-verification e-mail of users/serializers/signup.py: the claims
  of the JSON Web Token that confirms an address, which expires three days
  after it is issued, and the message that carries it to the new user.
  Signing, template rendering and the mail transport are outside the model
  and come in as functions.
 */
module Verification {
  import opened Wrappers
  import opened Models

  /** `timedelta(days=3)`, in seconds. */
  const ThreeDays: nat := 259200
  const MicrosPerSecond: nat := 1000000

  /** The value of the token's `type` claim. */
  const ConfirmationType := "email_confirmation"
  const Template := "emails/account_verification.html"
  const Sender := "Application <noreply@app-com>"
  const HtmlType := "text/html"
  const SubjectHead := "Welcome @"
  const SubjectTail := "! Verify your account to start using this App"

  /** A claim value: the token carries strings and whole numbers only. */
  datatype Claim = Text(s: string) | Number(n: int)

  /** A token payload: claim names and values, in the order they are encoded. */
  type Claims = seq<(string, Claim)>

  /** An e-mail with a plain body and alternative renderings as (content, MIME type) pairs. */
  datatype Message = Message(subject: string, body: string, fromEmail: string, to: seq<string>, alternatives: seq<(string, string)>)

  /**
    What sending the confirmation depends on and the model does not look
    into: the project's secret key, HS256 signing of a payload with a key,
    rendering a template for a token and a user, and the mail transport,
    which either delivers a message or raises.
   */
  datatype Mailing = Mailing(
    secretKey: string,
    sign: (Claims, string) -> string,
    render: (string, string, UserRow) -> string,
    deliver: Message -> bool)

  // ---------------------------------------------------------------- the token

  /**
    `int((timezone.now() + timedelta(days=3)).timestamp())` for a clock
    reading `now`: the whole second in which the three days run out.
   */
  function ExpiryOf(now: Instant): (exp: nat)
    ensures exp * MicrosPerSecond <= now + ThreeDays * MicrosPerSecond < (exp + 1) * MicrosPerSecond
  {
    (now + ThreeDays * MicrosPerSecond) / MicrosPerSecond
  }

  /** The expiry is exactly three days of seconds after the second the token is issued in. */
  lemma ExpiryIsThreeDaysLater(now: Instant)
    ensures ExpiryOf(now) == now / MicrosPerSecond + ThreeDays
  {
    var q, r := now / MicrosPerSecond, now % MicrosPerSecond;
    assert now + ThreeDays * MicrosPerSecond == (q + ThreeDays) * MicrosPerSecond + r;
  }

  /** The payload of `gen_verification_token`. */
  function VerificationPayload(username: string, now: Instant): (c: Claims)
    ensures |c| == 3 && c[0].0 == "user" && c[1].0 == "exp" && c[2].0 == "type"
    ensures forall i, j | 0 <= i < j < |c| :: c[i].0 != c[j].0
  {
    [("user", Text(username)), ("exp", Number(ExpiryOf(now))), ("type", Text(ConfirmationType))]
  }

  /** The value of the first claim named `k`, as a decoder reads it. */
  function Lookup(c: Claims, k: string): (r: Option<Claim>)
    ensures r.Some? <==> exists i | 0 <= i < |c| :: c[i].0 == k
    ensures r.Some? ==> exists i | 0 <= i < |c| :: c[i] == (k, r.value)
  {
    if c == [] then None
    else if c[0].0 == k then Some(c[0].1)
    else
      var r := Lookup(c[1..], k);
      assert forall i | 0 <= i < |c| - 1 :: c[1..][i] == c[i + 1];
      assert r.Some? ==> (exists i | 0 <= i < |c| - 1 :: c[1..][i] == (k, r.value));
      r
  }

  /** What a verification endpoint reads back from a payload: the user it confirms and when that expires. */
  function Confirmation(c: Claims): Option<(string, int)>
  {
    match (Lookup(c, "type"), Lookup(c, "user"), Lookup(c, "exp"))
    case (Some(Text(t)), Some(Text(u)), Some(Number(e))) =>
      if t == ConfirmationType then Some((u, e)) else None
    case _ => None
  }

  /** The payload confirms exactly the user it was issued for, until three days after it was issued. */
  lemma {:induction false} PayloadConfirmsUser(username: string, now: Instant)
    ensures Confirmation(VerificationPayload(username, now)) == Some((username, now / MicrosPerSecond + ThreeDays))
  {
    var c := VerificationPayload(username, now);
    assert Lookup(c, "type") == Some(Text(ConfirmationType)) by {
      assert "user" != "type" && "exp" != "type";
      assert Lookup(c, "type") == Lookup(c[1..], "type");
      assert c[1..][1..] == [("type", Text(ConfirmationType))];
      assert Lookup(c[1..], "type") == Lookup(c[1..][1..], "type");
    }
    assert Lookup(c, "exp") == Some(Number(ExpiryOf(now))) by {
      assert c[1..] == [("exp", Number(ExpiryOf(now))), ("type", Text(ConfirmationType))];
    }
    ExpiryIsThreeDaysLater(now);
  }

  /**
    `gen_verification_token`: the payload signed with the secret key. It
    names the user and the type, and expires three days of seconds after the
    second it is issued in.
   */
  function IssueToken(username: string, now: Instant, m: Mailing): (token: string)
    ensures token == m.sign([("user", Text(username)), ("exp", Number(now / MicrosPerSecond + ThreeDays)),
                             ("type", Text(ConfirmationType))], m.secretKey)
  {
    ExpiryIsThreeDaysLater(now);
    m.sign(VerificationPayload(username, now), m.secretKey)
  }

  /** Two tokens for the same user issued within the same second are the same token. */
  lemma TokenFixedWithinSecond(username: string, t1: Instant, t2: Instant, m: Mailing)
    requires t1 / MicrosPerSecond == t2 / MicrosPerSecond
    ensures IssueToken(username, t1, m) == IssueToken(username, t2, m)
  {
  }

  // ---------------------------------------------------------------- the message

  /** The subject line greeting `username`. */
  function Subject(username: string): (s: string)
    ensures SubjectUser(s) == Some(username)
  {
    var s := SubjectHead + username + SubjectTail;
    assert s[..|SubjectHead|] == SubjectHead;
    assert s[|s| - |SubjectTail|..] == SubjectTail;
    assert s[|SubjectHead|..|s| - |SubjectTail|] == username;
    s
  }

  /** The user a subject line greets, if it has the shape of a greeting. */
  function SubjectUser(s: string): Option<string>
  {
    if |SubjectHead| + |SubjectTail| <= |s| && s[..|SubjectHead|] == SubjectHead && s[|s| - |SubjectTail|..] == SubjectTail
    then Some(s[|SubjectHead|..|s| - |SubjectTail|])
    else None
  }

  /** Only the greeting of `username` reads back as greeting `username`. */
  lemma SubjectNamesUser(username: string, s: string)
    ensures SubjectUser(s) == Some(username) ==> s == Subject(username)
  {
    if SubjectUser(s) == Some(username) {
      assert s == s[..|SubjectHead|] + s[|SubjectHead|..|s| - |SubjectTail|] + s[|s| - |SubjectTail|..];
    }
  }

  /**
    The message of `send_confirmation_email` for `user` and `token`: addressed
    to the user's e-mail alone, from the application's sender, greeting the
    user by name, with the rendered template both as the body and as its HTML
    alternative.
   */
  function ConfirmationMessage(user: UserRow, token: string, render: (string, string, UserRow) -> string): (msg: Message)
    ensures msg.to == [user.email] && msg.fromEmail == Sender
    ensures SubjectUser(msg.subject) == Some(user.username)
    ensures msg.body == render(Template, token, user) && msg.alternatives == [(msg.body, HtmlType)]
  {
    var content := render(Template, token, user);
    Message(Subject(user.username), content, Sender, [user.email], [(content, HtmlType)])
  }

  /** The message sent to `user` when the token is issued at `issuedAt`. */
  function ConfirmationFor(user: UserRow, issuedAt: Instant, m: Mailing): (msg: Message)
    ensures msg.to == [user.email] && msg.fromEmail == Sender && SubjectUser(msg.subject) == Some(user.username)
    ensures msg.body == m.render(Template, IssueToken(user.username, issuedAt, m), user)
  {
    ConfirmationMessage(user, IssueToken(user.username, issuedAt, m), m.render)
  }

  /** The mail transport, with the messages it has delivered so far. */
  class Mailer {
    var outbox: seq<Message>

    constructor ()
      ensures outbox == []
    {
      outbox := [];
    }

    /** `msg.send()`: a delivered message joins the outbox; a refused one raises and leaves it as it was. */
    method Send(msg: Message, deliver: Message -> bool) returns (ok: bool)
      modifies this
      ensures ok == deliver(msg)
      ensures outbox == if ok then old(outbox) + [msg] else old(outbox)
    {
      ok := deliver(msg);
      if ok {
        outbox := outbox + [msg];
      }
    }

    /** `send_confirmation_email(user)`, issuing the token at `issuedAt`. */
    method SendConfirmation(user: UserRow, issuedAt: Instant, m: Mailing) returns (ok: bool)
      modifies this
      ensures ok == m.deliver(ConfirmationFor(user, issuedAt, m))
      ensures outbox == if ok then old(outbox) + [ConfirmationFor(user, issuedAt, m)] else old(outbox)
    {
      var token := IssueToken(user.username, issuedAt, m);
      var subject := Subject(user.username);
      var content := m.render(Template, token, user);
      var msg := Message(subject, content, Sender, [user.email], []);
      msg := msg.(alternatives := msg.alternatives + [(content, HtmlType)]);
      assert msg == ConfirmationFor(user, issuedAt, m);
      ok := Send(msg, m.deliver);
    }
  }
}
