/** The contact-form endpoint: a fixed chain of guards over the request and
    the server's mail configuration that ends either in an error response or
    in exactly one attempt to send a mail, whose outcome decides the reply. */
module Contact {
  datatype Option<T> = None | Some(value: T)

  /** JavaScript truthiness of a request field or environment variable:
      present and not the empty string. */
  predicate Truthy(v: Option<string>)
  {
    v.Some? && v.value != ""
  }

  /** `a || b` on optional strings. */
  function Or(a: Option<string>, b: Option<string>): (r: Option<string>)
    ensures Truthy(r) <==> Truthy(a) || Truthy(b)
    ensures Truthy(a) ==> r == a
    ensures !Truthy(a) ==> r == b
  {
    if Truthy(a) then a else b
  }

  // ---------------------------------------------------------------------
  // The e-mail pattern ^[^\s@]+@[^\s@]+\.[^\s@]+$

  /** The characters JavaScript's \s matches. */
  predicate IsSpace(c: char)
  {
    var n := c as int;
    (9 <= n <= 13) || n == 32 || n == 0xA0 || n == 0x1680 || (0x2000 <= n <= 0x200A) ||
    n == 0x2028 || n == 0x2029 || n == 0x202F || n == 0x205F || n == 0x3000 || n == 0xFEFF
  }

  /** A run matched by [^\s@]+: non-empty, without '@' and without white space. */
  predicate Plain(x: string)
  {
    |x| > 0 && forall k :: 0 <= k < |x| ==> x[k] != '@' && !IsSpace(x[k])
  }

  /** emailRegex.test(s): the whole string splits as a '@' b '.' c with
      three plain runs. */
  predicate EmailPattern(s: string)
  {
    exists i, j :: 0 <= i < j < |s| && s[i] == '@' && s[j] == '.' &&
      Plain(s[..i]) && Plain(s[i + 1..j]) && Plain(s[j + 1..])
  }

  /** Some '.' lies strictly inside the part after position i: neither right
      after it nor last. */
  ghost predicate InnerDot(s: string, i: nat)
  {
    exists j :: i + 1 < j < |s| - 1 && s[j] == '.'
  }

  /** What the pattern means: no white space, exactly one '@', not first,
      and a '.' strictly inside the domain after it. */
  ghost predicate EmailShape(s: string)
  {
    (forall k :: 0 <= k < |s| ==> !IsSpace(s[k])) &&
    exists i :: 0 < i < |s| && s[i] == '@' &&
      (forall k :: 0 <= k < |s| && s[k] == '@' ==> k == i) && InnerDot(s, i)
  }

  /** A string the pattern accepts has the shape. */
  lemma PatternHasShape(s: string)
    requires EmailPattern(s)
    ensures EmailShape(s)
  {
    var i, j :| 0 <= i < j < |s| && s[i] == '@' && s[j] == '.' &&
      Plain(s[..i]) && Plain(s[i + 1..j]) && Plain(s[j + 1..]);
    forall k | 0 <= k < |s|
      ensures !IsSpace(s[k]) && (s[k] == '@' ==> k == i)
    {
      if k < i {
        assert s[..i][k] == s[k];
      } else if i < k < j {
        assert s[i + 1..j][k - i - 1] == s[k];
      } else if j < k {
        assert s[j + 1..][k - j - 1] == s[k];
      }
    }
    assert i + 1 < j < |s| - 1 by {
      assert |s[i + 1..j]| > 0 && |s[j + 1..]| > 0;
    }
    assert InnerDot(s, i);
  }

  /** A string of that shape is accepted by the pattern. */
  lemma ShapeMatchesPattern(s: string)
    requires EmailShape(s)
    ensures EmailPattern(s)
  {
    var i :| 0 < i < |s| && s[i] == '@' &&
      (forall k :: 0 <= k < |s| && s[k] == '@' ==> k == i) && InnerDot(s, i);
    var j :| i + 1 < j < |s| - 1 && s[j] == '.';
    PlainSlice(s, 0, i);
    PlainSlice(s, i + 1, j);
    PlainSlice(s, j + 1, |s|);
    assert s[..i] == s[0..i] && s[j + 1..] == s[j + 1..|s|];
  }

  /** The pattern accepts exactly the strings of that shape. */
  lemma EmailPatternShape(s: string)
    ensures EmailPattern(s) <==> EmailShape(s)
  {
    if EmailPattern(s) {
      PatternHasShape(s);
    }
    if EmailShape(s) {
      ShapeMatchesPattern(s);
    }
  }

  /** A non-empty stretch of `s` without '@' or white space is plain. */
  lemma PlainSlice(s: string, a: nat, b: nat)
    requires a < b <= |s|
    requires forall p :: a <= p < b ==> s[p] != '@' && !IsSpace(s[p])
    ensures Plain(s[a..b])
  {
    forall k | 0 <= k < b - a
      ensures s[a..b][k] != '@' && !IsSpace(s[a..b][k])
    {
      assert s[a..b][k] == s[a + k];
    }
  }

  // ---------------------------------------------------------------------
  // The handler

  /** The parts of the request the handler looks at; a body field is absent
      or a string. */
  datatype Request = Request(
    httpMethod: string,
    name: Option<string>, email: Option<string>, message: Option<string>,
    website: Option<string>)

  /** EMAIL_USER, EMAIL_PASS and CONTACT_TO. */
  datatype Env = Env(emailUser: Option<string>, emailPass: Option<string>, contactTo: Option<string>)

  /** The JSON reply body: { message } or { error }. */
  datatype Reply = Message(text: string) | Error(text: string)

  datatype Response = Response(status: int, reply: Reply)

  /** The transport's Gmail login. */
  datatype Auth = Auth(user: string, pass: string)

  datatype Mail = Mail(from: string, to: string, replyTo: string, subject: string, text: string)

  /** What the guard chain decides: answer at once, or send one mail. */
  datatype Decision = Respond(response: Response) | Send(auth: Auth, mail: Mail)

  const SENT: Response := Response(200, Message("Email sent successfully"))
  const SEND_FAILED: Response := Response(500, Error("Failed to send email"))

  /** The recipient: CONTACT_TO, or EMAIL_USER when CONTACT_TO is falsy. */
  function Recipient(env: Env): Option<string>
  {
    Or(env.contactTo, env.emailUser)
  }

  /** The mail body, laid out as the handler's template. */
  function MailText(name: string, email: string, message: string): string
  {
    "\n        Name: " + name + "\n        Email: " + email +
    "\n        \n        Message:\n        " + message + "\n      "
  }

  /** Every check a submission must pass before a mail is sent. */
  predicate Acceptable(req: Request, env: Env)
  {
    req.httpMethod == "POST" && !Truthy(req.website) &&
    Truthy(req.name) && Truthy(req.email) && Truthy(req.message) &&
    EmailPattern(req.email.value) &&
    Truthy(env.emailUser) && Truthy(env.emailPass) &&
    Truthy(Recipient(env)) && EmailPattern(Recipient(env).value)
  }

  /** The guard chain, in its order: method, honeypot, required fields,
      sender address, credentials, recipient. */
  function Decide(req: Request, env: Env): (d: Decision)
    ensures req.httpMethod != "POST" ==> d == Respond(Response(405, Error("Method not allowed")))
    ensures req.httpMethod == "POST" && Truthy(req.website) ==> d == Respond(SENT)
    ensures d.Send? <==> Acceptable(req, env)
    ensures d.Send? ==>
      d.auth == Auth(env.emailUser.value, env.emailPass.value) &&
      d.mail.from == env.emailUser.value && d.mail.to == Recipient(env).value &&
      d.mail.replyTo == req.email.value &&
      d.mail.subject == "New Contact Form Submission from " + req.name.value &&
      d.mail.text == MailText(req.name.value, req.email.value, req.message.value)
  {
    if req.httpMethod != "POST" then Respond(Response(405, Error("Method not allowed")))
    else if Truthy(req.website) then Respond(SENT)
    else if !Truthy(req.name) || !Truthy(req.email) || !Truthy(req.message) then
      Respond(Response(400, Error("Missing required fields")))
    else if !EmailPattern(req.email.value) then Respond(Response(400, Error("Invalid email address")))
    else
      var contactTo := Recipient(env);
      if !Truthy(env.emailUser) || !Truthy(env.emailPass) then
        Respond(Response(500, Error("Server email configuration is missing")))
      else if !Truthy(contactTo) || !EmailPattern(contactTo.value) then
        Respond(Response(500, Error("Recipient email configuration is invalid")))
      else
        var name, email, message := req.name.value, req.email.value, req.message.value;
        Send(Auth(env.emailUser.value, env.emailPass.value),
             Mail(env.emailUser.value, contactTo.value, email,
                  "New Contact Form Submission from " + name, MailText(name, email, message)))
  }

  /** The whole handler, given whether the transport delivered the mail. */
  function Handle(req: Request, env: Env, delivered: bool): (r: Response)
    ensures r.status == 200 <==>
      (req.httpMethod == "POST" && Truthy(req.website)) || (Acceptable(req, env) && delivered)
    ensures Acceptable(req, env) ==> r == if delivered then SENT else SEND_FAILED
  {
    match Decide(req, env)
    case Respond(response) => response
    case Send(_, _) => if delivered then SENT else SEND_FAILED
  }

  /** A rejected method is answered before any body field or setting is
      looked at: the answer depends on the method alone. */
  lemma MethodCheckedFirst(req: Request, req': Request, env: Env, env': Env, delivered: bool, delivered': bool)
    requires req.httpMethod == req'.httpMethod && req.httpMethod != "POST"
    ensures Handle(req, env, delivered) == Handle(req', env', delivered') ==
      Response(405, Error("Method not allowed"))
  {
  }

  /** A filled honeypot is answered as a success, whatever else the request
      holds and however the server is configured, and nothing is sent. */
  lemma HoneypotSilent(req: Request, env: Env, delivered: bool)
    requires req.httpMethod == "POST" && Truthy(req.website)
    ensures Decide(req, env) == Respond(SENT) && Handle(req, env, delivered) == SENT
  {
  }

  /** The error replies, each reached exactly when the checks before it pass
      and its own fails. */
  lemma ErrorPrecedence(req: Request, env: Env, delivered: bool)
    requires req.httpMethod == "POST" && !Truthy(req.website)
    ensures !Truthy(req.name) || !Truthy(req.email) || !Truthy(req.message) ==>
      Handle(req, env, delivered) == Response(400, Error("Missing required fields"))
    ensures Truthy(req.name) && Truthy(req.email) && Truthy(req.message) && !EmailShape(req.email.value) ==>
      Handle(req, env, delivered) == Response(400, Error("Invalid email address"))
    ensures (Truthy(req.name) && Truthy(req.email) && Truthy(req.message) && EmailShape(req.email.value) &&
      (!Truthy(env.emailUser) || !Truthy(env.emailPass))) ==>
      Handle(req, env, delivered) == Response(500, Error("Server email configuration is missing"))
    ensures (Truthy(req.name) && Truthy(req.email) && Truthy(req.message) && EmailShape(req.email.value) &&
      Truthy(env.emailUser) && Truthy(env.emailPass) && !EmailShape(Recipient(env).value)) ==>
      Handle(req, env, delivered) == Response(500, Error("Recipient email configuration is invalid"))
  {
    if Truthy(req.email) {
      EmailPatternShape(req.email.value);
    }
    if Truthy(env.emailUser) {
      EmailPatternShape(Recipient(env).value);
    }
  }
}
