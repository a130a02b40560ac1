/** Runs of the JavaScript server's handlers from a fresh state: anonymous
    sockets may chat, a verified token renames the socket's entry and with it
    the history, a rejected token leaves the socket open, and the REST
    handlers stop at their guards. */
module DistScenarios {
  import opened Wrappers
  import opened Text
  import opened Validation
  import opened Http
  import opened DistChat

  /** The token check used below: "tok" carries Ann's claims, nothing else
      verifies. */
  function AnnOnly(token: string): Option<Claims> {
    if token == "tok" then Some(Claims("u1", "Ann")) else None
  }

  /** A socket that never authenticated is 'anonym' and its message is
      logged and broadcast under that name. */
  method AnonymousSend() returns (s: ChatState, c: ConnId, out: seq<Emit>)
    ensures fresh(s) && s.Valid() && |s.messages| == 2
    ensures c in s.users && fresh(s.users[c]) && s.messages[1] == Message("hi", "m1", s.users[c])
    ensures s.messages[0].user.View() == UserView("w", WelcomeAuthor) && s.messages[0].user != s.users[c]
    ensures out == [ToAll(NewMessageSent(MessageView("hi", "m1", UserView("a1", Anonymous))))]
  {
    s := new ChatState("w");
    var init;
    c, init := s.Connect("a1");
    TrimOfTrimmed("hi");
    var item := Message("hi", "m1", s.users[c]);
    var before := s.messages;
    MessageLog.AppendEvictsOldest(before, item);
    out := s.ClientMessageSent(c, "hi", "m1");
    assert CheckMessage("hi").Accepted?;
    assert s.messages == before + [item];
  }

  /** Then a good token: the message now shows the token's id and name, and
      the welcome entry is untouched. */
  method AuthRewritesHistory() returns (out: seq<Emit>, author: UserView, welcome: UserView)
    ensures out == []
    ensures author == UserView("u1", "Ann")
    ensures welcome == UserView("w", WelcomeAuthor)
  {
    var s, c, _ := AnonymousSend();
    out := s.ClientAuth(c, "tok", AnnOnly);
    author, welcome := s.messages[1].user.View(), s.messages[0].user.View();
  }

  /** A token that does not verify is answered with 'Authentication failed'
      on 'error-message'; the socket stays connected and anonymous. */
  method RejectedTokenKeepsSocket() returns (out: seq<Emit>, stillOpen: bool, entry: Option<UserView>)
    ensures out == [ToSender(ErrorMessage(AuthFailed))]
    ensures stillOpen && entry == Some(UserView("a1", Anonymous))
  {
    var s := new ChatState("w");
    var c, _ := s.Connect("a1");
    out := s.ClientAuth(c, "forged", AnnOnly);
    stillOpen := c in s.connected;
    entry := if c in s.users then Some(s.users[c].View()) else None;
  }

  /** A second registration of an email is refused and the first record
      stays as it was. */
  method DuplicateRegistration() returns (first: Response, second: Response, stored: Account)
    ensures first == Response(201, Registered(RegisteredText, Some("Ann")))
    ensures second == Response(400, ErrorBody(UserExists))
    ensures stored == Account("u1", "Ann", "a@x.com", "hash1")
  {
    var s := new ChatState("w");
    first := s.Register(Some("a@x.com"), Some("pw"), Some("Ann"), "u1", "hash1");
    second := s.Register(Some("a@x.com"), Some("pw2"), Some("Bob"), "u2", "hash2");
    stored := s.registeredUsers["a@x.com"];
  }

  /** An unknown email and a wrong password get the same answer; the right
      password gets the token and the stored name. */
  method LoginAnswers() returns (unknown: Option<Response>, wrong: Option<Response>, right: Option<Response>)
    ensures unknown == wrong == Some(InvalidCredentialsReply)
    ensures right == Some(Response(200, LoggedIn("tok", Some("Ann"))))
  {
    var s := new ChatState("w");
    var _ := s.Register(Some("a@x.com"), Some("pw"), Some("Ann"), "u1", "hash1");
    unknown := s.Login(Some("b@x.com"), Some("pw"), true, "tok");
    wrong := s.Login(Some("a@x.com"), Some("nope"), false, "tok");
    right := s.Login(Some("a@x.com"), Some("pw"), true, "tok");
  }

  /** `Authorization: Bearer tok` passes the middleware with Ann's claims,
      `Bearer forged` is refused with 403, and a header with no space with 401. */
  lemma BearerHeaders()
    ensures AuthenticateToken(Some("Bearer tok"), AnnOnly) == Next(Claims("u1", "Ann"))
    ensures AuthenticateToken(Some("Bearer forged"), AnnOnly) == Refused(Response(403, Plain("Invalid Token")))
    ensures AuthenticateToken(Some("tok"), AnnOnly) == Refused(Response(401, Plain("Access Denied")))
  {
    assert "Bearer tok" == "Bearer" + " " + "tok";
    BearerTokenOfScheme("Bearer", "tok");
    assert "Bearer forged" == "Bearer" + " " + "forged";
    BearerTokenOfScheme("Bearer", "forged");
    BearerTokenWithoutSpace("tok");
  }
}
