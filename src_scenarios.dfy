/** Runs of the TypeScript server's handlers from a fresh state, showing what
    the contracts of SrcChat let a client conclude about the three behaviours
    that are easy to miss: guards that send an error and carry on, message
    authors shared with the registry, and closing a socket on a bad token. */
module SrcScenarios {
  import opened Wrappers
  import opened Text
  import opened Validation
  import opened Http
  import opened SrcChat

  /** Registering an email a second time is answered with 'User already
      exists', yet the second record replaces the first. */
  method DuplicateRegistration() returns (first: Response, second: Response, storedName: Field, storedHash: string)
    ensures first == Response(201, Registered(RegisteredText, Some("Ann")))
    ensures second == Response(400, ErrorBody(UserExists))
    ensures storedName == Some("Bob") && storedHash == "hash2"
  {
    var s := new ChatState("w");
    first := s.Register(Some("a@x.com"), Some("pw"), Some("Ann"), "u1", "hash1");
    second := s.Register(Some("a@x.com"), Some("pw2"), Some("Bob"), "u2", "hash2");
    var record := s.registeredUsers[Some("a@x.com")];
    storedName, storedHash := record.name, record.passwordHash;
  }

  /** A login with a wrong password is refused and gets no token, but the
      token it minted is recorded, so /profile answers for that string. */
  method WrongPasswordToken() returns (login: Option<Response>, profile: Option<Response>)
    ensures login == Some(InvalidCredentialsReply)
    ensures profile == Some(Response(200, LoggedIn("T", Some("Ann"))))
  {
    var s := new ChatState("w");
    var _ := s.Register(Some("a@x.com"), Some("pw"), Some("Ann"), "u1", "hash1");
    login := s.Login(Some("a@x.com"), Some("wrong"), false, "T");
    profile := s.Profile(Some("T"));
  }

  /** Ann is registered under a@x.com, logged in with token T, and socket
      `c` carries an entry with her name and email. */
  predicate AnnSignedIn(s: ChatState, c: ConnId)
    reads s`users, s`registeredUsers, s`loginUsers, s.users.Values, s.registeredUsers.Values
  {
    && c in s.users && s.users[c].name == Some("Ann") && s.users[c].email == Some("a@x.com")
    && Some("a@x.com") in s.registeredUsers
    && s.registeredUsers[Some("a@x.com")].token == Some("T")
    && "T" in s.loginUsers && s.loginUsers["T"] == s.registeredUsers[Some("a@x.com")]
  }

  /** Register "Ann", log in with token T, open a socket and authenticate it. */
  method SignedInSocket() returns (s: ChatState, c: ConnId)
    ensures fresh(s) && s.Valid() && |s.messages| == 1 && AnnSignedIn(s, c)
    ensures fresh(s.users[c]) && fresh(s.registeredUsers[Some("a@x.com")])
  {
    s := new ChatState("w");
    var _ := s.Register(Some("a@x.com"), Some("pw"), Some("Ann"), "u1", "hash1");
    var _ := s.Login(Some("a@x.com"), Some("pw"), true, "T");
    var init;
    c, init := s.Connect();
    var _ := s.ClientAuth(c, "T");
  }

  /** Then send "hello" from that socket. */
  method SentMessage() returns (s: ChatState, c: ConnId)
    ensures fresh(s) && s.Valid() && |s.messages| == 2 && AnnSignedIn(s, c)
    ensures fresh(s.users[c]) && fresh(s.registeredUsers[Some("a@x.com")])
    ensures s.messages[1] == Message("hello", "m1", s.users[c])
  {
    TrimOfTrimmed("hello");
    s, c := SignedInSocket();
    var item := Message("hello", "m1", s.users[c]);
    var before := s.messages;
    MessageLog.AppendEvictsOldest(before, item);
    var _ := s.ClientMessageSent(c, "hello", "m1");
    assert s.messages == before + [item];
  }

  /** Then rename to "Annie": the rename reaches every socket, the login
      record reports the new name, and the message sent before the rename
      now shows the new name too, because its author is the registry entry
      itself. */
  method RenameAfterSend() returns (broadcast: seq<Emit>, author: Field, body: string, profile: Option<Response>)
    ensures broadcast == [ToAll(NameSent("Annie"))]
    ensures body == "hello" && author == Some("Annie")
    ensures profile == Some(Response(200, LoggedIn("T", Some("Annie"))))
  {
    TrimOfTrimmed("Annie");
    var s, c := SentMessage();
    broadcast := s.ClientNameSent(c, "Annie");
    author, body := s.messages[1].user.name, s.messages[1].message;
    profile := s.Profile(Some("T"));
  }

  /** A socket that never authenticated has no registry entry, so its
      message is refused with 'User not found.' and the log keeps only the
      welcome entry. */
  method AnonymousSend() returns (out: seq<Emit>, logLength: nat)
    ensures out == [ToSender(ErrorMessage(UserNotFound))]
    ensures logLength == 1
  {
    var s := new ChatState("w");
    var c, _ := s.Connect();
    TrimOfTrimmed("hi");
    out := s.ClientMessageSent(c, "hi", "m1");
    logLength := |s.messages|;
  }

  /** An unknown token is answered with 'auth-error' and the socket is gone
      afterwards, together with the entry a previous good token gave it. */
  method BadTokenCloses() returns (out: seq<Emit>, stillOpen: bool, hasEntry: bool)
    ensures out == [ToSender(AuthError("Authentication failed"))]
    ensures !stillOpen && !hasEntry
  {
    var s := new ChatState("w");
    var _ := s.Register(Some("a@x.com"), Some("pw"), Some("Ann"), "u1", "hash1");
    var _ := s.Login(Some("a@x.com"), Some("pw"), true, "T");
    var c, _ := s.Connect();
    var _ := s.ClientAuth(c, "T");
    out := s.ClientAuth(c, "other");
    stillOpen, hasEntry := c in s.connected, c in s.users;
  }
}
