/** The chat state of the TypeScript server (src/index.ts): the socket
    registry `users`, the credential store `registeredUsers`, the token table
    `loginUsers` and the message log, with one method per REST or socket
    handler. User records are objects: a message holds its author by
    reference, and `loginUsers` shares its records with `registeredUsers`. */
module SrcChat {
  import opened Wrappers
  import opened Text
  import opened Validation
  import opened Http
  import MessageLog

  /** The handle a socket gets when it connects, in place of the socket object. */
  type ConnId = nat

  /** What a `User` object looks like when it is sent out. */
  datatype UserView = UserView(id: string, name: Field, email: Field)

  /** A registry entry `{id, name, email?}`; messages point at it. */
  class User {
    var id: string
    var name: Field
    var email: Field

    constructor (id: string, name: Field, email: Field)
      ensures this.id == id && this.name == name && this.email == email
    {
      this.id, this.name, this.email := id, name, email;
    }

    function View(): UserView
      reads this
    {
      UserView(id, name, email)
    }
  }

  /** A credential-store record; `loginUsers` maps tokens to these same objects. */
  class RegisteredUser {
    var id: string
    var name: Field
    var email: Field
    var passwordHash: string
    var token: Option<string>

    constructor (id: string, name: Field, email: Field, passwordHash: string)
      ensures this.id == id && this.name == name && this.email == email
      ensures this.passwordHash == passwordHash && token == None
    {
      this.id, this.name, this.email := id, name, email;
      this.passwordHash, this.token := passwordHash, None;
    }
  }

  datatype MessageView = MessageView(message: string, id: string, user: UserView)

  /** A log entry; `user` is the author object itself, not a copy. */
  datatype Message = Message(message: string, id: string, user: User) {
    function View(): MessageView
      reads user
    {
      MessageView(message, id, user.View())
    }
  }

  /** The log as clients see it: each entry with its author as the author
      object reads now. */
  function ViewLog(log: seq<Message>): (v: seq<MessageView>)
    reads set m | m in log :: m.user
    ensures |v| == |log|
    ensures forall i | 0 <= i < |log| :: v[i] == log[i].View()
  {
    seq(|log|, i requires 0 <= i < |log| reads set m | m in log :: m.user => log[i].View())
  }

  datatype Event =
    | AuthSuccess(text: string)
    | AuthError(text: string)
    | ErrorMessage(text: string)
    | NewMessageSent(item: MessageView)
    | NameSent(name: string)
    | UserTyping(user: UserView)
    | UserStopTyping(user: UserView)
    | InitMessages(log: seq<MessageView>)

  /** `socket.emit` reaches the sending socket, `io.emit` every connected one. */
  datatype Emit = ToSender(event: Event) | ToAll(event: Event)

  const WelcomeText := "Welcome to RapidChat"
  const WelcomeId := "666"
  const WelcomeAuthor := "RapidChat"

  class ChatState {
    /** The sockets socket.io currently holds open. */
    var connected: set<ConnId>
    var nextConn: ConnId
    var users: map<ConnId, User>
    var registeredUsers: map<Field, RegisteredUser>
    var loginUsers: map<string, RegisteredUser>
    var messages: seq<Message>

    ghost predicate Valid()
      reads this
    {
      && users.Keys <= connected
      && (forall c | c in connected :: c < nextConn)
      && 1 <= |messages| <= MessageLog.Capacity
      && (forall a, b | a in users && b in users && a != b :: users[a] != users[b])
    }

    /** The module-level initialisation: empty maps and the welcome entry. */
    constructor (welcomeUserId: string)
      ensures Valid()
      ensures connected == {} && users == map[] && registeredUsers == map[] && loginUsers == map[]
      ensures |messages| == 1 && messages[0].message == WelcomeText && messages[0].id == WelcomeId
      ensures messages[0].user.View() == UserView(welcomeUserId, Some(WelcomeAuthor), None)
    {
      var author := new User(welcomeUserId, Some(WelcomeAuthor), None);
      connected, nextConn := {}, 0;
      users, registeredUsers, loginUsers := map[], map[], map[];
      messages := [Message(WelcomeText, WelcomeId, author)];
    }

    /** A new socket: it gets a handle and is sent the whole log. No registry
        entry is made until it authenticates. */
    method Connect() returns (c: ConnId, out: seq<Emit>)
      requires Valid()
      modifies this
      ensures Valid()
      ensures c !in old(connected) && connected == old(connected) + {c}
      ensures users == old(users) && registeredUsers == old(registeredUsers)
      ensures loginUsers == old(loginUsers) && messages == old(messages)
      ensures out == [ToSender(InitMessages(ViewLog(messages)))]
    {
      c := nextConn;
      nextConn := nextConn + 1;
      connected := connected + {c};
      out := [ToSender(InitMessages(ViewLog(messages)))];
    }

    /** The 'disconnect' handler: only that socket's entry goes; a socket
        without one leaves the registry as it was. */
    method Disconnect(c: ConnId)
      requires Valid()
      modifies this
      ensures Valid()
      ensures connected == old(connected) - {c} && users == old(users) - {c}
      ensures nextConn == old(nextConn) && registeredUsers == old(registeredUsers)
      ensures loginUsers == old(loginUsers) && messages == old(messages)
    {
      connected := connected - {c};
      users := users - {c};
    }

    /** 'client-auth': a token in `loginUsers` gives the socket a new entry
        copied from the login record. Any other token gets 'auth-error' and
        the socket is closed, which runs the 'disconnect' handler. */
    method ClientAuth(c: ConnId, token: string) returns (out: seq<Emit>)
      requires Valid() && c in connected
      modifies this
      ensures Valid()
      ensures registeredUsers == old(registeredUsers) && loginUsers == old(loginUsers)
      ensures messages == old(messages) && nextConn == old(nextConn)
      ensures token in old(loginUsers) ==>
        && connected == old(connected)
        && c in users && fresh(users[c]) && users == old(users)[c := users[c]]
        && users[c].View() == UserView(loginUsers[token].id, loginUsers[token].name, loginUsers[token].email)
        && out == [ToSender(AuthSuccess("Authentication successful"))]
      ensures token !in old(loginUsers) ==>
        && connected == old(connected) - {c} && users == old(users) - {c}
        && out == [ToSender(AuthError("Authentication failed"))]
    {
      if token in loginUsers {
        var loginUser := loginUsers[token];
        var user := new User(loginUser.id, loginUser.name, loginUser.email);
        users := users[c := user];
        out := [ToSender(AuthSuccess("Authentication successful"))];
      } else {
        out := [ToSender(AuthError("Authentication failed"))];
        Disconnect(c);
      }
    }

    /** 'client-message-sent': the body is checked after trimming; an accepted
        body is logged trimmed, with the sender's entry object as author, and
        the oldest entry is dropped when the log goes past 100. */
    method ClientMessageSent(c: ConnId, message: string, messageId: string) returns (out: seq<Emit>)
      requires Valid()
      modifies this
      ensures Valid()
      ensures connected == old(connected) && nextConn == old(nextConn) && users == old(users)
      ensures registeredUsers == old(registeredUsers) && loginUsers == old(loginUsers)
      ensures CheckMessage(message).Rejected? ==>
        messages == old(messages) && out == [ToSender(ErrorMessage(CheckMessage(message).error))]
      ensures CheckMessage(message).Accepted? && c !in users ==>
        messages == old(messages) && out == [ToSender(ErrorMessage(UserNotFound))]
      ensures CheckMessage(message).Accepted? && c in users ==>
        var item := Message(Trim(message), messageId, users[c]);
        && messages == MessageLog.Append(old(messages), item)
        && out == [ToAll(NewMessageSent(item.View()))]
    {
      var verdict := CheckMessage(message);
      if verdict.Rejected? {
        return [ToSender(ErrorMessage(verdict.error))];
      }
      if c !in users {
        return [ToSender(ErrorMessage(UserNotFound))];
      }
      var item := Message(Trim(message), messageId, users[c]);
      MessageLog.AppendEvictsOldest(messages, item);
      messages := messages + [item];
      if |messages| > MessageLog.Capacity {
        messages := messages[1..];
      }
      out := [ToAll(NewMessageSent(item.View()))];
    }

    /** The records a rename writes besides the sender's entry: the store
        record under `email` and the login record under that record's token. */
    function StoreTargets(email: Field): set<RegisteredUser>
      reads this`registeredUsers, this`loginUsers, registeredUsers.Values
    {
      if email !in registeredUsers then {}
      else
        var record := registeredUsers[email];
        if record.token.Some? && record.token.value in loginUsers
        then {record, loginUsers[record.token.value]}
        else {record}
    }

    function RenameTargets(c: ConnId): set<object>
      reads this`users, this`registeredUsers, this`loginUsers, users.Values, registeredUsers.Values
    {
      if c !in users then {} else {users[c]} + StoreTargets(users[c].email)
    }

    predicate Renames(c: ConnId, name: string)
      reads this`users
    {
      CheckName(name).Accepted? && c in users
    }

    /** `record` now carries `name`; its other fields are as they were. */
    static twostate predicate RecordRenamed(record: RegisteredUser, name: string)
      reads record
    {
      && record.name == Some(name)
      && record.id == old(record.id) && record.email == old(record.email)
      && record.passwordHash == old(record.passwordHash) && record.token == old(record.token)
    }

    /** The store and login maps are as they were, and the store record under
        `email`, if any, and the login record its token points to, if any,
        have been renamed to `name`. */
    twostate predicate StoreRenamed(email: Field, name: string)
      reads this`registeredUsers, this`loginUsers, registeredUsers.Values, loginUsers.Values
    {
      && registeredUsers == old(registeredUsers) && loginUsers == old(loginUsers)
      && (email in registeredUsers ==>
            var record := old(registeredUsers[email]);
            && RecordRenamed(record, name)
            && (record.token.Some? && record.token.value in loginUsers ==>
                  RecordRenamed(old(loginUsers[record.token.value]), name)))
    }

    /** The name propagation of a rename: the store record under `email`
        takes the new name, and so does the login record its token points to,
        which is normally the same object. No other field changes. */
    method SyncStoreName(email: Field, name: string)
      modifies StoreTargets(email)
      ensures StoreRenamed(email, name)
    {
      if email in registeredUsers {
        var record := registeredUsers[email];
        record.name := Some(name);
        if record.token.Some? && record.token.value in loginUsers {
          var loginUser := loginUsers[record.token.value];
          loginUser.name := Some(name);
        }
      }
    }

    /** 'client-name-sent': a name whose trimmed form has 1 to 10 characters
        is stored as sent (untrimmed) on the sender's entry, then on the
        store and login records for its email. Every message authored by
        that entry shows the new name; no other entry changes. */
    method ClientNameSent(c: ConnId, name: string) returns (out: seq<Emit>)
      requires Valid()
      modifies RenameTargets(c)
      ensures Valid() && unchanged(this)
      ensures CheckName(name).Rejected? ==> out == [ToSender(ErrorMessage(CheckName(name).error))]
      ensures CheckName(name).Accepted? && c !in users ==> out == [ToSender(ErrorMessage(UserNotFound))]
      ensures Renames(c, name) ==> out == [ToAll(NameSent(name))]
      ensures !Renames(c, name) ==> unchanged(RenameTargets(c))
      ensures Renames(c, name) ==>
        && users[c].name == Some(name)
        && users[c].id == old(users[c].id) && users[c].email == old(users[c].email)
      ensures Renames(c, name) ==> StoreRenamed(users[c].email, name)
      ensures forall d | d in users && d != c :: users[d].View() == old(users[d].View())
      ensures forall i | 0 <= i < |messages| ::
        messages[i].user.name ==
          if Renames(c, name) && messages[i].user == users[c] then Some(name) else old(messages[i].user.name)
    {
      var verdict := CheckName(name);
      if verdict.Rejected? {
        return [ToSender(ErrorMessage(verdict.error))];
      }
      if c !in users {
        return [ToSender(ErrorMessage(UserNotFound))];
      }
      var user := users[c];
      user.name := Some(name);
      SyncStoreName(user.email, name);
      out := [ToAll(NameSent(name))];
    }

    /** 'user-typed': the sender's entry is broadcast if it has one. */
    method UserTyped(c: ConnId) returns (out: seq<Emit>)
      ensures c in users ==> out == [ToAll(UserTyping(users[c].View()))]
      ensures c !in users ==> out == []
    {
      out := if c in users then [ToAll(UserTyping(users[c].View()))] else [];
    }

    /** 'user-stop-typed': likewise. */
    method UserStopTyped(c: ConnId) returns (out: seq<Emit>)
      ensures c in users ==> out == [ToAll(UserStopTyping(users[c].View()))]
      ensures c !in users ==> out == []
    {
      out := if c in users then [ToAll(UserStopTyping(users[c].View()))] else [];
    }

    /** Whether the register handler reaches the store write. Its guards send
        a 400 without returning; the handler still ends early when hashing an
        absent password fails, or when the second guard tries to send after
        the first has. */
    static predicate RegisterWrites(email: Field, password: Field, name: Field, known: bool) {
      var missing := !Truthy(email) || !Truthy(password) || !Truthy(name);
      password.Some? && !(missing && known)
    }

    /** POST /register. The response is the first one the handler sends. A
        write puts a new record under `email`, replacing any record there. */
    method Register(email: Field, password: Field, name: Field, userId: string, passwordHash: string)
      returns (resp: Response)
      requires Valid()
      modifies this
      ensures Valid()
      ensures connected == old(connected) && nextConn == old(nextConn) && users == old(users)
      ensures loginUsers == old(loginUsers) && messages == old(messages)
      ensures resp == RegisterReply(email, password, name, email in old(registeredUsers))
      ensures RegisterWrites(email, password, name, email in old(registeredUsers)) ==>
        && email in registeredUsers
        && var record := registeredUsers[email];
        && fresh(record) && registeredUsers == old(registeredUsers)[email := record]
        && record.id == userId && record.name == name && record.email == email
        && record.passwordHash == passwordHash && record.token == None
      ensures !RegisterWrites(email, password, name, email in old(registeredUsers)) ==>
        registeredUsers == old(registeredUsers)
    {
      var sent := false;
      if !Truthy(email) || !Truthy(password) || !Truthy(name) {
        resp := RegisterReply(email, password, name, email in registeredUsers);
        sent := true;
      }
      if email in registeredUsers {
        if sent {
          return;
        }
        resp := RegisterReply(email, password, name, true);
        sent := true;
      }
      if password.None? {
        return;
      }
      var record := new RegisteredUser(userId, name, email, passwordHash);
      registeredUsers := registeredUsers[email := record];
      if !sent {
        resp := RegisterReply(email, password, name, false);
      }
    }

    /** POST /login. An unknown email is answered with the generic error and
        changes nothing. Otherwise, once the password comparison has a result
        (`passwordValid`), the token is recorded on the store record and in
        `loginUsers` whether or not the password matched; only the response
        differs. An absent password makes the comparison fail and the handler
        end with no response. */
    method Login(email: Field, password: Field, passwordValid: bool, token: string)
      returns (resp: Option<Response>)
      requires Valid()
      modifies this, if email in registeredUsers then {registeredUsers[email]} else {}
      ensures Valid()
      ensures connected == old(connected) && nextConn == old(nextConn) && users == old(users)
      ensures registeredUsers == old(registeredUsers) && messages == old(messages)
      ensures email !in registeredUsers ==>
        resp == Some(InvalidCredentialsReply) && loginUsers == old(loginUsers)
      ensures email in registeredUsers && password.None? ==>
        resp == None && loginUsers == old(loginUsers) && unchanged(registeredUsers[email])
      ensures email in registeredUsers && password.Some? ==>
        var user := registeredUsers[email];
        && user.token == Some(token) && loginUsers == old(loginUsers)[token := user]
        && user.id == old(user.id) && user.name == old(user.name) && user.email == old(user.email)
        && user.passwordHash == old(user.passwordHash)
        && resp == Some(if passwordValid then Response(200, LoggedIn(token, user.name)) else InvalidCredentialsReply)
    {
      if email !in registeredUsers {
        return Some(InvalidCredentialsReply);
      }
      var user := registeredUsers[email];
      if password.None? {
        return None;
      }
      var sent := false;
      if !passwordValid {
        resp := Some(InvalidCredentialsReply);
        sent := true;
      }
      user.token := Some(token);
      loginUsers := loginUsers[token := user];
      if !sent {
        resp := Some(Response(200, LoggedIn(token, user.name)));
      }
    }

    /** POST /profile: the name on the login record for a known token;
        nothing at all is sent for an unknown one. */
    method Profile(token: Field) returns (resp: Option<Response>)
      ensures token.Some? && token.value in loginUsers ==>
        resp == Some(Response(200, LoggedIn(token.value, loginUsers[token.value].name)))
      ensures !(token.Some? && token.value in loginUsers) ==> resp == None
    {
      if token.Some? && token.value in loginUsers {
        resp := Some(Response(200, LoggedIn(token.value, loginUsers[token.value].name)));
      } else {
        resp := None;
      }
    }

    /** POST /logout: removes only that token; an unknown one changes nothing.
        The handler never answers, so no response is sent. */
    method Logout(token: Field) returns (resp: Option<Response>)
      requires Valid()
      modifies this
      ensures Valid()
      ensures resp == None
      ensures loginUsers == if token.Some? then old(loginUsers) - {token.value} else old(loginUsers)
      ensures connected == old(connected) && nextConn == old(nextConn) && users == old(users)
      ensures registeredUsers == old(registeredUsers) && messages == old(messages)
    {
      if token.Some? {
        loginUsers := loginUsers - {token.value};
      }
      resp := None;
    }
  }
}
