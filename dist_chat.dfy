/** The chat state of the compiled JavaScript server (dist/index.js): the
    socket registry `users`, the credential store `registeredUsers` and the
    message log, with one method per REST or socket handler, and the
    `authenticateToken` middleware. Every socket gets an anonymous entry on
    connect; a verified token overwrites that entry in place, and messages
    hold their author entry by reference. */
module DistChat {
  import opened Wrappers
  import opened Text
  import opened Validation
  import opened Http
  import MessageLog

  type ConnId = nat

  const Anonymous := "anonym"

  datatype UserView = UserView(id: string, name: string)

  /** A registry entry `{id, name}`; messages point at it. */
  class User {
    var id: string
    var name: string

    constructor (id: string, name: string)
      ensures this.id == id && this.name == name
    {
      this.id, this.name := id, name;
    }

    function View(): UserView
      reads this
    {
      UserView(id, name)
    }
  }

  /** A credential-store record; nothing writes to it after registration. */
  datatype Account = Account(id: string, name: string, email: string, passwordHash: string)

  /** The payload a valid token carries. */
  datatype Claims = Claims(id: string, name: string)

  datatype MessageView = MessageView(message: string, id: string, user: UserView)

  /** A log entry; `user` is the author object itself, not a copy. */
  datatype Message = Message(message: string, id: string, user: User) {
    function View(): MessageView
      reads user
    {
      MessageView(message, id, user.View())
    }
  }

  /** The log as clients see it: each entry with its author as the author
      object reads now. */
  function ViewLog(log: seq<Message>): (v: seq<MessageView>)
    reads set m | m in log :: m.user
    ensures |v| == |log|
    ensures forall i | 0 <= i < |log| :: v[i] == log[i].View()
  {
    seq(|log|, i requires 0 <= i < |log| reads set m | m in log :: m.user => log[i].View())
  }

  datatype Event =
    | ErrorMessage(text: string)
    | NewMessageSent(item: MessageView)
    | NameSent(name: string)
    | UserTyping(user: UserView)
    | UserStopTyping(user: UserView)
    | InitMessages(log: seq<MessageView>)

  /** `socketChannel.emit` reaches the sending socket, `io.emit` every connected one. */
  datatype Emit = ToSender(event: Event) | ToAll(event: Event)

  const WelcomeText := "Welcome to RapidChat"
  const WelcomeId := "666"
  const WelcomeAuthor := "RapidChat"
  const AuthFailed := "Authentication failed"

  /** The token of an `Authorization` header: the second field of
      `header.split(' ')`, or None when the header is absent or empty or the
      field is missing or empty, since the middleware treats all of those as
      no token. */
  function BearerToken(authorization: Field): (t: Option<string>)
    ensures t.Some? ==> t.value != [] && ' ' !in t.value
  {
    if !Truthy(authorization) then None
    else
      var fields := Split(authorization.value, ' ');
      if |fields| > 1 && fields[1] != [] then Some(fields[1]) else None
  }

  /** Every header is its fields joined by spaces; the token is the second
      field when there is one and it is not empty. */
  lemma BearerTokenOfFields(fields: seq<string>)
    requires |fields| >= 1
    requires forall i | 0 <= i < |fields| :: ' ' !in fields[i]
    ensures BearerToken(Some(Join(fields, ' '))) ==
      if |fields| > 1 && fields[1] != [] then Some(fields[1]) else None
  {
    SplitJoin(fields, ' ');
  }

  /** So `"Bearer <token>"` yields the token, and a header without a space
      yields none. */
  lemma BearerTokenOfScheme(scheme: string, token: string)
    requires ' ' !in scheme && ' ' !in token && token != []
    ensures BearerToken(Some(scheme + " " + token)) == Some(token)
  {
    assert Join([scheme, token], ' ') == scheme + " " + token;
    BearerTokenOfFields([scheme, token]);
  }

  lemma BearerTokenWithoutSpace(header: string)
    requires ' ' !in header
    ensures BearerToken(Some(header)) == None
  {
    SplitWithout(header, ' ');
  }

  /** What the middleware does with a request: pass it on with the token's
      claims, or answer it itself. */
  datatype Gate = Next(user: Claims) | Refused(response: Response)

  /** `authenticateToken`: 401 without a token, 403 when `verify` rejects
      it, otherwise `next()` with the claims `verify` returned. */
  function AuthenticateToken(authorization: Field, verify: string -> Option<Claims>): (g: Gate)
    ensures g.Next? <==> BearerToken(authorization).Some? && verify(BearerToken(authorization).value).Some?
    ensures g.Next? ==> g.user == verify(BearerToken(authorization).value).value
    ensures BearerToken(authorization).None? <==> g == Refused(Response(401, Plain("Access Denied")))
    ensures BearerToken(authorization).Some? && verify(BearerToken(authorization).value).None? ==>
      g == Refused(Response(403, Plain("Invalid Token")))
  {
    match BearerToken(authorization)
    case None => Refused(Response(401, Plain("Access Denied")))
    case Some(token) =>
      match verify(token)
      case None => Refused(Response(403, Plain("Invalid Token")))
      case Some(user) => Next(user)
  }

  class ChatState {
    /** The sockets socket.io currently holds open. */
    var connected: set<ConnId>
    var nextConn: ConnId
    var users: map<ConnId, User>
    var registeredUsers: map<string, Account>
    var messages: seq<Message>

    ghost predicate Valid()
      reads this
    {
      && users.Keys == connected
      && (forall c | c in connected :: c < nextConn)
      && 1 <= |messages| <= MessageLog.Capacity
      && (forall a, b | a in users && b in users && a != b :: users[a] != users[b])
    }

    /** The module-level initialisation: empty maps and the welcome entry. */
    constructor (welcomeUserId: string)
      ensures Valid()
      ensures connected == {} && users == map[] && registeredUsers == map[]
      ensures |messages| == 1 && messages[0].message == WelcomeText && messages[0].id == WelcomeId
      ensures messages[0].user.View() == UserView(welcomeUserId, WelcomeAuthor)
    {
      var author := new User(welcomeUserId, WelcomeAuthor);
      connected, nextConn := {}, 0;
      users, registeredUsers := map[], map[];
      messages := [Message(WelcomeText, WelcomeId, author)];
    }

    /** The entry object of socket `c`, as a frame. */
    function Entry(c: ConnId): set<User>
      reads this`users
    {
      if c in users then {users[c]} else {}
    }

    /** A new socket: it is registered with a fresh entry named 'anonym' and
        is sent the whole log. */
    method Connect(userId: string) returns (c: ConnId, out: seq<Emit>)
      requires Valid()
      modifies this
      ensures Valid()
      ensures c !in old(connected) && connected == old(connected) + {c}
      ensures c in users && fresh(users[c]) && users == old(users)[c := users[c]]
      ensures users[c].View() == UserView(userId, Anonymous)
      ensures registeredUsers == old(registeredUsers) && messages == old(messages)
      ensures out == [ToSender(InitMessages(ViewLog(messages)))]
    {
      c := nextConn;
      nextConn := nextConn + 1;
      connected := connected + {c};
      var user := new User(userId, Anonymous);
      users := users[c := user];
      out := [ToSender(InitMessages(ViewLog(messages)))];
    }

    /** The 'disconnect' handler: exactly that socket's entry goes. */
    method Disconnect(c: ConnId)
      requires Valid()
      modifies this
      ensures Valid()
      ensures connected == old(connected) - {c} && users == old(users) - {c}
      ensures nextConn == old(nextConn) && registeredUsers == old(registeredUsers) && messages == old(messages)
    {
      connected := connected - {c};
      users := users - {c};
    }

    /** 'client-auth': when `verify` accepts the token, the socket's existing
        entry takes the token's id and name in place (nothing happens if the
        entry is gone), so messages it authored show them too. A rejected
        token gets 'Authentication failed' and changes nothing; the socket
        stays open. */
    method ClientAuth(c: ConnId, token: string, verify: string -> Option<Claims>) returns (out: seq<Emit>)
      requires Valid()
      modifies Entry(c)
      ensures Valid() && unchanged(this)
      ensures verify(token).None? ==> out == [ToSender(ErrorMessage(AuthFailed))] && unchanged(Entry(c))
      ensures verify(token).Some? ==> out == []
      ensures verify(token).Some? && c in users ==>
        users[c].View() == UserView(verify(token).value.id, verify(token).value.name)
      ensures forall d | d in users && d != c :: users[d].View() == old(users[d].View())
      ensures forall i | 0 <= i < |messages| ::
        messages[i].user.View() ==
          if verify(token).Some? && c in users && messages[i].user == users[c]
          then UserView(verify(token).value.id, verify(token).value.name)
          else old(messages[i].user.View())
    {
      var verdict := verify(token);
      if verdict.None? {
        return [ToSender(ErrorMessage(AuthFailed))];
      }
      if c in users {
        var existingUser := users[c];
        existingUser.id := verdict.value.id;
        existingUser.name := verdict.value.name;
      }
      out := [];
    }

    /** 'client-message-sent': the body is checked after trimming; an accepted
        body is logged trimmed, with the sender's entry object as author, and
        the oldest entry is dropped when the log goes past 100. */
    method ClientMessageSent(c: ConnId, message: string, messageId: string) returns (out: seq<Emit>)
      requires Valid()
      modifies this
      ensures Valid()
      ensures connected == old(connected) && nextConn == old(nextConn)
      ensures users == old(users) && registeredUsers == old(registeredUsers)
      ensures CheckMessage(message).Rejected? ==>
        messages == old(messages) && out == [ToSender(ErrorMessage(CheckMessage(message).error))]
      ensures CheckMessage(message).Accepted? && c !in users ==>
        messages == old(messages) && out == [ToSender(ErrorMessage(UserNotFound))]
      ensures CheckMessage(message).Accepted? && c in users ==>
        var item := Message(Trim(message), messageId, users[c]);
        && messages == MessageLog.Append(old(messages), item)
        && out == [ToAll(NewMessageSent(item.View()))]
      ensures CheckMessage(message).Accepted? && c in connected ==>
        c in users && out == [ToAll(NewMessageSent(Message(Trim(message), messageId, users[c]).View()))]
    {
      var verdict := CheckMessage(message);
      if verdict.Rejected? {
        return [ToSender(ErrorMessage(verdict.error))];
      }
      if c !in users {
        return [ToSender(ErrorMessage(UserNotFound))];
      }
      var item := Message(Trim(message), messageId, users[c]);
      MessageLog.AppendEvictsOldest(messages, item);
      messages := messages + [item];
      if |messages| > MessageLog.Capacity {
        messages := messages[1..];
      }
      out := [ToAll(NewMessageSent(item.View()))];
    }

    /** 'client-name-sent': a name whose trimmed form has 1 to 10 characters
        is stored as sent (untrimmed) on the sender's entry only; the
        credential store is not touched. Messages that entry authored show
        the new name. */
    method ClientNameSent(c: ConnId, name: string) returns (out: seq<Emit>)
      requires Valid()
      modifies Entry(c)
      ensures Valid() && unchanged(this)
      ensures CheckName(name).Rejected? ==>
        out == [ToSender(ErrorMessage(CheckName(name).error))] && unchanged(Entry(c))
      ensures CheckName(name).Accepted? && c !in users ==> out == [ToSender(ErrorMessage(UserNotFound))]
      ensures CheckName(name).Accepted? && c in users ==>
        && out == [ToAll(NameSent(name))]
        && users[c].View() == UserView(old(users[c].id), name)
      ensures forall d | d in users && d != c :: users[d].View() == old(users[d].View())
      ensures forall i | 0 <= i < |messages| ::
        messages[i].user.View() ==
          if CheckName(name).Accepted? && c in users && messages[i].user == users[c]
          then UserView(old(messages[i].user.id), name)
          else old(messages[i].user.View())
    {
      var verdict := CheckName(name);
      if verdict.Rejected? {
        return [ToSender(ErrorMessage(verdict.error))];
      }
      if c !in users {
        return [ToSender(ErrorMessage(UserNotFound))];
      }
      var user := users[c];
      user.name := name;
      out := [ToAll(NameSent(name))];
    }

    /** 'user-typed': the sender's entry is broadcast if it has one. */
    method UserTyped(c: ConnId) returns (out: seq<Emit>)
      ensures c in users ==> out == [ToAll(UserTyping(users[c].View()))]
      ensures c !in users ==> out == []
    {
      out := if c in users then [ToAll(UserTyping(users[c].View()))] else [];
    }

    /** 'user-stop-typed': likewise. */
    method UserStopTyped(c: ConnId) returns (out: seq<Emit>)
      ensures c in users ==> out == [ToAll(UserStopTyping(users[c].View()))]
      ensures c !in users ==> out == []
    {
      out := if c in users then [ToAll(UserStopTyping(users[c].View()))] else [];
    }

    /** POST /register: a missing field or a known email is answered with 400
        and leaves the store alone; otherwise exactly one record is added
        under the email and 201 echoes the name. */
    method Register(email: Field, password: Field, name: Field, userId: string, passwordHash: string)
      returns (resp: Response)
      requires Valid()
      modifies this
      ensures Valid()
      ensures connected == old(connected) && nextConn == old(nextConn)
      ensures users == old(users) && messages == old(messages)
      ensures resp == RegisterReply(email, password, name, email.Some? && email.value in old(registeredUsers))
      ensures resp.status == 201 ==>
        && email.Some? && name.Some? && email.value !in old(registeredUsers)
        && registeredUsers == old(registeredUsers)[email.value := Account(userId, name.value, email.value, passwordHash)]
      ensures resp.status != 201 ==> registeredUsers == old(registeredUsers)
    {
      if !Truthy(email) || !Truthy(password) || !Truthy(name) {
        return Response(400, ErrorBody(MissingFields));
      }
      if email.value in registeredUsers {
        return Response(400, ErrorBody(UserExists));
      }
      registeredUsers := registeredUsers[email.value := Account(userId, name.value, email.value, passwordHash)];
      resp := Response(201, Registered(RegisteredText, name));
    }

    /** POST /login: an unknown email and a wrong password get the same
        answer, and only a matching password gets a token; nothing is
        stored either way. An absent password makes the comparison fail and
        the handler end with no response. */
    method Login(email: Field, password: Field, passwordValid: bool, token: string)
      returns (resp: Option<Response>)
      ensures resp.Some? && resp.value.status == 200 <==>
        email.Some? && email.value in registeredUsers && password.Some? && passwordValid
      ensures resp.Some? && resp.value.status != 200 ==> resp.value == InvalidCredentialsReply
      ensures !(email.Some? && email.value in registeredUsers) ==> resp == Some(InvalidCredentialsReply)
      ensures resp.Some? && resp.value.status == 200 ==>
        resp.value.body == LoggedIn(token, Some(registeredUsers[email.value].name))
      ensures resp.None? <==> email.Some? && email.value in registeredUsers && password.None?
    {
      if email.None? || email.value !in registeredUsers {
        return Some(InvalidCredentialsReply);
      }
      var user := registeredUsers[email.value];
      if password.None? {
        return None;
      }
      if !passwordValid {
        return Some(InvalidCredentialsReply);
      }
      resp := Some(Response(200, LoggedIn(token, Some(user.name))));
    }
  }
}
