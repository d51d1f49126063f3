/**
 The authentication service. A user's last login time doubles as the number of the user's current session: a token
 carries the time of the session it was issued for, and a session time is never handed out twice.
 */
module Session {
  import opened Wrappers
  import opened RbacChecksum

  /** Clock readings and session times, after the start of 1970. */
  type Instant = t: int | t > 0 witness 1

  datatype Digest = Digest(payload: string)

  datatype Token = Token(user: int, roles: seq<string>, permissions: seq<string>, mustChange: bool, issuedAt: int,
                         refresh: bool, checksum: Option<Digest>)

  /** `bootstrap` says that the name is the configured name of the first administrator. */
  datatype User = User(password: string, status: int, lastLogin: Option<Instant>,
                       roles: seq<string>, permissions: seq<string>, bootstrap: bool)

  /** `operator` holds the permissions of the role given to users without one, when that role exists. */
  datatype State = State(users: map<int, User>, names: map<string, int>, operator: Option<seq<string>>)

  datatype Error = Internal | InvalidCredential | UserDisabled | TokenParse | PasswordChangeNeeded | SessionExpired
                 | UserNotFound | BadRequest | TokenGenerate

  /** The step of a call, if any, at which the store or the token signer fails. */
  datatype Fault = NoFault | LookupFails | RightsFail | HashFails | SaveFails | TouchFails | TokensFail

  datatype Answer = Tokens(access: Token, refresh: Token) | Done | Refused(error: Error)

  datatype Reply = Reply(state: State, answer: Answer)

  const OPERATOR := "operator"

  predicate MustChange(u: User) { u.bootstrap && u.lastLogin == None }

  function NextSession(previous: Option<Instant>, now: Instant): (t: Instant)
    ensures t >= now && (previous.Some? ==> t > previous.value)
    ensures t == now || (previous.Some? && t == previous.value + 1)
  {
    if previous.None? || now > previous.value then now else previous.value + 1
  }

  /** The user with the default role when there was none. */
  function Resolved(s: State, u: User): User {
    if u.roles == [] && s.operator.Some? then u.(roles := [OPERATOR], permissions := s.operator.value) else u
  }

  function ChecksumOf(roles: seq<string>, permissions: seq<string>): Digest { Digest(Payload(roles, permissions)) }

  function Sign(id: int, u: User, mustChange: bool, at: Instant, refresh: bool): Token {
    Token(id, u.roles, u.permissions, mustChange, at, refresh, Some(ChecksumOf(u.roles, u.permissions)))
  }

  function Grant(id: int, u: User, mustChange: bool, at: Instant, fault: Fault): Answer {
    if fault.TokensFail? then Refused(TokenGenerate)
    else Tokens(Sign(id, u, mustChange, at, false), Sign(id, u, mustChange, at, true))
  }

  function With(s: State, id: int, u: User): State { s.(users := s.users[id := u]) }

  /** Opens a session for a user who has passed the checks; a user who must change the password keeps the old time. */
  function Open(s: State, id: int, mustChange: bool, now: Instant, fault: Fault): Reply
    requires id in s.users
  {
    if fault.RightsFail? then Reply(s, Refused(Internal))
    else
      var u := Resolved(s, s.users[id]);
      var at := NextSession(u.lastLogin, now);
      if mustChange then Reply(With(s, id, u), Grant(id, u, true, at, fault))
      else if fault.TouchFails? then Reply(With(s, id, u), Refused(Internal))
      else Reply(With(s, id, u.(lastLogin := Some(at))), Grant(id, u, false, at, fault))
  }

  function LoginStep(s: State, name: string, password: string, now: Instant, fault: Fault): Reply {
    if fault.LookupFails? then Reply(s, Refused(Internal))
    else if name !in s.names || s.names[name] !in s.users then Reply(s, Refused(InvalidCredential))
    else
      var id := s.names[name];
      var u := s.users[id];
      if u.password != password then Reply(s, Refused(InvalidCredential))
      else if u.status != 1 then Reply(s, Refused(UserDisabled))
      else Open(s, id, MustChange(u), now, fault)
  }

  function ClaimedDigest(token: Token): Digest {
    if token.checksum.Some? then token.checksum.value else ChecksumOf(token.roles, token.permissions)
  }

  function ValidateStep(s: State, token: Token, fault: Fault): Reply {
    if fault.LookupFails? then Reply(s, Refused(Internal))
    else if token.user !in s.users || s.users[token.user].status != 1 then Reply(s, Refused(SessionExpired))
    else
      var u := s.users[token.user];
      if token.issuedAt <= 0 then Reply(s, Refused(TokenParse))
      else if u.lastLogin.Some? && token.issuedAt < u.lastLogin.value then Reply(s, Refused(SessionExpired))
      else if fault.RightsFail? then Reply(s, Refused(Internal))
      else
        var r := Resolved(s, u);
        Reply(With(s, token.user, r),
              if ClaimedDigest(token) == ChecksumOf(r.roles, r.permissions) then Done else Refused(SessionExpired))
  }

  /** `None` is text that does not parse as a token of ours. */
  function RefreshStep(s: State, presented: Option<Token>, now: Instant, fault: Fault): Reply {
    if presented.None? || !presented.value.refresh then Reply(s, Refused(TokenParse))
    else if presented.value.mustChange then Reply(s, Refused(PasswordChangeNeeded))
    else
      var checked := ValidateStep(s, presented.value, fault);
      if checked.answer != Done then checked else Open(checked.state, presented.value.user, false, now, fault)
  }

  function RevokeStep(s: State, id: int, now: Instant, fault: Fault): Reply {
    if fault.LookupFails? then Reply(s, Refused(Internal))
    else if id !in s.users then Reply(s, Refused(UserNotFound))
    else if MustChange(s.users[id]) then Reply(s, Done)
    else if fault.TouchFails? then Reply(s, Refused(Internal))
    else Reply(With(s, id, s.users[id].(lastLogin := Some(NextSession(s.users[id].lastLogin, now)))), Done)
  }

  /** `strong` is the verdict of the strength rule on the new password, which comes trimmed. */
  function ChangeStep(s: State, id: int, current: string, next: string, strong: bool, now: Instant, fault: Fault): Reply
  {
    if fault.LookupFails? then Reply(s, Refused(Internal))
    else if id !in s.users then Reply(s, Refused(UserNotFound))
    else if s.users[id].password != current || !strong || current == next then Reply(s, Refused(BadRequest))
    else if fault.HashFails? || fault.SaveFails? then Reply(s, Refused(Internal))
    else
      var saved := s.users[id].(password := next);
      if fault.TouchFails? then Reply(With(s, id, saved), Refused(Internal))
      else
        var at := NextSession(saved.lastLogin, now);
        var touched := saved.(lastLogin := Some(at));
        if fault.RightsFail? then Reply(With(s, id, touched), Refused(Internal))
        else
          var u := Resolved(s, touched);
          Reply(With(s, id, u), Grant(id, u, false, at, fault))
  }

  class AuthService {
    var users: map<int, User>
    var names: map<string, int>
    const operator: Option<seq<string>>

    function View(): State
      reads this
    {
      State(users, names, operator)
    }

    /** The name belongs to a stored user. */
    predicate Known(name: string)
      reads this
    {
      name in names && names[name] in users
    }

    constructor (users: map<int, User>, names: map<string, int>, operator: Option<seq<string>>)
      ensures View() == State(users, names, operator)
    {
      this.users := users;
      this.names := names;
      this.operator := operator;
    }

    method ResolveRBAC(id: int, fault: Fault) returns (user: Result<User, Error>)
      requires id in users
      modifies this`users
      ensures user == if fault.RightsFail? then Err(Internal) else Ok(Resolved(old(View()), old(users)[id]))
      ensures View() == if fault.RightsFail? then old(View()) else With(old(View()), id, user.value)
      ensures user.Ok? ==>
                var u := old(users)[id];
                user.value == if u.roles == [] && operator.Some?
                              then u.(roles := ["operator"], permissions := operator.value) else u
    {
      if fault.RightsFail? {
        return Err(Internal);
      }
      if |users[id].roles| == 0 && operator.Some? {
        users := users[id := users[id].(roles := [OPERATOR], permissions := operator.value)];
      }
      user := Ok(users[id]);
      assert With(old(View()), id, user.value).users == users;
    }

    method GenerateTokenPair(id: int, u: User, mustChange: bool, at: Instant, fault: Fault) returns (answer: Answer)
      ensures fault.TokensFail? ==> answer == Refused(TokenGenerate)
      ensures !fault.TokensFail? ==> answer.Tokens? && !answer.access.refresh && answer.refresh.refresh
      ensures answer.Tokens? ==>
                answer.refresh == answer.access.(refresh := true)
                && answer.access.user == id && answer.access.issuedAt == at && answer.access.mustChange == mustChange
                && answer.access.roles == u.roles && answer.access.permissions == u.permissions
                && answer.access.checksum == Some(Digest(Payload(answer.access.roles, answer.access.permissions)))
    {
      if fault.TokensFail? {
        return Refused(TokenGenerate);
      }
      var access := Sign(id, u, mustChange, at, false);
      var refresh := Sign(id, u, mustChange, at, true);
      return Tokens(access, refresh);
    }

    method Login(name: string, password: string, now: Instant, fault: Fault) returns (answer: Answer)
      modifies this`users
      ensures Reply(View(), answer) == LoginStep(old(View()), name, password, now, fault)
      ensures fault.LookupFails? ==> answer == Refused(Internal)
      ensures !fault.LookupFails? && !Known(name) ==> answer == Refused(InvalidCredential)
      ensures !fault.LookupFails? && Known(name) && old(users)[names[name]].password != password ==>
                answer == Refused(InvalidCredential)
      ensures (&& !fault.LookupFails? && Known(name) && old(users)[names[name]].password == password
               && old(users)[names[name]].status != 1) ==> answer == Refused(UserDisabled)
      ensures answer.Refused? && answer.error != Internal && answer.error != TokenGenerate ==> users == old(users)
      ensures answer.Tokens? ==>
                && Known(name) && old(users)[names[name]].password == password && old(users)[names[name]].status == 1
                && answer.access.user == names[name]
                && answer.access.mustChange
                   == (old(users)[names[name]].bootstrap && old(users)[names[name]].lastLogin == None)
                && users[names[name]].lastLogin
                   == (if answer.access.mustChange then None else Some(answer.access.issuedAt))
    {
      if fault.LookupFails? {
        return Refused(Internal);
      }
      if name !in names || names[name] !in users {
        return Refused(InvalidCredential);
      }
      var id := names[name];
      if users[id].password != password {
        return Refused(InvalidCredential);
      }
      if users[id].status != 1 {
        return Refused(UserDisabled);
      }
      var mustChange := MustChange(users[id]);
      var user := ResolveRBAC(id, fault);
      if user.Err? {
        return Refused(user.error);
      }
      var at := NextSession(user.value.lastLogin, now);
      if !mustChange {
        if fault.TouchFails? {
          return Refused(Internal);
        }
        users := users[id := users[id].(lastLogin := Some(at))];
      }
      answer := GenerateTokenPair(id, user.value, mustChange, at, fault);
    }

    method ValidateSession(token: Token, fault: Fault) returns (answer: Answer)
      modifies this`users
      ensures Reply(View(), answer) == ValidateStep(old(View()), token, fault)
      ensures fault.LookupFails? ==> answer == Refused(Internal)
      ensures !fault.LookupFails? && (token.user !in old(users) || old(users)[token.user].status != 1) ==>
                answer == Refused(SessionExpired)
      ensures answer == Done ==>
                && token.user in old(users) && old(users)[token.user].status == 1 && token.issuedAt > 0
                && (old(users)[token.user].lastLogin.Some? ==> token.issuedAt >= old(users)[token.user].lastLogin.value)
      ensures answer == Refused(TokenParse) ==> token.issuedAt <= 0
    {
      hide Payload;
      if fault.LookupFails? {
        return Refused(Internal);
      }
      if token.user !in users {
        return Refused(SessionExpired);
      }
      var user := users[token.user];
      if user.status != 1 {
        return Refused(SessionExpired);
      }
      if token.issuedAt <= 0 {
        return Refused(TokenParse);
      }
      if user.lastLogin.Some? && token.issuedAt < user.lastLogin.value {
        return Refused(SessionExpired);
      }
      var current := ResolveRBAC(token.user, fault);
      if current.Err? {
        return Refused(current.error);
      }
      var claimed := if token.checksum.Some? then token.checksum.value else ChecksumOf(token.roles, token.permissions);
      if claimed != ChecksumOf(current.value.roles, current.value.permissions) {
        return Refused(SessionExpired);
      }
      return Done;
    }

    method Refresh(presented: Option<Token>, now: Instant, fault: Fault) returns (answer: Answer)
      modifies this`users
      ensures Reply(View(), answer) == RefreshStep(old(View()), presented, now, fault)
      ensures presented.None? || !presented.value.refresh ==> answer == Refused(TokenParse) && users == old(users)
      ensures presented.Some? && presented.value.refresh && presented.value.mustChange ==>
                answer == Refused(PasswordChangeNeeded) && users == old(users)
      ensures answer.Tokens? ==>
                && presented.Some? && presented.value.user in old(users) && old(users)[presented.value.user].status == 1
                && !answer.access.mustChange && answer.access.user == presented.value.user
    {
      hide ValidateStep;
      if presented.None? || !presented.value.refresh {
        return Refused(TokenParse);
      }
      var token := presented.value;
      if token.mustChange {
        return Refused(PasswordChangeNeeded);
      }
      ValidatedActive(View(), token, fault);
      var checked := ValidateSession(token, fault);
      if checked != Done {
        return checked;
      }
      var user := ResolveRBAC(token.user, fault);
      if user.Err? {
        return Refused(user.error);
      }
      if fault.TouchFails? {
        return Refused(Internal);
      }
      var at := NextSession(user.value.lastLogin, now);
      users := users[token.user := users[token.user].(lastLogin := Some(at))];
      answer := GenerateTokenPair(token.user, user.value, false, at, fault);
    }

    method RevokeSession(id: int, now: Instant, fault: Fault) returns (answer: Answer)
      modifies this`users
      ensures Reply(View(), answer) == RevokeStep(old(View()), id, now, fault)
      ensures !fault.LookupFails? && id !in old(users) ==> answer == Refused(UserNotFound)
      ensures answer.Refused? ==> users == old(users)
      ensures answer == Done && old(users)[id].bootstrap && old(users)[id].lastLogin == None ==> users == old(users)
      ensures answer == Done && !(old(users)[id].bootstrap && old(users)[id].lastLogin == None) ==>
                users[id].lastLogin.Some?
                && users == old(users)[id := old(users)[id].(lastLogin := users[id].lastLogin)]
    {
      if fault.LookupFails? {
        return Refused(Internal);
      }
      if id !in users {
        return Refused(UserNotFound);
      }
      if MustChange(users[id]) {
        return Done;
      }
      var at := NextSession(users[id].lastLogin, now);
      if fault.TouchFails? {
        return Refused(Internal);
      }
      users := users[id := users[id].(lastLogin := Some(at))];
      return Done;
    }

    method ChangePassword(id: int, current: string, next: string, strong: bool, now: Instant, fault: Fault)
      returns (answer: Answer)
      modifies this`users
      ensures Reply(View(), answer) == ChangeStep(old(View()), id, current, next, strong, now, fault)
      ensures !fault.LookupFails? && id !in old(users) ==> answer == Refused(UserNotFound) && users == old(users)
      ensures (&& !fault.LookupFails? && id in old(users)
               && (old(users)[id].password != current || !strong || current == next)) ==>
                answer == Refused(BadRequest) && users == old(users)
      ensures (&& fault.TouchFails? && id in old(users) && old(users)[id].password == current && strong
               && current != next) ==>
                answer == Refused(Internal) && users == old(users)[id := old(users)[id].(password := next)]
      ensures answer.Tokens? ==>
                && id in old(users) && old(users)[id].password == current && strong && current != next
                && users[id].password == next && !answer.access.mustChange && answer.access.user == id
                && users[id].lastLogin == Some(answer.access.issuedAt)
    {
      if fault.LookupFails? {
        return Refused(Internal);
      }
      if id !in users {
        return Refused(UserNotFound);
      }
      if users[id].password != current {
        return Refused(BadRequest);
      }
      if !strong || current == next {
        return Refused(BadRequest);
      }
      if fault.HashFails? || fault.SaveFails? {
        return Refused(Internal);
      }
      users := users[id := users[id].(password := next)];
      if fault.TouchFails? {
        return Refused(Internal);
      }
      var at := NextSession(users[id].lastLogin, now);
      users := users[id := users[id].(lastLogin := Some(at))];
      var user := ResolveRBAC(id, fault);
      if user.Err? {
        return Refused(user.error);
      }
      answer := GenerateTokenPair(id, user.value, false, at, fault);
    }
  }

  /** A validated token belongs to an active user, whose session time is untouched. */
  lemma ValidatedActive(s: State, token: Token, fault: Fault)
    ensures var checked := ValidateStep(s, token, fault);
            && !checked.answer.Tokens?
            && (checked.answer == Done ==>
              && token.user in s.users && token.user in checked.state.users && s.users[token.user].status == 1
              && checked.state.users[token.user].lastLogin == s.users[token.user].lastLogin)
  {
  }
}
