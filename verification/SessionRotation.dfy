/**
 Runs of the authentication service: any interleaving of whole calls, for any users, with any clock readings and any
 failing step, and with administrators changing status and rights in between.
 */
module SessionRotation {
  import opened Wrappers
  import opened RbacChecksum
  import opened Session

  datatype Call =
    | Login(name: string, password: string)
    | Refresh(presented: Option<Token>)
    | Validate(token: Token)
    | Revoke(id: int)
    | ChangePassword(id: int, current: string, next: string, strong: bool)
    | Administer(id: int, status: int, roles: seq<string>, permissions: seq<string>)
    | Enrol(id: int, name: string, user: User)

  datatype Event = Event(call: Call, now: Instant, fault: Fault)

  /** Administration happens outside the service; a new user has a new id and has never logged in. */
  function Step(s: State, e: Event): Reply {
    match e.call
    case Login(name, password) => LoginStep(s, name, password, e.now, e.fault)
    case Refresh(presented) => RefreshStep(s, presented, e.now, e.fault)
    case Validate(token) => ValidateStep(s, token, e.fault)
    case Revoke(id) => RevokeStep(s, id, e.now, e.fault)
    case ChangePassword(id, current, next, strong) => ChangeStep(s, id, current, next, strong, e.now, e.fault)
    case Administer(id, status, roles, permissions) =>
      if id !in s.users then Reply(s, Refused(UserNotFound))
      else Reply(With(s, id, s.users[id].(status := status, roles := roles, permissions := permissions)), Done)
    case Enrol(id, name, user) =>
      if id in s.users || user.lastLogin.Some? then Reply(s, Refused(BadRequest))
      else Reply(With(s, id, user).(names := s.names[name := id]), Done)
  }

  function StateAfter(s: State, run: seq<Event>): State
    decreases |run|
  {
    if run == [] then s else Step(StateAfter(s, run[..|run| - 1]), run[|run| - 1]).state
  }

  function AnswerAt(s: State, run: seq<Event>, i: nat): Answer
    requires i < |run|
  {
    Step(StateAfter(s, run[..i]), run[i]).answer
  }

  predicate Gives(a: Answer, token: Token) { a.Tokens? && (a.access == token || a.refresh == token) }

  ghost predicate IssuedBefore(s: State, run: seq<Event>, i: nat, token: Token)
    requires i <= |run|
  {
    exists k :: 0 <= k < i && Gives(AnswerAt(s, run, k), token)
  }

  /** Signatures cannot be forged: a token that parses was issued earlier in the run. */
  ghost predicate Genuine(s: State, run: seq<Event>) {
    forall i :: 0 <= i < |run| && run[i].call.Refresh? && run[i].call.presented.Some? ==>
      IssuedBefore(s, run, i, run[i].call.presented.value)
  }

  function LastOf(s: State, id: int): Option<Instant> { if id in s.users then s.users[id].lastLogin else None }

  /** A later session time; any time is later than none. */
  predicate Later(a: Option<Instant>, b: Option<Instant>) { b.Some? && (a.None? || a.value < b.value) }

  predicate NotEarlier(a: Option<Instant>, b: Option<Instant>) { a == b || Later(a, b) }

  /** The token's session is not the user's current one, nor a future one. */
  predicate Superseded(last: Option<Instant>, token: Token) { last.Some? && token.issuedAt < last.value }

  predicate Valid(s: State, token: Token) { ValidateStep(s, token, NoFault).answer == Done }

  // ---- one call ----

  lemma OpenRotates(s: State, id: int, mustChange: bool, now: Instant, fault: Fault)
    requires id in s.users
    ensures var r := Open(s, id, mustChange, now, fault);
            && (forall other :: other != id ==> LastOf(r.state, other) == LastOf(s, other))
            && NotEarlier(LastOf(s, id), LastOf(r.state, id))
            && (r.answer.Tokens? ==>
                  && r.answer.access.user == r.answer.refresh.user == id
                  && r.answer.access.issuedAt == r.answer.refresh.issuedAt
                  && r.answer.access.mustChange == r.answer.refresh.mustChange == mustChange
                  && (!mustChange ==> LastOf(r.state, id) == Some(r.answer.access.issuedAt)
                                      && Later(LastOf(s, id), LastOf(r.state, id))))
            && r.answer != Done
  {
    hide ChecksumOf;
  }

  /** Validation touches no session time. */
  lemma ValidateKeeps(s: State, token: Token, fault: Fault)
    ensures var r := ValidateStep(s, token, fault);
            && (forall id :: LastOf(r.state, id) == LastOf(s, id)) && !r.answer.Tokens?
            && (r.answer == Done ==> token.user in s.users && token.user in r.state.users
                                     && !Superseded(LastOf(s, token.user), token))
  {
    hide ChecksumOf;
  }

  ghost predicate Rotates(s: State, r: Reply) {
    && (forall id :: NotEarlier(LastOf(s, id), LastOf(r.state, id)))
    && (r.answer.Tokens? ==>
          var access, refresh := r.answer.access, r.answer.refresh;
          && access.user == refresh.user && access.issuedAt == refresh.issuedAt
          && access.mustChange == refresh.mustChange
          && (!access.mustChange ==>
                && LastOf(r.state, access.user) == Some(access.issuedAt)
                && Later(LastOf(s, access.user), LastOf(r.state, access.user))))
  }

  lemma ChangeRotates(s: State, id: int, current: string, next: string, strong: bool, now: Instant, fault: Fault)
    ensures var r := ChangeStep(s, id, current, next, strong, now, fault);
            Rotates(s, r) && (r.answer.Tokens? ==> r.answer.access.user == id && !r.answer.access.mustChange)
  {
    hide ChecksumOf;
  }

  lemma RefreshRotates(s: State, presented: Option<Token>, now: Instant, fault: Fault)
    ensures var r := RefreshStep(s, presented, now, fault);
            && Rotates(s, r) && r.answer != Done
            && (r.answer.Tokens? ==>
                  && presented.Some? && !presented.value.mustChange && presented.value.refresh
                  && r.answer.access.user == presented.value.user && !r.answer.access.mustChange
                  && !Superseded(LastOf(s, presented.value.user), presented.value))
  {
    hide Open, ValidateStep;
    if presented.Some? && presented.value.refresh && !presented.value.mustChange {
      var token := presented.value;
      var checked := ValidateStep(s, token, fault);
      ValidateKeeps(s, token, fault);
      if checked.answer == Done { OpenRotates(checked.state, token.user, false, now, fault); }
    }
  }

  lemma StepRotates(s: State, e: Event)
    ensures Rotates(s, Step(s, e))
  {
    hide Open, ValidateStep, RefreshStep, ChangeStep;
    match e.call
    case Login(name, password) =>
      if name in s.names && s.names[name] in s.users {
        OpenRotates(s, s.names[name], MustChange(s.users[s.names[name]]), e.now, e.fault);
      }
    case Refresh(presented) => RefreshRotates(s, presented, e.now, e.fault);
    case Validate(token) => ValidateKeeps(s, token, e.fault);
    case Revoke(_) =>
    case ChangePassword(id, current, next, strong) => ChangeRotates(s, id, current, next, strong, e.now, e.fault);
    case Administer(_, _, _, _) =>
    case Enrol(_, _, _) =>
  }

  // ---- whole runs ----

  lemma StateNext(s: State, run: seq<Event>, i: nat)
    requires i < |run|
    ensures StateAfter(s, run[..i + 1]) == Step(StateAfter(s, run[..i]), run[i]).state
  {
    assert run[..i + 1][..i] == run[..i];
  }

  /** Session times never go back, whatever the clock does. */
  lemma {:induction false} LastNeverGoesBack(s: State, run: seq<Event>, i: nat, j: nat, id: int)
    requires i <= j <= |run|
    ensures NotEarlier(LastOf(StateAfter(s, run[..i]), id), LastOf(StateAfter(s, run[..j]), id))
    decreases j
  {
    hide Step, StateAfter, LastOf;
    if i < j {
      LastNeverGoesBack(s, run, i, j - 1, id);
      StateNext(s, run, j - 1);
      StepRotates(StateAfter(s, run[..j - 1]), run[j - 1]);
    }
  }

  /** No token goes beyond its user's session time, except those of a first login that must change the password. */
  lemma TokenBound(s: State, run: seq<Event>, i: nat, token: Token)
    requires i <= |run| && IssuedBefore(s, run, i, token) && !token.mustChange
    ensures var last := LastOf(StateAfter(s, run[..i]), token.user);
            last.Some? && token.issuedAt <= last.value
  {
    hide Step, StateAfter, LastOf;
    var k :| 0 <= k < i && Gives(AnswerAt(s, run, k), token);
    StepRotates(StateAfter(s, run[..k]), run[k]);
    StateNext(s, run, k);
    LastNeverGoesBack(s, run, k + 1, i, token.user);
  }

  /** The call moves the user on to a new session. */
  predicate MovesOn(s: State, run: seq<Event>, i: nat, id: int)
    requires i < |run|
  {
    Later(LastOf(StateAfter(s, run[..i]), id), LastOf(StateAfter(s, run[..i + 1]), id))
  }

  /**
   Every accepted login, refresh and password change outside the first-login state moves its user on; so does a logout.
   */
  lemma SessionsMoveOn(s: State, run: seq<Event>, i: nat)
    requires i < |run|
    ensures AnswerAt(s, run, i).Tokens? && !AnswerAt(s, run, i).access.mustChange ==>
              MovesOn(s, run, i, AnswerAt(s, run, i).access.user)
    ensures run[i].call.Refresh? && AnswerAt(s, run, i).Tokens? ==>
              run[i].call.presented.Some? && MovesOn(s, run, i, run[i].call.presented.value.user)
    ensures run[i].call.ChangePassword? && AnswerAt(s, run, i).Tokens? ==> MovesOn(s, run, i, run[i].call.id)
    ensures (&& run[i].call.Revoke? && AnswerAt(s, run, i) == Done
             && !MustChange(StateAfter(s, run[..i]).users[run[i].call.id])) ==>
              MovesOn(s, run, i, run[i].call.id)
  {
    hide StateAfter, Open, ValidateStep, LoginStep, RefreshStep, ChangeStep, LastOf;
    var before := StateAfter(s, run[..i]);
    StateNext(s, run, i);
    StepRotates(before, run[i]);
    match run[i].call
    case Login(_, _) =>
    case Refresh(presented) => RefreshRotates(before, presented, run[i].now, run[i].fault);
    case Validate(_) =>
    case Revoke(id) => RevokeMovesOn(before, id, run[i].now, run[i].fault);
    case ChangePassword(id, current, next, strong) =>
      ChangeRotates(before, id, current, next, strong, run[i].now, run[i].fault);
    case Administer(_, _, _, _) =>
    case Enrol(_, _, _) =>
  }

  lemma RevokeMovesOn(s: State, id: int, now: Instant, fault: Fault)
    ensures var r := RevokeStep(s, id, now, fault);
            r.answer == Done ==>
              id in s.users && (!MustChange(s.users[id]) ==> Later(LastOf(s, id), LastOf(r.state, id)))
  {
  }

  /** Once its user has moved on, a token is refused for ever after. */
  lemma SupersededForever(s: State, run: seq<Event>, i: nat, j: nat, token: Token)
    requires i < j <= |run| && IssuedBefore(s, run, i, token) && !token.mustChange && MovesOn(s, run, i, token.user)
    ensures Superseded(LastOf(StateAfter(s, run[..j]), token.user), token)
    ensures !Valid(StateAfter(s, run[..j]), token)
  {
    hide Step, StateAfter, LastOf, ValidateStep;
    TokenBound(s, run, i, token);
    LastNeverGoesBack(s, run, i + 1, j, token.user);
    ValidateKeeps(StateAfter(s, run[..j]), token, NoFault);
  }

  /** A refresh token opens at most one session, however often and with whatever clock it is presented. */
  lemma RefreshAtMostOnce(s: State, run: seq<Event>, i: nat, j: nat)
    requires Genuine(s, run) && i < j < |run|
    requires run[i].call.Refresh? && run[i].call == run[j].call && AnswerAt(s, run, i).Tokens?
    ensures AnswerAt(s, run, j).Refused?
  {
    hide StateAfter, LastOf, ValidateStep, RefreshStep, MovesOn;
    var token := run[i].call.presented;
    RefreshRotates(StateAfter(s, run[..i]), token, run[i].now, run[i].fault);
    SessionsMoveOn(s, run, i);
    SupersededForever(s, run, i, j, token.value);
    RefreshRotates(StateAfter(s, run[..j]), token, run[j].now, run[j].fault);
  }

  /** No two sessions of a user share their time. */
  lemma SessionsDiffer(s: State, run: seq<Event>, i: nat, j: nat, token: Token, token': Token)
    requires i < j < |run| && Gives(AnswerAt(s, run, i), token) && Gives(AnswerAt(s, run, j), token')
    requires token.user == token'.user && !token.mustChange && !token'.mustChange
    ensures token.issuedAt < token'.issuedAt
  {
    hide Step, StateAfter, LastOf;
    TokenBound(s, run, j, token);
    StepRotates(StateAfter(s, run[..j]), run[j]);
  }

  predicate Active(s: State, id: int) { id in s.users && s.users[id].status == 1 }

  predicate RightsMatch(s: State, token: Token)
    requires token.user in s.users
  {
    var u := Resolved(s, s.users[token.user]);
    multiset(token.roles) == multiset(u.roles) && multiset(token.permissions) == multiset(u.permissions)
  }

  /** No name among the rights involved could be confused with a separator. */
  predicate PlainRights(s: State, token: Token) {
    && AllPlain(token.roles) && AllPlain(token.permissions)
    && (token.user in s.users ==>
          var u := Resolved(s, s.users[token.user]);
          AllPlain(u.roles) && AllPlain(u.permissions))
  }

  lemma ChecksumMatches(s: State, token: Token)
    requires token.user in s.users && PlainRights(s, token)
    requires ClaimedDigest(token) == ChecksumOf(token.roles, token.permissions)
    ensures var u := Resolved(s, s.users[token.user]);
            ClaimedDigest(token) == ChecksumOf(u.roles, u.permissions) <==> RightsMatch(s, token)
  {
    hide Payload, Resolved, Plain;
    var u := Resolved(s, s.users[token.user]);
    PayloadTellsRights(token.roles, token.permissions, u.roles, u.permissions);
  }

  /** Every token that the service hands out carries the checksum of its own rights. */
  lemma IssuedIsSigned(s: State, run: seq<Event>, i: nat, token: Token)
    requires i <= |run| && IssuedBefore(s, run, i, token)
    ensures ClaimedDigest(token) == ChecksumOf(token.roles, token.permissions)
  {
    hide StateAfter, ChecksumOf, Resolved, NextSession;
  }

  /**
   An issued token, first logins apart, is valid exactly when its user is active, its session is the latest one and the
   user's rights are still those that the token carries.
   */
  lemma ValidIffCurrent(s: State, run: seq<Event>, i: nat, token: Token)
    requires i <= |run| && IssuedBefore(s, run, i, token) && !token.mustChange
    requires PlainRights(StateAfter(s, run[..i]), token)
    ensures var now := StateAfter(s, run[..i]);
            Valid(now, token)
            <==> Active(now, token.user) && LastOf(now, token.user) == Some(token.issuedAt) && RightsMatch(now, token)
  {
    hide StateAfter, Payload, Resolved, RightsMatch, AnswerAt, PlainRights, ClaimedDigest;
    var now := StateAfter(s, run[..i]);
    TokenBound(s, run, i, token);
    IssuedIsSigned(s, run, i, token);
    if token.user in now.users { ChecksumMatches(now, token); }
  }

  // ---- the first login of the first administrator ----

  /**
   The token of a first login is not bound by the rule: after the password change it stays valid until the clock has
   moved past its issue, rights and status permitting.
   */
  lemma FirstLoginTokenOutlives(s: State, id: int, current: string, next: string, now: Instant, token: Token)
    requires id in s.users && MustChange(s.users[id]) && s.users[id].status == 1 && s.users[id].password == current
    requires current != next && token.user == id && Valid(s, token)
    ensures var r := ChangeStep(s, id, current, next, true, now, NoFault);
            r.answer.Tokens? && (Valid(r.state, token) <==> now <= token.issuedAt)
  {
    hide Payload;
  }
}
