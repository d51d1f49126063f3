/** Who can log in, over every run: the password is the one that the run's history gives. */
module SessionPasswords {
  import opened Wrappers
  import opened Session
  import opened SessionRotation

  /** The password change reaches the store, whatever happens to its later steps. */
  predicate Stores(fault: Fault) { !fault.LookupFails? && !fault.HashFails? && !fault.SaveFails? }

  /**
   The password of a user by the history alone: as stored at the start or given at enrolment, replaced by each change
   that names the password of the time and a strong, different new one.
   */
  function PasswordOf(s: State, run: seq<Event>, id: int): Option<string>
    decreases |run|
  {
    if run == [] then if id in s.users then Some(s.users[id].password) else None
    else
      var before := PasswordOf(s, run[..|run| - 1], id);
      var e := run[|run| - 1];
      match e.call
      case Enrol(id', _, user) =>
        if id' == id && before == None && user.lastLogin == None then Some(user.password) else before
      case ChangePassword(id', current, next, strong) =>
        if id' == id && before == Some(current) && strong && current != next && Stores(e.fault) then Some(next)
        else before
      case _ => before
  }

  /** A user that the names lead to. */
  function UserNamed(s: State, name: string): Option<int> {
    if name in s.names && s.names[name] in s.users then Some(s.names[name]) else None
  }

  // ---- the store follows the history ----

  predicate Holds(s: State, id: int, password: Option<string>) {
    if id in s.users then password == Some(s.users[id].password) else password == None
  }

  lemma OpenKeepsPasswords(s: State, id: int, mustChange: bool, now: Instant, fault: Fault, other: int)
    requires id in s.users
    ensures var s' := Open(s, id, mustChange, now, fault).state;
            (other in s'.users <==> other in s.users)
            && (other in s.users ==> s'.users[other].password == s.users[other].password)
  {
    hide Grant;
  }

  lemma ValidateKeepsPasswords(s: State, token: Token, fault: Fault, other: int)
    ensures var s' := ValidateStep(s, token, fault).state;
            (other in s'.users <==> other in s.users)
            && (other in s.users ==> s'.users[other].password == s.users[other].password)
  {
    hide ClaimedDigest, ChecksumOf;
  }

  lemma ChangeHolds(s: State, id: int, current: string, next: string, strong: bool, now: Instant, fault: Fault,
                    other: int, password: Option<string>)
    requires Holds(s, other, password)
    ensures Holds(ChangeStep(s, id, current, next, strong, now, fault).state, other,
                  if id == other && password == Some(current) && strong && current != next && Stores(fault)
                  then Some(next) else password)
  {
    hide Grant;
  }

  lemma StepHolds(s: State, e: Event, id: int, password: Option<string>)
    requires Holds(s, id, password)
    requires !e.call.ChangePassword? && !e.call.Enrol?
    ensures Holds(Step(s, e).state, id, password)
  {
    hide Open, ValidateStep, ChangeStep;
    match e.call
    case Login(name, given) =>
      if name in s.names && s.names[name] in s.users {
        OpenKeepsPasswords(s, s.names[name], MustChange(s.users[s.names[name]]), e.now, e.fault, id);
      }
    case Refresh(presented) =>
      if presented.Some? {
        ValidateKeepsPasswords(s, presented.value, e.fault, id);
        var checked := ValidateStep(s, presented.value, e.fault);
        ValidatedActive(s, presented.value, e.fault);
        if checked.answer == Done {
          OpenKeepsPasswords(checked.state, presented.value.user, false, e.now, e.fault, id);
        }
      }
    case Validate(token) => ValidateKeepsPasswords(s, token, e.fault, id);
    case Revoke(_) =>
    case Administer(_, _, _, _) =>
  }

  lemma StateFront(s: State, run: seq<Event>)
    requires run != []
    ensures StateAfter(s, run) == Step(StateAfter(s, run[..|run| - 1]), run[|run| - 1]).state
  {
  }

  lemma {:induction false} PasswordTracked(s: State, run: seq<Event>, id: int)
    ensures Holds(StateAfter(s, run), id, PasswordOf(s, run, id))
    decreases |run|
  {
    hide LoginStep, RefreshStep, ValidateStep, RevokeStep, ChangeStep, StateAfter;
    if run == [] {
      NothingHappened(s);
    } else {
      var front, e := run[..|run| - 1], run[|run| - 1];
      PasswordTracked(s, front, id);
      StateFront(s, run);
      match e.call {
        case ChangePassword(id', current, next, strong) =>
          ChangeHolds(StateAfter(s, front), id', current, next, strong, e.now, e.fault, id, PasswordOf(s, front, id));
        case Enrol(_, _, _) =>
        case _ => StepHolds(StateAfter(s, front), e, id, PasswordOf(s, front, id));
      }
    }
  }

  lemma NothingHappened(s: State)
    ensures StateAfter(s, []) == s
  {
  }

  // ---- logging in ----

  /**
   In every run a login is answered with tokens only if the name belongs to an active user and the password is the one
   that the history gives; with no failing step exactly then. The tokens are that user's.
   */
  lemma LoginNeedsPassword(s: State, run: seq<Event>, i: nat, name: string, given: string)
    requires i < |run| && run[i].call == Login(name, given)
    ensures var before := StateAfter(s, run[..i]);
            var named := UserNamed(before, name);
            var good := named.Some? && before.users[named.value].status == 1
                        && PasswordOf(s, run[..i], named.value) == Some(given);
            && (AnswerAt(s, run, i).Tokens? ==> good && AnswerAt(s, run, i).access.user == named.value
                                                && AnswerAt(s, run, i).refresh.user == named.value)
            && (run[i].fault == NoFault ==> (AnswerAt(s, run, i).Tokens? <==> good))
  {
    hide StateAfter, ChecksumOf, NextSession, PasswordOf;
    var before := StateAfter(s, run[..i]);
    if UserNamed(before, name).Some? { PasswordTracked(s, run[..i], UserNamed(before, name).value); }
  }

  /** A wrong password, or an unknown name, is refused as such and changes nothing; so is a disabled user. */
  lemma WrongLoginChangesNothing(s: State, run: seq<Event>, i: nat, name: string, given: string)
    requires i < |run| && run[i].call == Login(name, given) && run[i].fault != LookupFails
    ensures var before := StateAfter(s, run[..i]);
            var named := UserNamed(before, name);
            && (named == None || PasswordOf(s, run[..i], named.value) != Some(given) ==>
                  AnswerAt(s, run, i) == Refused(InvalidCredential) && StateAfter(s, run[..i + 1]) == before)
            && (named.Some? && PasswordOf(s, run[..i], named.value) == Some(given)
                && before.users[named.value].status != 1 ==>
                  AnswerAt(s, run, i) == Refused(UserDisabled) && StateAfter(s, run[..i + 1]) == before)
  {
    hide StateAfter, Open, PasswordOf;
    var before := StateAfter(s, run[..i]);
    StateNext(s, run, i);
    if UserNamed(before, name).Some? { PasswordTracked(s, run[..i], UserNamed(before, name).value); }
  }

  /**
   The first login of the first administrator: as long as the account has never opened a session, its tokens carry the
   duty to change the password, and logging in or out does not lift it; no other login carries it.
   */
  lemma FirstLoginCarriesDuty(s: State, run: seq<Event>, i: nat, name: string, given: string)
    requires i < |run| && run[i].call == Login(name, given) && AnswerAt(s, run, i).Tokens?
    ensures var before, id := StateAfter(s, run[..i]), AnswerAt(s, run, i).access.user;
            && id in before.users
            && (AnswerAt(s, run, i).access.mustChange <==> before.users[id].bootstrap && LastOf(before, id) == None)
            && (AnswerAt(s, run, i).access.mustChange ==> LastOf(StateAfter(s, run[..i + 1]), id) == None)
  {
    hide StateAfter, ChecksumOf;
    StateNext(s, run, i);
  }

  // ---- changing the password ----

  lemma PasswordAfter(s: State, run: seq<Event>, i: nat, id: int)
    requires i < |run|
    ensures PasswordOf(s, run[..i + 1], id)
            == match run[i].call
               case Enrol(id', _, user) =>
                 if id' == id && PasswordOf(s, run[..i], id) == None && user.lastLogin == None then Some(user.password)
                 else PasswordOf(s, run[..i], id)
               case ChangePassword(id', current, next, strong) =>
                 if id' == id && PasswordOf(s, run[..i], id) == Some(current) && strong && current != next
                    && Stores(run[i].fault)
                 then Some(next) else PasswordOf(s, run[..i], id)
               case _ => PasswordOf(s, run[..i], id)
  {
    assert run[..i + 1][..i] == run[..i];
  }

  /**
   In every run a password change is answered with tokens only if it names the user's password and a strong, different
   new one; with no failing step exactly then. From then on the new password is the user's.
   */
  lemma ChangeNeedsPassword(s: State, run: seq<Event>, i: nat, id: int, current: string, next: string, strong: bool)
    requires i < |run| && run[i].call == ChangePassword(id, current, next, strong)
    ensures var good := PasswordOf(s, run[..i], id) == Some(current) && strong && current != next;
            && (AnswerAt(s, run, i).Tokens? ==> good && PasswordOf(s, run[..i + 1], id) == Some(next))
            && (run[i].fault == NoFault ==> (AnswerAt(s, run, i).Tokens? <==> good))
            && (!good && !run[i].fault.LookupFails? ==>
                  AnswerAt(s, run, i).Refused? && StateAfter(s, run[..i + 1]) == StateAfter(s, run[..i]))
  {
    hide StateAfter, ChecksumOf, NextSession, PasswordOf;
    PasswordTracked(s, run[..i], id);
    PasswordAfter(s, run, i, id);
    StateNext(s, run, i);
  }

  /**
   Right after an accepted change the old password is refused for that user and the new one opens a session, if the user
   is active and reached by the name.
   */
  lemma ChangeSwapsPasswords(s: State, run: seq<Event>, id: int, current: string, next: string, strong: bool,
                             change: Event, name: string, login: Event, retry: Event)
    requires change.call == ChangePassword(id, current, next, strong) && AnswerAt(s, run + [change], |run|).Tokens?
    requires var after := StateAfter(s, run + [change]);
             UserNamed(after, name) == Some(id) && after.users[id].status == 1
    requires login.call == Login(name, current) && retry.call == Login(name, next)
    requires login.fault == NoFault && retry.fault == NoFault
    ensures AnswerAt(s, run + [change, login], |run| + 1) == Refused(InvalidCredential)
    ensures AnswerAt(s, run + [change, retry], |run| + 1).Tokens?
  {
    hide StateAfter, Step, PasswordOf;
    var changed, n := run + [change], |run|;
    assert changed[..n] == run && changed[..n + 1] == changed;
    ChangeNeedsPassword(s, changed, n, id, current, next, strong);
    assert (run + [change, login])[..n + 1] == changed && (run + [change, retry])[..n + 1] == changed;
    WrongLoginChangesNothing(s, run + [change, login], n + 1, name, current);
    LoginNeedsPassword(s, run + [change, retry], n + 1, name, next);
  }
}
