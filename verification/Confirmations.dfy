/** The security engine's sessions and confirmations (internal/security/policy.go).
    Every method runs under the engine's lock. */
module Confirmations {
  import opened ConfirmationModel
  import opened Options

  datatype Err = NoError | ErrDenied | ErrReplay | ErrExpired

  datatype Audit = Audit(at: int, principalID: string, sessionID: string, repositoryID: string, allowed: bool)

  class Engine {
    const policy: Policy
    var enrollments: map<string, Enrollment>
    var sessions: map<string, Session>
    var confirmations: map<string, Confirmation>
    var audit: seq<Audit>
    var drawn: set<string>          // random identifiers do not repeat
    var clock: int
    ghost var steps: seq<Step>

    constructor (policy: Policy)
      ensures Valid() && this.policy == policy && steps == [] && Model() == EMPTY && audit == []
    {
      this.policy := policy;
      enrollments, sessions, confirmations, audit := map[], map[], map[], [];
      drawn, clock, steps := {}, 0, [];
    }

    function Model(): Books
      reads this
    {
      Books(enrollments, sessions, confirmations, drawn, clock)
    }

    /** The engine is where a valid run has led. */
    ghost predicate Valid()
      reads this
    {
      ValidRun(policy, steps) && At(policy, steps, |steps|) == Model()
    }

    twostate predicate Did(step: Step)
      reads this
    {
      && Valid() && steps == old(steps) + [step]
      && Possible(old(Model()), step) && Model() == After(policy, old(Model()), step)
    }

    /** A random identifier, unless the source of randomness fails. */
    method NewOpaque(others: set<string>) returns (value: Option<string>)
      ensures value.Some? ==> value.value !in drawn && value.value !in others
    {
      var text: string := *;
      value := if text in drawn || text in others then None else Some(text);
    }

    /** Notes the step that the fields have just taken. */
    ghost method Note(before: Books, step: Step)
      requires ValidRun(policy, steps) && At(policy, steps, |steps|) == before
      requires Possible(before, step) && Model() == After(policy, before, step)
      modifies this`steps
      ensures Valid() && steps == old(steps) + [step]
    {
      ExtendRun(policy, steps, step);
      steps := steps + [step];
    }

    method EnrollRepository(principalID: string, repositoryID: string, filesystemID: string, now: int)
      returns (err: Err, ref: Option<string>)
      requires Valid() && clock <= now
      modifies this
      ensures Did(Step(Enroll(repositoryID, filesystemID, ref), now))
      ensures err == NoError <==> ref.Some?
      ensures err == NoError ==> audit == old(audit) + [Audit(now, principalID, "", repositoryID, true)]
      ensures enrollments == if ref.None? then old(enrollments)
        else old(enrollments)[repositoryID := Enrollment(filesystemID, policy.digest(ref.value))]
      ensures sessions == old(sessions) && confirmations == old(confirmations)
    {
      hide ValidRun, At;
      ghost var before := Model();
      err := ErrDenied;
      ref := NewOpaque({});
      if ref.Some? {
        enrollments := enrollments[repositoryID := Enrollment(filesystemID, policy.digest(ref.value))];
        audit := audit + [Audit(now, principalID, "", repositoryID, true)];
        drawn := drawn + {ref.value};
        err := NoError;
      }
      clock := now;
      Note(before, Step(Enroll(repositoryID, filesystemID, ref), now));
    }

    method OpenAuthenticatedSession(principalID: string, principalExpiry: int, repositoryID: string, ttl: int, now: int)
      returns (err: Err, session: Option<Session>, step: Step)
      requires Valid() && clock <= now
      modifies this
      ensures Did(step) && step.command.Open? && step.now == now && audit == old(audit)
      ensures err == NoError <==> Opens(old(Model()), step)
      ensures err == NoError <==> (
        && now < principalExpiry && 0 < ttl <= MAX_SESSION && repositoryID in old(enrollments)
        && step.command.id.Some? && step.command.nonce.Some?)
      ensures err == NoError ==> session.Some? && sessions == old(sessions)[session.value.id := session.value]
      ensures err != NoError ==> session == None && sessions == old(sessions)
      ensures enrollments == old(enrollments) && confirmations == old(confirmations)
      ensures err == NoError ==>
        && session == Some(Opened(step.command, now)) && session.value.id !in old(sessions)
        && session.value.principalID == principalID && session.value.repositoryID == repositoryID
        && now < session.value.expiresAt <= principalExpiry && session.value.expiresAt <= now + ttl
        && session.value.expiresAt in {principalExpiry, now + ttl}
    {
      hide ValidRun, At, After;
      ghost var before := Model();
      err, session := ErrDenied, None;
      var id, nonce := None, None;
      if now < principalExpiry && 0 < ttl <= MAX_SESSION && repositoryID in enrollments {
        id := NewOpaque({});
        if id.Some? {
          nonce := NewOpaque({id.value});
        }
        if id.Some? && nonce.Some? {
          var expiresAt := now + ttl;
          if principalExpiry < expiresAt {
            expiresAt := principalExpiry;
          }
          session := Some(Session(id.value, principalID, repositoryID, nonce.value, expiresAt));
          SessionIsNew(policy, steps, id.value);
          sessions := sessions[id.value := session.value];
          err := NoError;
        }
      }
      drawn := drawn + Given(id) + Given(nonce);
      clock := now;
      step := Step(Open(principalID, repositoryID, principalExpiry, ttl, id, nonce), now);
      AfterOpen(policy, before, step);
      Note(before, step);
    }

    static predicate Lapsed(sessions: map<string, Session>, id: string, now: int)
    {
      id !in sessions || sessions[id].expiresAt <= now
    }

    /** IssueOperatorConfirmation; the operator's channel has answered already. */
    method IssueOperatorConfirmation(scope: Scope, class_: Class, ttl: int, approved: bool, now: int)
      returns (err: Err, confirmation: Option<Confirmation>, step: Step)
      requires Valid() && clock <= now
      modifies this
      ensures Did(step) && step.now == now && audit == old(audit)
      ensures exists token :: step.command == Issue(scope, class_, ttl, approved, token)
      ensures err == NoError <==> Issues(old(Model()), step)
      ensures err == NoError <==> (
        && approved && 0 < ttl <= MAX_CONFIRMATION && scope.sessionID in old(sessions)
        && now < old(sessions)[scope.sessionID].expiresAt
        && old(sessions)[scope.sessionID].principalID == scope.principalID
        && old(sessions)[scope.sessionID].repositoryID == scope.repositoryID && step.command.token.Some?)
      ensures err == ErrExpired <==>
        approved && 0 < ttl <= MAX_CONFIRMATION && Lapsed(old(sessions), scope.sessionID, now)
      ensures err == NoError ==> confirmation == Some(Issued(step)) && Holds(Model(), confirmation.value)
      ensures err == NoError ==>
        && confirmation.Some? && confirmation.value.scope == scope && confirmation.value.class_ == class_
        && confirmation.value.expiresAt == now + ttl
        && confirmations == old(confirmations)[confirmation.value.token := confirmation.value]
      ensures err != NoError ==> confirmation == None && confirmations == old(confirmations)
      ensures enrollments == old(enrollments) && sessions == old(sessions)
    {
      hide ValidRun, At, After;
      ghost var before := Model();
      confirmation := None;
      var token := None;
      if !approved || !(0 < ttl <= MAX_CONFIRMATION) {
        err := ErrDenied;
      } else if scope.sessionID !in sessions || sessions[scope.sessionID].expiresAt <= now {
        err := ErrExpired;
      } else if sessions[scope.sessionID].principalID != scope.principalID
        || sessions[scope.sessionID].repositoryID != scope.repositoryID {
        err := ErrDenied;
      } else {
        err := ErrDenied;
        token := NewOpaque({});
        if token.Some? {
          confirmation := Some(Confirmation(token.value, class_, scope, now + ttl));
          confirmations := confirmations[token.value := confirmation.value];
          err := NoError;
        }
      }
      drawn := drawn + Given(token);
      clock := now;
      step := Step(Issue(scope, class_, ttl, approved, token), now);
      AfterIssue(policy, before, step);
      Note(before, step);
    }

    method RevokeSession(sessionID: string, now: int) returns (err: Err)
      requires Valid() && clock <= now
      modifies this
      ensures Did(Step(Revoke(sessionID), now)) && audit == old(audit)
      ensures err == if sessionID in old(sessions) then NoError else ErrExpired
      ensures sessionID !in sessions && forall t | t in confirmations :: confirmations[t].scope.sessionID != sessionID
    {
      hide ValidRun, At, After;
      ghost var before := Model();
      StepsAreSound(policy, steps);
      AfterRevoke(policy, before, Step(Revoke(sessionID), now));
      clock := now;
      if sessionID !in sessions {
        assert sessions == sessions - {sessionID};
        assert forall t | t in confirmations :: Belongs(before, confirmations[t].scope);
        Note(before, Step(Revoke(sessionID), now));
        return ErrExpired;
      }
      sessions := sessions - {sessionID};
      DropConfirmations(sessionID);
      assert confirmations == Revoked(before, sessionID);
      Note(before, Step(Revoke(sessionID), now));
      return NoError;
    }

    /** Deletes every confirmation of a session, in whatever order the map has. */
    method DropConfirmations(sessionID: string)
      modifies this`confirmations
      ensures confirmations == map t | t in old(confirmations) && old(confirmations)[t].scope.sessionID != sessionID ::
        old(confirmations)[t]
    {
      var todo := confirmations.Keys;
      while todo != {}
        invariant forall t | t in confirmations :: t in old(confirmations) && confirmations[t] == old(confirmations)[t]
        invariant forall t | t in old(confirmations) ::
          t in confirmations <==> t in todo || old(confirmations)[t].scope.sessionID != sessionID
        decreases |todo|
      {
        var token :| token in todo;
        if token in confirmations && confirmations[token].scope.sessionID == sessionID {
          confirmations := confirmations - {token};
        }
        todo := todo - {token};
      }
    }

    /** The record goes whether or not it matches. */
    method ConsumeConfirmation(request: Request, now: int) returns (ok: bool)
      requires RequiredClass(request.capability).Some?
      modifies this`confirmations
      ensures ok <==> old(Confirmed(Model(), request, now))
      ensures ok <==> (
        && request.token in old(confirmations)
        && old(confirmations)[request.token].scope == request.scope && request.scope.sessionID == request.sessionID
        && (old(confirmations)[request.token].class_ == if request.capability == Integrate then Destructive
                                                      else Publication)
        && now < old(confirmations)[request.token].expiresAt)
      ensures confirmations == old(confirmations) - {request.token}
    {
      ok := request.token in confirmations
        && confirmations[request.token].scope.sessionID == request.sessionID
        && Some(confirmations[request.token].class_) == RequiredClass(request.capability)
        && now < confirmations[request.token].expiresAt
        && confirmations[request.token].scope == request.scope;
      if request.token in confirmations {
        confirmations := confirmations - {request.token};
      }
      assert request.token !in old(confirmations) ==> old(confirmations) == old(confirmations) - {request.token};
    }

    method Authorize(request: Request, place: Place, now: int) returns (err: Err, nextNonce: Option<string>, step: Step)
      requires Valid() && clock <= now
      modifies this
      ensures Did(step) && step.now == now
      ensures exists next :: step.command == ConfirmationModel.Authorize(request, place, next)
      ensures err == NoError <==> Allows(policy, old(Model()), step)
      ensures err == NoError ==>
        nextNonce == step.command.next && nextNonce.Some? && Admissible(request, nextNonce.value)
      ensures err != NoError ==> nextNonce == None
      ensures err == ErrExpired <==> !LiveSession(old(Model()), request.sessionID, now)
      ensures err == ErrReplay <==> Misspoken(old(sessions), request, now)
      ensures enrollments == old(enrollments)
      ensures sessions == if old(InOrder(Model(), request, place, now)) && step.command.next.Some?
        then old(sessions)[request.sessionID := old(sessions)[request.sessionID].(nonce := step.command.next.value)]
        else old(sessions)
      ensures confirmations == if old(Uses(policy, Model(), step)) then old(confirmations) - {request.token}
        else old(confirmations)
      ensures audit == old(audit) +
        [Audit(now, request.principalID, request.sessionID, request.repositoryID, err == NoError)]
    {
      hide ValidRun, At;
      ghost var before := Model();
      var next;
      err, next := Decide(request, place, now);
      nextNonce := if err == NoError then next else None;
      audit := audit + [Audit(now, request.principalID, request.sessionID, request.repositoryID, err == NoError)];
      clock := now;
      step := Step(ConfirmationModel.Authorize(request, place, next), now);
      Note(before, step);
    }

    /** The session goes on with the nonce it was told. */
    predicate Admissible(request: Request, nonce: string)
      reads this
    {
      request.sessionID in sessions && sessions[request.sessionID].nonce == nonce
    }

    /** A live session is named with the wrong principal, repository or nonce. */
    static predicate Misspoken(sessions: map<string, Session>, request: Request, now: int)
    {
      request.sessionID in sessions && now < sessions[request.sessionID].expiresAt
      && (sessions[request.sessionID].principalID != request.principalID
          || sessions[request.sessionID].repositoryID != request.repositoryID
          || request.nonce == "" || sessions[request.sessionID].nonce != request.nonce)
    }

    method Decide(request: Request, place: Place, now: int) returns (err: Err, next: Option<string>)
      requires clock <= now
      modifies this`sessions, this`confirmations, this`drawn
      ensures var step := Step(ConfirmationModel.Authorize(request, place, next), now);
        && Possible(old(Model()), step) && Model().(now := now) == After(policy, old(Model()), step)
        && (err == NoError <==> Allows(policy, old(Model()), step))
      ensures err == NoError ==> next.Some? && Admissible(request, next.value)
      ensures err == ErrExpired <==> !LiveSession(old(Model()), request.sessionID, now)
      ensures err == ErrReplay <==> Misspoken(old(sessions), request, now)
    {
      next := None;
      if request.sessionID !in sessions || sessions[request.sessionID].expiresAt <= now {
        return ErrExpired, next;
      }
      var session := sessions[request.sessionID];
      if session.principalID != request.principalID || session.repositoryID != request.repositoryID
         || request.nonce == "" || request.nonce != session.nonce {
        return ErrReplay, next;
      }
      if request.repositoryID !in enrollments || place.repositoryID != request.repositoryID || place.filesystemID == ""
         || enrollments[request.repositoryID].filesystemID != place.filesystemID {
        return ErrDenied, next;
      }
      next := NewOpaque({});
      if next.None? {
        return ErrDenied, next;
      }
      sessions := sessions[request.sessionID := session.(nonce := next.value)];
      drawn := drawn + {next.value};
      if request.capability !in policy.capabilities || !policy.compiles(place) || !policy.targets(request, place) {
        return ErrDenied, next;
      }
      if RequiredClass(request.capability).Some? {
        var ok := ConsumeConfirmation(request, now);
        if !ok {
          return ErrDenied, next;
        }
      }
      if request.capability in {Integrate, Publish} {
        if request.trustedRef == ""
          || policy.digest(request.trustedRef) != enrollments[request.repositoryID].refDigest {
          return ErrDenied, next;
        }
      }
      if request.capability == Execute && !policy.executes(request) {
        return ErrDenied, next;
      }
      return NoError, next;
    }
  }

  /** What a step other than a request leaves, from the records it changes. */
  lemma {:induction false} AfterOpen(policy: Policy, s: Books, step: Step)
    requires step.command.Open?
    ensures After(policy, s, step) == Books(s.enrollments,
      if Opens(s, step) then s.sessions[step.command.id.value := Opened(step.command, step.now)] else s.sessions,
      s.confirmations, s.drawn + Given(step.command.id) + Given(step.command.nonce), step.now)
  {
    assert Drawn(step.command) == Given(step.command.id) + Given(step.command.nonce);
  }

  lemma {:induction false} AfterIssue(policy: Policy, s: Books, step: Step)
    requires step.command.Issue?
    ensures After(policy, s, step) == Books(s.enrollments, s.sessions,
      if Issues(s, step) then s.confirmations[step.command.token.value := Issued(step)] else s.confirmations,
      s.drawn + Given(step.command.token), step.now)
  {
  }

  lemma {:induction false} AfterRevoke(policy: Policy, s: Books, step: Step)
    requires step.command.Revoke?
    ensures After(policy, s, step) == Books(s.enrollments, s.sessions - {step.command.sessionID},
      Revoked(s, step.command.sessionID), s.drawn, step.now)
  {
  }

  lemma {:induction false} StepsAreSound(policy: Policy, steps: seq<Step>)
    requires ValidRun(policy, steps)
    ensures Sound(At(policy, steps, |steps|))
  {
    hide ValidRun, After, Sound;
    if steps == [] {
      StartIsSound();
    } else {
      RunStep(policy, steps, |steps| - 1);
    }
  }

  lemma {:induction false} SessionIsNew(policy: Policy, steps: seq<Step>, id: string)
    requires ValidRun(policy, steps) && id !in At(policy, steps, |steps|).drawn
    ensures id !in At(policy, steps, |steps|).sessions
  {
    StepsAreSound(policy, steps);
  }
}
