/** Sessions, their rotating nonces and one-time operator confirmations over
    whole runs of one engine (internal/security/policy.go). Opaque identifiers
    are drawn fresh, and a draw may fail; what an operator answers and what the
    policy says of a request are parameters. */
module ConfirmationModel {
  import opened Options

  const MAX_SESSION := 24 * 60 * 60 * 1_000_000_000
  const MAX_CONFIRMATION := 60 * 60 * 1_000_000_000

  datatype Capability = Integrate | Publish | Execute | OtherCapability(name: string)
  datatype Class = Destructive | Publication

  /** What a human operator approved. */
  datatype Scope = Scope(action: string, repositoryID: string, principalID: string, sessionID: string,
                         generationID: string, fence: nat, candidate: string, plan: string)

  datatype Session = Session(id: string, principalID: string, repositoryID: string, nonce: string, expiresAt: int)
  datatype Confirmation = Confirmation(token: string, class_: Class, scope: Scope, expiresAt: int)
  datatype Enrollment = Enrollment(filesystemID: string, refDigest: string)

  datatype Request = Request(sessionID: string, principalID: string, repositoryID: string, nonce: string,
                             capability: Capability,
                             details: string, trustedRef: string, token: string, scope: Scope)
  datatype Place = Place(repositoryID: string, filesystemID: string, paths: string)

  datatype Policy = Policy(capabilities: set<Capability>, compiles: Place -> bool, targets: (Request, Place) -> bool,
                           executes: Request -> bool, digest: string -> string)

  datatype Books = Books(enrollments: map<string, Enrollment>, sessions: map<string, Session>,
                         confirmations: map<string, Confirmation>, drawn: set<string>, now: int)

  const EMPTY := Books(map[], map[], map[], {}, 0)

  // ------------------------------------------------------------------ steps

  datatype Command =
    | Enroll(repositoryID: string, filesystemID: string, ref: Option<string>)
    | Open(principalID: string, repositoryID: string, principalExpiry: int, ttl: int, id: Option<string>,
      nonce: Option<string>)
    | Issue(scope: Scope, class_: Class, ttl: int, approved: bool, token: Option<string>)
    | Revoke(sessionID: string)
    | Authorize(request: Request, place: Place, next: Option<string>)

  datatype Step = Step(command: Command, now: int)

  function Drawn(command: Command): set<string>
  {
    match command
    case Enroll(_, _, ref) => Given(ref)
    case Open(_, _, _, _, id, nonce) => Given(id) + Given(nonce)
    case Issue(_, _, _, _, token) => Given(token)
    case Revoke(_) => {}
    case Authorize(_, _, next) => Given(next)
  }

  function Given(drawn: Option<string>): set<string>
  {
    if drawn.Some? then {drawn.value} else {}
  }

  /** The clock does not go back, and nothing is drawn twice. */
  predicate Possible(s: Books, step: Step)
  {
    s.now <= step.now && Drawn(step.command) !! s.drawn
    && (step.command.Open? && step.command.id.Some? ==> step.command.id != step.command.nonce)
  }

  predicate LiveSession(s: Books, id: string, now: int)
  {
    id in s.sessions && now < s.sessions[id].expiresAt
  }

  function Opened(command: Command, now: int): Session
    requires command.Open? && command.id.Some? && command.nonce.Some?
  {
    Session(command.id.value, command.principalID, command.repositoryID, command.nonce.value,
      if command.principalExpiry < now + command.ttl then command.principalExpiry else now + command.ttl)
  }

  predicate Opens(s: Books, step: Step)
  {
    && step.command.Open? && step.now < step.command.principalExpiry && 0 < step.command.ttl <= MAX_SESSION
    && step.command.repositoryID in s.enrollments && step.command.id.Some? && step.command.nonce.Some?
  }

  predicate Issues(s: Books, step: Step)
  {
    && step.command.Issue? && step.command.approved && 0 < step.command.ttl <= MAX_CONFIRMATION
      && step.command.token.Some?
    && var scope := step.command.scope;
       && LiveSession(s, scope.sessionID, step.now)
       && s.sessions[scope.sessionID].principalID == scope.principalID
       && s.sessions[scope.sessionID].repositoryID == scope.repositoryID
  }

  function Issued(step: Step): Confirmation
    requires step.command.Issue? && step.command.token.Some?
  {
    Confirmation(step.command.token.value, step.command.class_, step.command.scope, step.now + step.command.ttl)
  }

  /** The request names the session's parties and its current nonce, and the
      repository is enrolled from this file system. */
  predicate Admits(s: Books, request: Request, place: Place, now: int)
  {
    && LiveSession(s, request.sessionID, now)
    && var session := s.sessions[request.sessionID];
       && session.principalID == request.principalID && session.repositoryID == request.repositoryID
       && request.nonce != "" && request.nonce == session.nonce
       && request.repositoryID in s.enrollments && place.repositoryID == request.repositoryID
       && place.filesystemID != "" && s.enrollments[request.repositoryID].filesystemID == place.filesystemID
  }

  predicate Rotates(s: Books, step: Step)
  {
    step.command.Authorize? && Admits(s, step.command.request, step.command.place, step.now) && step.command.next.Some?
  }

  function RequiredClass(capability: Capability): Option<Class>
  {
    match capability
    case Integrate => Some(Destructive)
    case Publish => Some(Publication)
    case _ => None
  }

  predicate PolicyAllows(policy: Policy, request: Request, place: Place)
  {
    request.capability in policy.capabilities && policy.compiles(place) && policy.targets(request, place)
  }

  /** The step gets as far as consuming its confirmation token. */
  predicate Presents(policy: Policy, s: Books, step: Step)
  {
    && step.command.Authorize? && Rotates(s, step) && PolicyAllows(policy, step.command.request, step.command.place)
    && RequiredClass(step.command.request.capability).Some?
  }

  predicate Matches(c: Confirmation, request: Request, now: int)
  {
    && c.scope.sessionID == request.sessionID && RequiredClass(request.capability) == Some(c.class_)
    && now < c.expiresAt && c.scope == request.scope
  }

  predicate Confirmed(s: Books, request: Request, now: int)
  {
    request.token in s.confirmations && Matches(s.confirmations[request.token], request, now)
  }

  predicate Finishes(policy: Policy, s: Books, request: Request)
  {
    && (request.capability in {Integrate, Publish} ==>
          request.repositoryID in s.enrollments && request.trustedRef != ""
          && policy.digest(request.trustedRef) == s.enrollments[request.repositoryID].refDigest)
    && (request.capability == Execute ==> policy.executes(request))
  }

  predicate Allows(policy: Policy, s: Books, step: Step)
  {
    && Rotates(s, step) && PolicyAllows(policy, step.command.request, step.command.place)
    && (RequiredClass(step.command.request.capability).Some? ==> Confirmed(s, step.command.request, step.now))
    && Finishes(policy, s, step.command.request)
  }

  function Rotated(s: Books, request: Request, next: string): map<string, Session>
  {
    if request.sessionID in s.sessions
    then s.sessions[request.sessionID := s.sessions[request.sessionID].(nonce := next)]
    else s.sessions
  }

  function Revoked(s: Books, id: string): map<string, Confirmation>
  {
    if id in s.sessions
    then map t | t in s.confirmations && s.confirmations[t].scope.sessionID != id :: s.confirmations[t]
    else s.confirmations
  }

  function Sessions(policy: Policy, s: Books, step: Step): map<string, Session>
  {
    if Opens(s, step) then s.sessions[step.command.id.value := Opened(step.command, step.now)]
    else if Rotates(s, step) then Rotated(s, step.command.request, step.command.next.value)
    else if step.command.Revoke? then s.sessions - {step.command.sessionID}
    else s.sessions
  }

  function Confirmations(policy: Policy, s: Books, step: Step): map<string, Confirmation>
  {
    if Issues(s, step) then s.confirmations[step.command.token.value := Issued(step)]
    else if Presents(policy, s, step) then s.confirmations - {step.command.request.token}
    else if step.command.Revoke? then Revoked(s, step.command.sessionID)
    else s.confirmations
  }

  function Enrollments(policy: Policy, s: Books, step: Step): map<string, Enrollment>
  {
    if step.command.Enroll? && step.command.ref.Some?
    then s.enrollments[step.command.repositoryID :=
      Enrollment(step.command.filesystemID, policy.digest(step.command.ref.value))]
    else s.enrollments
  }

  function After(policy: Policy, s: Books, step: Step): Books
  {
    Books(Enrollments(policy, s, step), Sessions(policy, s, step), Confirmations(policy, s, step),
      s.drawn + Drawn(step.command), step.now)
  }

  /** The books after the first `n` steps. */
  function At(policy: Policy, steps: seq<Step>, n: nat): Books
    requires n <= |steps|
    decreases n
  {
    if n == 0 then EMPTY else After(policy, At(policy, steps, n - 1), steps[n - 1])
  }

  ghost predicate ValidRun(policy: Policy, steps: seq<Step>)
  {
    forall n | 0 <= n < |steps| :: Possible(At(policy, steps, n), steps[n])
  }

  /** Sessions have nonces of their own, and a confirmation belongs to a session
      of the principal and repository that it names. */
  ghost predicate Sound(s: Books)
  {
    && (forall id | id in s.sessions :: s.sessions[id].id == id && id in s.drawn && s.sessions[id].nonce in s.drawn)
    && (forall a, b | a in s.sessions && b in s.sessions && a != b :: s.sessions[a].nonce != s.sessions[b].nonce)
    && (forall t | t in s.confirmations ::
      s.confirmations[t].token == t && t in s.drawn && Belongs(s, s.confirmations[t].scope))
  }

  ghost predicate Belongs(s: Books, scope: Scope)
  {
    && scope.sessionID in s.sessions
    && s.sessions[scope.sessionID].principalID == scope.principalID
    && s.sessions[scope.sessionID].repositoryID == scope.repositoryID
  }

  lemma {:induction false} SessionsStaySound(policy: Policy, s: Books, step: Step)
    requires Sound(s) && Possible(s, step)
    ensures var next := After(policy, s, step);
      && (forall id | id in next.sessions ::
        next.sessions[id].id == id && id in next.drawn && next.sessions[id].nonce in next.drawn)
      && (forall a, b | a in next.sessions && b in next.sessions && a != b ::
        next.sessions[a].nonce != next.sessions[b].nonce)
  {
    hide Belongs, Enrollments, Confirmations, Issues;
  }

  lemma {:induction false} BelongsStays(policy: Policy, s: Books, step: Step, scope: Scope)
    requires Sound(s) && Possible(s, step) && Belongs(s, scope) && step.command != Revoke(scope.sessionID)
    ensures Belongs(After(policy, s, step), scope)
  {
    hide Enrollments, Confirmations, Issues;
  }

  lemma {:induction false} StepKeepsSound(policy: Policy, s: Books, step: Step)
    requires Sound(s) && Possible(s, step)
    ensures Sound(After(policy, s, step))
  {
    SessionsStaySound(policy, s, step);
    var next := After(policy, s, step);
    forall t | t in next.confirmations
      ensures next.confirmations[t].token == t && t in next.drawn && Belongs(next, next.confirmations[t].scope)
    {
      hide Sessions, Enrollments, Rotates, Presents;
      BelongsStays(policy, s, step, next.confirmations[t].scope);
    }
  }

  lemma {:induction false} StartIsSound()
    ensures Sound(EMPTY)
  {
  }

  lemma {:induction false} RunStep(policy: Policy, steps: seq<Step>, n: nat)
    requires ValidRun(policy, steps) && n < |steps|
    ensures Possible(At(policy, steps, n), steps[n]) && Sound(At(policy, steps, n))
    ensures At(policy, steps, n + 1) == After(policy, At(policy, steps, n), steps[n])
    ensures Sound(At(policy, steps, n + 1))
    decreases n
  {
    hide Possible, Sound, After;
    StartIsSound();
    if n > 0 {
      RunStep(policy, steps, n - 1);
    }
    StepKeepsSound(policy, At(policy, steps, n), steps[n]);
  }

  lemma {:induction false} AtPrefix(policy: Policy, steps: seq<Step>, more: seq<Step>, n: nat)
    requires n <= |steps|
    ensures At(policy, steps + more, n) == At(policy, steps, n)
    decreases n
  {
    hide After;
    if n > 0 {
      AtPrefix(policy, steps, more, n - 1);
    }
  }

  lemma {:induction false} ExtendRun(policy: Policy, steps: seq<Step>, step: Step)
    requires ValidRun(policy, steps) && Possible(At(policy, steps, |steps|), step)
    ensures ValidRun(policy, steps + [step])
    ensures At(policy, steps + [step], |steps| + 1) == After(policy, At(policy, steps, |steps|), step)
  {
    hide After, Possible;
    var longer := steps + [step];
    forall n | 0 <= n < |longer| ensures Possible(At(policy, longer, n), longer[n]) {
      AtPrefix(policy, steps, [step], n);
    }
    AtPrefix(policy, steps, [step], |steps|);
  }

  // ----------------------------------------------------- one-time confirmations

  predicate Holds(s: Books, c: Confirmation)
  {
    c.token in s.confirmations && s.confirmations[c.token] == c
  }

  predicate IssuesThis(s: Books, step: Step, c: Confirmation)
  {
    Issues(s, step) && Issued(step) == c
  }

  /** The step presents the confirmation's token, or revokes its session. */
  predicate Voids(policy: Policy, s: Books, step: Step, c: Confirmation)
  {
    || (Presents(policy, s, step) && step.command.request.token == c.token)
    || step.command == Revoke(c.scope.sessionID)
  }

  lemma {:induction false} HoldsAfter(policy: Policy, s: Books, step: Step, c: Confirmation)
    requires Sound(s) && Possible(s, step)
    ensures Holds(After(policy, s, step), c)
       <==> IssuesThis(s, step, c) || (Holds(s, c) && !Voids(policy, s, step, c))
  {
    hide Sessions, Enrollments, Rotates, LiveSession, PolicyAllows;
    if step.command == Revoke(c.scope.sessionID) && Holds(s, c) {
      assert Belongs(s, c.scope);
    }
  }

  /** Step `i` issued the confirmation and no step from there to `n` voided it. */
  ghost predicate IssuedBy(policy: Policy, steps: seq<Step>, i: nat, n: nat, c: Confirmation)
    requires i < n <= |steps|
  {
    IssuesThis(At(policy, steps, i), steps[i], c) && forall k | i < k < n ::
      !Voids(policy, At(policy, steps, k), steps[k], c)
  }

  /** A confirmation is on the books exactly when an operator approved it and
      since then its token has not been presented nor its session revoked. */
  lemma {:induction false} HeldExactlyWhenIssued(policy: Policy, steps: seq<Step>, n: nat, c: Confirmation)
    requires ValidRun(policy, steps) && n <= |steps|
    ensures Holds(At(policy, steps, n), c) <==> exists i | 0 <= i < n :: IssuedBy(policy, steps, i, n, c)
    decreases n
  {
    hide Possible, Sound, After, ValidRun, IssuesThis, Voids;
    if n > 0 {
      var s := At(policy, steps, n - 1);
      HeldExactlyWhenIssued(policy, steps, n - 1, c);
      RunStep(policy, steps, n - 1);
      HoldsAfter(policy, s, steps[n - 1], c);
      if IssuesThis(s, steps[n - 1], c) {
        assert IssuedBy(policy, steps, n - 1, n, c);
      } else if Holds(s, c) {
        var i :| 0 <= i < n - 1 && IssuedBy(policy, steps, i, n - 1, c);
        assert Voids(policy, s, steps[n - 1], c) || IssuedBy(policy, steps, i, n, c);
      }
      if i :| 0 <= i < n - 1 && IssuedBy(policy, steps, i, n, c) {
        assert IssuedBy(policy, steps, i, n - 1, c) && !Voids(policy, s, steps[n - 1], c);
      }
    } else {
      assert !Holds(EMPTY, c);
    }
  }

  predicate Protected(command: Command)
  {
    command.Authorize? && RequiredClass(command.request.capability).Some?
  }

  /** The confirmation that an operator issued for exactly this request. */
  predicate Covers(c: Confirmation, request: Request, now: int)
  {
    c.token == request.token && Matches(c, request, now)
  }

  ghost predicate OperatorApproved(policy: Policy, steps: seq<Step>, n: nat, request: Request, now: int)
    requires n <= |steps|
  {
    exists i, c: Confirmation | 0 <= i < n :: IssuedBy(policy, steps, i, n, c) && Covers(c, request, now)
  }

  /** An integration or a publication is allowed exactly when, everything else
      being in order, an operator approved this very scope in this session with
      the class that the capability needs, the approval has not expired, and
      neither was its token presented before nor its session revoked. */
  lemma {:induction false} AllowedExactlyWhenApproved(policy: Policy, steps: seq<Step>, n: nat)
    requires ValidRun(policy, steps) && n < |steps| && Protected(steps[n].command)
    ensures var s, request := At(policy, steps, n), steps[n].command.request;
      Allows(policy, s, steps[n])
      <==> Rotates(s, steps[n]) && PolicyAllows(policy, request, steps[n].command.place) && Finishes(policy, s, request)
           && OperatorApproved(policy, steps, n, request, steps[n].now)
  {
    hide Possible, After, ValidRun, IssuedBy, Rotates, PolicyAllows, Finishes;
    var s, request, now := At(policy, steps, n), steps[n].command.request, steps[n].now;
    RunStep(policy, steps, n);
    if Confirmed(s, request, now) {
      var c := s.confirmations[request.token];
      HeldExactlyWhenIssued(policy, steps, n, c);
      var i :| 0 <= i < n && IssuedBy(policy, steps, i, n, c);
      assert Covers(c, request, now);
    }
    if OperatorApproved(policy, steps, n, request, now) {
      var i, c: Confirmation :| 0 <= i < n && IssuedBy(policy, steps, i, n, c) && Covers(c, request, now);
      HeldExactlyWhenIssued(policy, steps, n, c);
    }
  }

  /** The request names the live session's parties and current nonce, from the
      file system that the repository is enrolled from. */
  predicate InOrder(s: Books, request: Request, place: Place, now: int)
  {
    && request.sessionID in s.sessions && now < s.sessions[request.sessionID].expiresAt
    && s.sessions[request.sessionID].principalID == request.principalID
    && s.sessions[request.sessionID].repositoryID == request.repositoryID
    && s.sessions[request.sessionID].nonce == request.nonce != ""
    && request.repositoryID in s.enrollments && place.repositoryID == request.repositoryID
    && s.enrollments[request.repositoryID].filesystemID == place.filesystemID != ""
  }

  /** The request gets as far as the check of its confirmation token. */
  predicate Uses(policy: Policy, s: Books, step: Step)
  {
    && step.command.Authorize? && step.command.next.Some? && step.command.request.capability in {Integrate, Publish}
    && InOrder(s, step.command.request, step.command.place, step.now)
    && step.command.request.capability in policy.capabilities && policy.compiles(step.command.place)
    && policy.targets(step.command.request, step.command.place)
  }

  /** Step `i` is an operator's approval of the scope, session and token that step
      `n` presents, with the class that its capability needs and not yet expired;
      the session was live and of the same parties, and since then neither has the
      token been presented nor the session revoked. */
  ghost predicate ApprovedBy(policy: Policy, steps: seq<Step>, i: nat, n: nat)
    requires i < n < |steps| && steps[n].command.Authorize?
  {
    var s, request, issue := At(policy, steps, i), steps[n].command.request, steps[i].command;
    && issue.Issue? && issue.approved && issue.token == Some(request.token) && issue.scope == request.scope
    && issue.class_ == (if request.capability == Integrate then Destructive else Publication)
    && 0 < issue.ttl <= MAX_CONFIRMATION && steps[n].now < steps[i].now + issue.ttl
    && request.scope.sessionID == request.sessionID && request.sessionID in s.sessions
    && steps[i].now < s.sessions[request.sessionID].expiresAt
    && s.sessions[request.sessionID].principalID == request.scope.principalID
    && s.sessions[request.sessionID].repositoryID == request.scope.repositoryID
    && forall k | i < k < n ::
      steps[k].command != Revoke(request.sessionID)
      && !(Uses(policy, At(policy, steps, k), steps[k]) && steps[k].command.request.token == request.token)
  }

  lemma {:induction false} ApprovalIsIssue(policy: Policy, steps: seq<Step>, i: nat, n: nat, c: Confirmation)
    requires i < n < |steps| && Protected(steps[n].command)
    ensures var request := steps[n].command.request;
      IssuedBy(policy, steps, i, n, c) && Covers(c, request, steps[n].now)
      <==> ApprovedBy(policy, steps, i, n) && c == Issued(steps[i])
  {
    hide At, After, Uses, Presents;
    forall k | i < k < n
      ensures Presents(policy, At(policy, steps, k), steps[k]) <==> Uses(policy, At(policy, steps, k), steps[k])
    {
      PresentsUses(policy, At(policy, steps, k), steps[k]);
    }
  }

  lemma {:induction false} PresentsUses(policy: Policy, s: Books, step: Step)
    ensures Presents(policy, s, step) <==> Uses(policy, s, step)
  {
  }

  /** Main result: what an allowed request has behind it, field by field, over
      every run. An integration or a publication needs an operator's approval of
      exactly its scope, unexpired, unused and not revoked. */
  lemma {:induction false} AllowedOnRecord(policy: Policy, steps: seq<Step>, n: nat)
    requires ValidRun(policy, steps) && n < |steps| && steps[n].command.Authorize?
    ensures var s, request, place := At(policy, steps, n), steps[n].command.request, steps[n].command.place;
      Allows(policy, s, steps[n])
      <==>
      && InOrder(s, request, place, steps[n].now) && steps[n].command.next.Some?
      && request.capability in policy.capabilities && policy.compiles(place) && policy.targets(request, place)
      && (request.capability == Execute ==> policy.executes(request))
      && (request.capability in {Integrate, Publish} ==>
            && request.trustedRef != ""
            && policy.digest(request.trustedRef) == s.enrollments[request.repositoryID].refDigest
            && exists i | 0 <= i < n :: ApprovedBy(policy, steps, i, n))
  {
    hide At, ValidRun, ApprovedBy, OperatorApproved, Confirmed, After;
    var s, request, now := At(policy, steps, n), steps[n].command.request, steps[n].now;
    if Protected(steps[n].command) {
      AllowedExactlyWhenApproved(policy, steps, n);
      ApprovedMeans(policy, steps, n);
    }
  }

  lemma {:induction false} ApprovedMeans(policy: Policy, steps: seq<Step>, n: nat)
    requires n < |steps| && Protected(steps[n].command)
    ensures OperatorApproved(policy, steps, n, steps[n].command.request, steps[n].now)
       <==> exists i | 0 <= i < n :: ApprovedBy(policy, steps, i, n)
  {
    hide At, ApprovedBy, IssuedBy, Covers;
    var request, now := steps[n].command.request, steps[n].now;
    if i, c: Confirmation :| 0 <= i < n && IssuedBy(policy, steps, i, n, c) && Covers(c, request, now) {
      ApprovalIsIssue(policy, steps, i, n, c);
    }
    if i :| 0 <= i < n && ApprovedBy(policy, steps, i, n) {
      IsIssue(policy, steps, i, n);
      ApprovalIsIssue(policy, steps, i, n, Issued(steps[i]));
    }
  }

  lemma {:induction false} IsIssue(policy: Policy, steps: seq<Step>, i: nat, n: nat)
    requires i < n < |steps| && Protected(steps[n].command) && ApprovedBy(policy, steps, i, n)
    ensures steps[i].command.Issue? && steps[i].command.token.Some?
  {
  }

  /** The approval behind an allowed step is for the principal and the
      repository of the session that made the request. */
  lemma {:induction false} ApprovalIsTheSessions(policy: Policy, steps: seq<Step>, n: nat)
    requires ValidRun(policy, steps) && n < |steps| && Protected(steps[n].command)
      && Allows(policy, At(policy, steps, n), steps[n])
    ensures var s, request := At(policy, steps, n), steps[n].command.request;
      && LiveSession(s, request.sessionID, steps[n].now)
      && request.scope.sessionID == request.sessionID
      && request.scope.principalID == s.sessions[request.sessionID].principalID == request.principalID
      && request.scope.repositoryID == s.sessions[request.sessionID].repositoryID == request.repositoryID
  {
    hide Possible, After, ValidRun, PolicyAllows, Finishes;
    RunStep(policy, steps, n);
  }

  ghost predicate NoConfirmation(s: Books, token: string)
  {
    token in s.drawn && token !in s.confirmations
  }

  lemma {:induction false} SpentTokenStaysSpent(policy: Policy, s: Books, step: Step, token: string)
    requires Possible(s, step) && NoConfirmation(s, token)
    ensures NoConfirmation(After(policy, s, step), token)
  {
    hide Sessions, Enrollments, Rotates, LiveSession, PolicyAllows;
  }

  predicate Bears(step: Step, token: string)
  {
    Protected(step.command) && step.command.request.token == token
  }

  /** A token opens at most once: after a step that presented it - allowed or
      denied, in whatever session - no later step is allowed with it. */
  lemma {:induction false} TokenIsSpentOnce(policy: Policy, steps: seq<Step>, i: nat, j: nat, token: string)
    requires ValidRun(policy, steps) && i < j < |steps| && Bears(steps[i], token) && Bears(steps[j], token)
    requires var s := At(policy, steps, i); token in s.drawn && Presents(policy, s, steps[i])
    ensures !Allows(policy, At(policy, steps, j), steps[j])
  {
    hide *;
    RunStep(policy, steps, i);
    PresentingSpendsToken(policy, At(policy, steps, i), steps[i], token);
    TokenGone(policy, steps, i + 1, j, token);
    NoTokenNoEntry(policy, At(policy, steps, j), steps[j], token);
  }

  lemma {:induction false} NoTokenNoEntry(policy: Policy, s: Books, step: Step, token: string)
    requires Bears(step, token) && NoConfirmation(s, token)
    ensures !Allows(policy, s, step)
  {
    hide Rotates, PolicyAllows, Finishes, Matches;
  }

  /** An allowed step did present its token, and that token was drawn. */
  lemma {:induction false} AllowedTokenWasDrawn(policy: Policy, s: Books, step: Step, token: string)
    requires Sound(s) && Bears(step, token) && Allows(policy, s, step)
    ensures token in s.drawn && Presents(policy, s, step)
  {
    hide Rotates, PolicyAllows, Finishes, Matches, Belongs;
  }

  /** No two allowed steps of a run share a token. */
  lemma {:induction false} TokenAllowsOnce(policy: Policy, steps: seq<Step>, i: nat, j: nat, token: string)
    requires ValidRun(policy, steps) && i < j < |steps| && Bears(steps[i], token) && Bears(steps[j], token)
    requires Allows(policy, At(policy, steps, i), steps[i])
    ensures !Allows(policy, At(policy, steps, j), steps[j])
  {
    hide *;
    RunStep(policy, steps, i);
    AllowedTokenWasDrawn(policy, At(policy, steps, i), steps[i], token);
    TokenIsSpentOnce(policy, steps, i, j, token);
  }

  lemma {:induction false} PresentingSpendsToken(policy: Policy, s: Books, step: Step, token: string)
    requires Presents(policy, s, step) && Bears(step, token) && token in s.drawn
    ensures NoConfirmation(After(policy, s, step), token)
  {
    hide Sessions, Enrollments, Rotates, LiveSession, PolicyAllows;
  }

  lemma {:induction false} TokenGone(policy: Policy, steps: seq<Step>, m: nat, n: nat, token: string)
    requires ValidRun(policy, steps) && m <= n <= |steps| && NoConfirmation(At(policy, steps, m), token)
    ensures NoConfirmation(At(policy, steps, n), token)
    decreases n
  {
    hide Possible, Sound, After, ValidRun, NoConfirmation;
    if m < n {
      TokenGone(policy, steps, m, n - 1, token);
      RunStep(policy, steps, n - 1);
      SpentTokenStaysSpent(policy, At(policy, steps, n - 1), steps[n - 1], token);
    }
  }

  // ------------------------------------------------------------------- nonces

  ghost predicate NobodysNonce(s: Books, nonce: string)
  {
    nonce in s.drawn && forall id | id in s.sessions :: s.sessions[id].nonce != nonce
  }

  lemma {:induction false} SpentNonceStaysSpent(policy: Policy, s: Books, step: Step, nonce: string)
    requires Possible(s, step) && NobodysNonce(s, nonce)
    ensures NobodysNonce(After(policy, s, step), nonce)
  {
    hide Confirmations, Enrollments, Admits, LiveSession;
  }

  lemma {:induction false} NonceGone(policy: Policy, steps: seq<Step>, m: nat, n: nat, nonce: string)
    requires ValidRun(policy, steps) && m <= n <= |steps| && NobodysNonce(At(policy, steps, m), nonce)
    ensures NobodysNonce(At(policy, steps, n), nonce)
    decreases n
  {
    hide Possible, Sound, After, ValidRun, NobodysNonce;
    if m < n {
      NonceGone(policy, steps, m, n - 1, nonce);
      RunStep(policy, steps, n - 1);
      SpentNonceStaysSpent(policy, At(policy, steps, n - 1), steps[n - 1], nonce);
    }
  }

  lemma {:induction false} RotationSpendsNonce(policy: Policy, s: Books, step: Step, nonce: string)
    requires Sound(s) && Possible(s, step) && Rotates(s, step) && step.command.request.nonce == nonce
    ensures NobodysNonce(After(policy, s, step), nonce)
  {
    hide Confirmations, Enrollments, Belongs;
  }

  /** A nonce is accepted once: a request whose nonce was rotated, allowed or
      not, is never admitted again, in any session. */
  lemma {:induction false} NonceIsSpentOnce(policy: Policy, steps: seq<Step>, i: nat, j: nat)
    requires ValidRun(policy, steps) && i < j < |steps|
    requires Rotates(At(policy, steps, i), steps[i]) && steps[j].command.Authorize?
    requires steps[i].command.request.nonce == steps[j].command.request.nonce
    ensures !Admits(At(policy, steps, j), steps[j].command.request, steps[j].command.place, steps[j].now)
  {
    hide *;
    var nonce := steps[j].command.request.nonce;
    RunStep(policy, steps, i);
    RotationSpendsNonce(policy, At(policy, steps, i), steps[i], nonce);
    NonceGone(policy, steps, i + 1, j, nonce);
    NoNonceNoEntry(At(policy, steps, j), steps[j].command.request, steps[j].command.place, steps[j].now);
  }

  lemma {:induction false} NoNonceNoEntry(s: Books, request: Request, place: Place, now: int)
    requires NobodysNonce(s, request.nonce)
    ensures !Admits(s, request, place, now)
  {
  }

  /** The nonces that the first `n` steps told their callers: the one a session
      opens with, and the next one of each allowed request. */
  function Told(policy: Policy, steps: seq<Step>, n: nat): set<string>
    requires n <= |steps|
    decreases n
  {
    if n == 0 then {}
    else
      var s, step := At(policy, steps, n - 1), steps[n - 1];
      Told(policy, steps, n - 1)
      + (if Opens(s, step) then {step.command.nonce.value} else {})
      + (if Allows(policy, s, step) then {step.command.next.value} else {})
  }

  lemma {:induction false} ToldWasDrawn(policy: Policy, steps: seq<Step>, n: nat)
    requires n <= |steps|
    ensures Told(policy, steps, n) <= At(policy, steps, n).drawn
    decreases n
  {
    hide Sessions, Confirmations, Enrollments, Admits, PolicyAllows, Finishes, Confirmed;
    if n > 0 {
      ToldWasDrawn(policy, steps, n - 1);
    }
  }

  /** The session is gone, or its nonce was never told to anyone. */
  ghost predicate Mute(policy: Policy, steps: seq<Step>, n: nat, id: string)
    requires n <= |steps|
  {
    var s := At(policy, steps, n);
    id in s.drawn && (id in s.sessions ==>
      s.sessions[id].nonce in s.drawn && s.sessions[id].nonce !in Told(policy, steps, n))
  }

  predicate AsksIn(step: Step, id: string)
  {
    step.command.Authorize? && step.command.request.sessionID == id
  }

  lemma {:induction false} MuteStays(policy: Policy, steps: seq<Step>, n: nat, id: string)
    requires ValidRun(policy, steps) && n < |steps| && Mute(policy, steps, n, id)
    requires AsksIn(steps[n], id) ==> !Rotates(At(policy, steps, n), steps[n])
    ensures Mute(policy, steps, n + 1, id)
  {
    RunStep(policy, steps, n);
    hide Confirmations, Enrollments, Sound, ValidRun, Admits, PolicyAllows, Finishes, Confirmed, LiveSession;
  }

  ghost predicate SpeaksAsTold(policy: Policy, steps: seq<Step>, n: nat)
    requires n < |steps|
  {
    steps[n].command.Authorize? ==> steps[n].command.request.nonce in Told(policy, steps, n)
  }

  lemma {:induction false} MuteRefuses(policy: Policy, steps: seq<Step>, n: nat, id: string)
    requires n < |steps| && Mute(policy, steps, n, id) && SpeaksAsTold(policy, steps, n)
    ensures AsksIn(steps[n], id) ==> !Rotates(At(policy, steps, n), steps[n])
  {
    hide At, After, Told;
  }

  /** The request got its nonce rotated and was denied all the same. */
  ghost predicate DeniedLate(policy: Policy, s: Books, step: Step, id: string)
  {
    AsksIn(step, id) && Rotates(s, step) && !Allows(policy, s, step)
  }

  lemma {:induction false} SilentAfterDenial(policy: Policy, steps: seq<Step>, i: nat, id: string)
    requires ValidRun(policy, steps) && i < |steps| && DeniedLate(policy, At(policy, steps, i), steps[i], id)
    ensures Mute(policy, steps, i + 1, id)
  {
    RunStep(policy, steps, i);
    ToldWasDrawn(policy, steps, i);
    hide Confirmations, Enrollments, ValidRun, PolicyAllows, Finishes, Confirmed, Belongs;
  }

  /** Denied after its nonce was rotated, a request silences its session: the
      next nonce is told to nobody, so no later request with a nonce that the
      engine has told anyone is admitted in that session. */
  lemma {:induction false} DenialSilencesSession(policy: Policy, steps: seq<Step>, i: nat, n: nat, id: string)
    requires ValidRun(policy, steps) && i < n < |steps| && AsksIn(steps[n], id)
    requires DeniedLate(policy, At(policy, steps, i), steps[i], id)
    requires forall k | i < k <= n :: SpeaksAsTold(policy, steps, k)
    ensures !Rotates(At(policy, steps, n), steps[n])
  {
    hide *;
    SilentAfterDenial(policy, steps, i, id);
    var k := i + 1;
    while k < n
      invariant i < k <= n && Mute(policy, steps, k, id)
    {
      MuteRefuses(policy, steps, k, id);
      MuteStays(policy, steps, k, id);
      k := k + 1;
    }
    MuteRefuses(policy, steps, n, id);
  }

  ghost predicate Out(s: Books, id: string)
  {
    id in s.drawn && id !in s.sessions && forall t | t in s.confirmations :: s.confirmations[t].scope.sessionID != id
  }

  lemma {:induction false} OutStays(policy: Policy, s: Books, step: Step, id: string)
    requires Sound(s) && Possible(s, step) && (Out(s, id) || (step.command == Revoke(id) && id in s.sessions))
    ensures Out(After(policy, s, step), id)
  {
    hide Enrollments, Admits, PolicyAllows, Belongs;
  }

  /** A revoked session is not opened again, and no confirmation for it is left
      or issued from then on. */
  lemma {:induction false} RevokedSessionStaysOut(policy: Policy, steps: seq<Step>, i: nat, n: nat)
    requires ValidRun(policy, steps) && i < n <= |steps| && steps[i].command.Revoke?
      && steps[i].command.sessionID in At(policy, steps, i).sessions
    ensures Out(At(policy, steps, n), steps[i].command.sessionID)
    decreases n
  {
    hide At, After, ValidRun, Sound, Possible, Out;
    RunStep(policy, steps, n - 1);
    if i + 1 < n {
      RevokedSessionStaysOut(policy, steps, i, n - 1);
    }
    OutStays(policy, At(policy, steps, n - 1), steps[n - 1], steps[i].command.sessionID);
  }

  // ------------------------------------------------------------ a sample run

  const SAMPLE_SCOPE := Scope("a", "r", "p", "s", "g", 1, "c", "d")
  const SAMPLE_REQUEST := Request("s", "p", "r", "n", Integrate, "", "ref", "t", SAMPLE_SCOPE)
  const ENROLLED := Books(map["r" := Enrollment("f", "ref")], map[], map[], {"ref"}, 1)
  const IN_SESSION := ENROLLED.(sessions := map["s" := Session("s", "p", "r", "n", 9)], drawn := {"ref", "s", "n"})
  const CONFIRMED := IN_SESSION.(confirmations := map["t" := Confirmation("t", Destructive, SAMPLE_SCOPE, 10)],
                                 drawn := {"ref", "s", "n", "t"})

  function SamplePolicy(): Policy
  {
    Policy({Integrate}, p => true, (r, p) => true, r => true, s => s)
  }

  lemma {:induction false} SampleEnrollment(step: Step)
    requires step == Step(Enroll("r", "f", Some("ref")), 1)
    ensures Possible(EMPTY, step) && After(SamplePolicy(), EMPTY, step) == ENROLLED
  {
  }

  lemma {:induction false} SampleSession(step: Step)
    requires step == Step(Open("p", "r", 9, 9, Some("s"), Some("n")), 1)
    ensures Possible(ENROLLED, step) && After(SamplePolicy(), ENROLLED, step) == IN_SESSION
  {
  }

  lemma {:induction false} SampleConfirmation(step: Step)
    requires step == Step(Issue(SAMPLE_SCOPE, Destructive, 9, true, Some("t")), 1)
    ensures Possible(IN_SESSION, step) && After(SamplePolicy(), IN_SESSION, step) == CONFIRMED
  {
  }

  lemma {:induction false} SampleIntegration(step: Step)
    requires step == Step(Authorize(SAMPLE_REQUEST, Place("r", "f", ""), Some("m")), 1)
    ensures Possible(CONFIRMED, step) && Bears(step, "t") && Allows(SamplePolicy(), CONFIRMED, step)
  {
  }

  /** There is a run in which an integration is allowed. */
  lemma {:induction false} ApprovedRunExists() returns (policy: Policy, steps: seq<Step>)
    ensures ValidRun(policy, steps) && |steps| == 4 && Bears(steps[3], "t")
      && Allows(policy, At(policy, steps, 3), steps[3])
  {
    policy := SamplePolicy();
    var a, b := Step(Enroll("r", "f", Some("ref")), 1), Step(Open("p", "r", 9, 9, Some("s"), Some("n")), 1);
    var c := Step(Issue(SAMPLE_SCOPE, Destructive, 9, true, Some("t")), 1);
    var d := Step(Authorize(SAMPLE_REQUEST, Place("r", "f", ""), Some("m")), 1);
    steps := [a, b, c, d];
    SampleEnrollment(a);
    SampleSession(b);
    SampleConfirmation(c);
    SampleIntegration(d);
    hide SamplePolicy, After, Possible, Bears, Allows;
    assert At(policy, steps, 0) == EMPTY;
    assert At(policy, steps, 1) == After(policy, EMPTY, a);
    assert At(policy, steps, 2) == After(policy, ENROLLED, b);
    assert At(policy, steps, 3) == After(policy, IN_SESSION, c);
  }
}
