/** Account creation by its two writers, password sign-up and Google sign-in, as interleaved
    database transactions (app/auth/admission.py, app/auth/service.py, app/auth/google.py). */
module Registration {
  import opened Common
  import opened PyText
  import Challenge

  /** A committed row; its id is its position. A password account has no subject. */
  datatype User = User(email: string, subject: Option<string>)

  /** Where a transaction stands. Each phase names what the next statement will do. */
  datatype Phase =
    | Started                    // password: take the lock; Google: look the subject up
    | WaitingForLock             // Google: the subject was not there
    | Locked                     // check the email (password) or look the subject up again (Google)
    | SubjectFree                // Google: check the email
    | EmailFree                  // count the accounts
    | HasRoom                    // insert
    | Inserted(row: User)        // commit
    | Found(id: nat, locked: bool)   // Google: commit a returning sign-in
    | Colliding                  // Google: the email is taken; commit and answer 409
    | Created(id: nat)
    | SignedIn(id: nat)
    | Collided
    | Refused
    | Aborted

  /** A password sign-up has no subject, a Google sign-in has one. */
  datatype Txn = Txn(email: string, subject: Option<string>, phase: Phase) {
    predicate IsGoogle() { subject.Some? }

    /** What the transaction would insert: Google addresses are stored in lower case. */
    function NewRow(): User { User(if IsGoogle() then Lower(email) else email, subject) }
  }

  datatype State = State(users: seq<User>, lock: Option<nat>, txns: seq<Txn>)

  predicate EmailTaken(users: seq<User>, email: string) {
    exists i | 0 <= i < |users| :: Lower(users[i].email) == Lower(email)
  }

  predicate HasSubject(users: seq<User>, subject: Option<string>) {
    exists i | 0 <= i < |users| :: users[i].subject == subject
  }

  function IdOf(users: seq<User>, subject: Option<string>): (id: nat)
    requires HasSubject(users, subject)
    ensures id < |users| && users[id].subject == subject
  {
    if users[0].subject == subject then 0
    else
      assert HasSubject(users[1..], subject) by {
        var i :| 0 <= i < |users| && users[i].subject == subject;
        assert users[1..][i - 1].subject == subject;
      }
      1 + IdOf(users[1..], subject)
  }

  /** The unique constraints on the column values as stored. */
  predicate Conflicts(users: seq<User>, row: User) {
    exists i | 0 <= i < |users| ::
      users[i].email == row.email || (row.subject.Some? && users[i].subject == row.subject)
  }

  predicate HoldsLock(p: Phase) {
    match p
    case Locked => true
    case SubjectFree => true
    case EmailFree => true
    case HasRoom => true
    case Inserted(_) => true
    case Colliding => true
    case Found(_, locked) => locked
    case _ => false
  }

  predicate Finished(p: Phase) {
    p.Created? || p.SignedIn? || p.Collided? || p.Refused? || p.Aborted?
  }

  datatype Step =
    | Begin(email: string, subject: Option<string>)
    | Advance(tx: nat)
    | Abandon(tx: nat)   // lock timeout, database error, lost connection: roll back

  predicate Enabled(s: State, step: Step) {
    match step
    case Begin(_, _) => true
    case Advance(i) =>
      && i < |s.txns| && !Finished(s.txns[i].phase)
      && (WantsLock(s.txns[i]) ==> s.lock.None?)
    case Abandon(i) => i < |s.txns| && !Finished(s.txns[i].phase)
  }

  predicate WantsLock(t: Txn) {
    t.phase.WaitingForLock? || (t.phase.Started? && !t.IsGoogle())
  }

  /** The phase after the transaction's next statement, which sees the committed rows. */
  function NextPhase(users: seq<User>, cap: nat, t: Txn): Phase
    requires !Finished(t.phase)
  {
    match t.phase
    case Started =>
      if !t.IsGoogle() then Locked
      else if HasSubject(users, t.subject) then Found(IdOf(users, t.subject), false)
      else WaitingForLock
    case WaitingForLock => Locked
    case Locked =>
      if t.IsGoogle() then
        if HasSubject(users, t.subject) then Found(IdOf(users, t.subject), true) else SubjectFree
      else if EmailTaken(users, t.email) then Refused
      else EmailFree
    case SubjectFree => if EmailTaken(users, t.email) then Colliding else EmailFree
    case EmailFree => if |users| >= cap then Refused else HasRoom
    case HasRoom =>
      if !Conflicts(users, t.NewRow()) then Inserted(t.NewRow())
      else if t.IsGoogle() then Colliding
      else Refused
    case Inserted(_) => Created(|users|)
    case Found(id, _) => SignedIn(id)
    case Colliding => if HasSubject(users, t.subject) then SignedIn(IdOf(users, t.subject)) else Collided
    case Created(_) => t.phase
    case SignedIn(_) => t.phase
    case Collided => t.phase
    case Refused => t.phase
    case Aborted => t.phase
  }

  function Apply(s: State, cap: nat, step: Step): State
    requires Enabled(s, step)
  {
    match step
    case Begin(email, subject) => s.(txns := s.txns + [Txn(email, subject, Started)])
    case Advance(i) =>
      var t := s.txns[i];
      var next := NextPhase(s.users, cap, t);
      var users := if t.phase.Inserted? then s.users + [t.phase.row] else s.users;
      var lock :=
        if HoldsLock(next) then Some(i)
        else if HoldsLock(t.phase) then None
        else s.lock;
      State(users, lock, s.txns[i := t.(phase := next)])
    case Abandon(i) =>
      var t := s.txns[i];
      s.(lock := if HoldsLock(t.phase) then None else s.lock, txns := s.txns[i := t.(phase := Aborted)])
  }

  /** The state after a schedule; a step nobody can take is skipped. */
  function Exec(start: seq<User>, cap: nat, schedule: seq<Step>): State {
    if schedule == [] then State(start, None, [])
    else
      var s := Exec(start, cap, schedule[..|schedule| - 1]);
      var step := schedule[|schedule| - 1];
      if Enabled(s, step) then Apply(s, cap, step) else s
  }

  // ---------------------------------------------------------------- the invariant

  predicate EmailsUnique(users: seq<User>) {
    forall i, j | 0 <= i < j < |users| :: Lower(users[i].email) != Lower(users[j].email)
  }

  predicate SubjectsUnique(users: seq<User>) {
    forall i, j | 0 <= i < j < |users| && users[i].subject.Some? :: users[i].subject != users[j].subject
  }

  /** What a transaction has established about the committed rows by the phase it is in. */
  predicate Knows(users: seq<User>, cap: nat, t: Txn) {
    match t.phase
    case SubjectFree => t.IsGoogle() && !HasSubject(users, t.subject)
    case EmailFree => !EmailTaken(users, t.email) && (t.IsGoogle() ==> !HasSubject(users, t.subject))
    case HasRoom => !EmailTaken(users, t.email) && (t.IsGoogle() ==> !HasSubject(users, t.subject)) && |users| < cap
    case Inserted(row) =>
      && !EmailTaken(users, t.email) && (t.IsGoogle() ==> !HasSubject(users, t.subject)) && |users| < cap
      && row == t.NewRow()
    case Colliding => t.IsGoogle() && EmailTaken(users, t.email) && !HasSubject(users, t.subject)
    case Found(id, _) => t.IsGoogle() && id < |users| && users[id].subject == t.subject
    case WaitingForLock => t.IsGoogle()
    case Created(id) => id < |users| && users[id] == t.NewRow()
    case SignedIn(id) => t.IsGoogle() && id < |users| && users[id].subject == t.subject
    case Collided => t.IsGoogle() && EmailTaken(users, t.email)
    case Refused => |users| >= cap || (!t.IsGoogle() && EmailTaken(users, t.email))
    case _ => true
  }

  ghost predicate LockConsistent(s: State) {
    && (s.lock.Some? ==> s.lock.value < |s.txns| && HoldsLock(s.txns[s.lock.value].phase))
    && forall i | 0 <= i < |s.txns| && HoldsLock(s.txns[i].phase) :: s.lock == Some(i)
  }

  ghost predicate AllKnow(s: State, cap: nat) {
    forall i | 0 <= i < |s.txns| :: Knows(s.users, cap, s.txns[i])
  }

  /** Every account beyond the first ones was made by a sign-up that committed. */
  ghost predicate NewAccountsAreClaimed(start: seq<User>, s: State) {
    forall id | |start| <= id < |s.users| :: MadeBySomeone(s, id)
  }

  ghost predicate MadeBySomeone(s: State, id: nat) {
    exists i | 0 <= i < |s.txns| :: s.txns[i].phase == Created(id)
  }

  ghost predicate Inv(start: seq<User>, cap: nat, s: State) {
    && LockConsistent(s)
    && AllKnow(s, cap)
    && start <= s.users
    && |s.users| <= Max(cap, |start|)
    && EmailsUnique(s.users) && SubjectsUnique(s.users)
    && NewAccountsAreClaimed(start, s)
  }

  lemma LowerIdempotent(s: string)
    ensures Lower(Lower(s)) == Lower(s)
  {
  }

  /** Under the lock the unique constraints are never what stops an insert. */
  lemma BackstopsUnused(users: seq<User>, cap: nat, t: Txn)
    requires t.phase.HasRoom? && Knows(users, cap, t)
    ensures !Conflicts(users, t.NewRow())
  {
    LowerIdempotent(t.email);
    assert Lower(t.NewRow().email) == Lower(t.email);
  }

  lemma NewRowIsNew(users: seq<User>, cap: nat, t: Txn)
    requires t.phase.Inserted? && Knows(users, cap, t)
    requires EmailsUnique(users) && SubjectsUnique(users)
    ensures EmailsUnique(users + [t.phase.row]) && SubjectsUnique(users + [t.phase.row])
  {
    LowerIdempotent(t.email);
    assert Lower(t.phase.row.email) == Lower(t.email);
  }

  lemma TakenStays(users: seq<User>, row: User, email: string)
    requires EmailTaken(users, email)
    ensures EmailTaken(users + [row], email)
  {
    var i :| 0 <= i < |users| && Lower(users[i].email) == Lower(email);
    assert (users + [row])[i] == users[i];
  }

  /** What a transaction other than the lock holder knows survives the holder's commit. */
  lemma KnowsAfterCommit(users: seq<User>, row: User, cap: nat, t: Txn)
    requires Knows(users, cap, t) && !HoldsLock(t.phase)
    ensures Knows(users + [row], cap, t)
  {
    if EmailTaken(users, t.email) { TakenStays(users, row, t.email); }
  }

  /** The statement a transaction runs leaves it knowing what its next phase says. */
  lemma KnowsNext(users: seq<User>, cap: nat, t: Txn)
    requires !Finished(t.phase) && Knows(users, cap, t)
    ensures !t.phase.Inserted? ==> Knows(users, cap, t.(phase := NextPhase(users, cap, t)))
    ensures t.phase.Inserted? ==> Knows(users + [t.phase.row], cap, t.(phase := NextPhase(users, cap, t)))
  {
    if t.phase.HasRoom? { BackstopsUnused(users, cap, t); }
    assert t.(phase := NextPhase(users, cap, t)).NewRow() == t.NewRow();
  }

  lemma LockAfter(s: State, cap: nat, step: Step)
    requires LockConsistent(s) && Enabled(s, step)
    ensures LockConsistent(Apply(s, cap, step))
  {
    hide HasSubject, EmailTaken, Conflicts;
    var s' := Apply(s, cap, step);
    match step
    case Begin(_, _) =>
    case Advance(i) =>
      forall k | 0 <= k < |s'.txns| && HoldsLock(s'.txns[k].phase)
        ensures s'.lock == Some(k)
      {
        if k != i { assert HoldsLock(s.txns[k].phase); }
      }
    case Abandon(i) =>
      forall k | 0 <= k < |s'.txns| && HoldsLock(s'.txns[k].phase)
        ensures s'.lock == Some(k)
      {
        assert HoldsLock(s.txns[k].phase);
      }
  }

  lemma KnowledgeAfter(s: State, cap: nat, step: Step)
    requires LockConsistent(s) && AllKnow(s, cap) && Enabled(s, step)
    ensures AllKnow(Apply(s, cap, step), cap)
  {
    hide NextPhase, Knows;
    var s' := Apply(s, cap, step);
    forall k | 0 <= k < |s'.txns|
      ensures Knows(s'.users, cap, s'.txns[k])
    {
      match step
      case Begin(_, _) => if k == |s.txns| { FreshKnows(s.users, cap, s'.txns[k]); }
      case Advance(i) =>
        var t := s.txns[i];
        if k == i {
          KnowsNext(s.users, cap, t);
        } else if t.phase.Inserted? {
          assert s.lock == Some(i);
          assert !HoldsLock(s.txns[k].phase);
          KnowsAfterCommit(s.users, t.phase.row, cap, s.txns[k]);
        }
      case Abandon(i) => if k == i { FreshKnows(s.users, cap, s'.txns[k]); }
    }
  }

  lemma FreshKnows(users: seq<User>, cap: nat, t: Txn)
    requires t.phase.Started? || t.phase.Aborted?
    ensures Knows(users, cap, t)
  {
  }

  lemma ClaimsAfter(start: seq<User>, s: State, cap: nat, step: Step)
    requires NewAccountsAreClaimed(start, s) && Enabled(s, step)
    ensures NewAccountsAreClaimed(start, Apply(s, cap, step))
  {
    hide HasSubject, EmailTaken, Conflicts, IdOf;
    var s' := Apply(s, cap, step);
    forall id | |start| <= id < |s'.users|
      ensures MadeBySomeone(s', id)
    {
      if id < |s.users| {
        assert MadeBySomeone(s, id);
        var i :| 0 <= i < |s.txns| && s.txns[i].phase == Created(id);
        assert Finished(s.txns[i].phase);
        assert s'.txns[i] == s.txns[i];
        assert s'.txns[i].phase == Created(id);
      } else {
        assert step.Advance? && s'.txns[step.tx].phase == Created(id);
      }
    }
  }

  lemma InvAfter(start: seq<User>, cap: nat, s: State, step: Step)
    requires Inv(start, cap, s) && Enabled(s, step)
    ensures Inv(start, cap, Apply(s, cap, step))
    ensures s.users <= Apply(s, cap, step).users
  {
    LockAfter(s, cap, step);
    KnowledgeAfter(s, cap, step);
    ClaimsAfter(start, s, cap, step);
    hide LockConsistent, AllKnow, NewAccountsAreClaimed, NextPhase, EmailsUnique, SubjectsUnique;
    if step.Advance? && s.txns[step.tx].phase.Inserted? {
      CommitKeepsUnique(s, cap, step.tx);
    }
  }

  lemma CommitKeepsUnique(s: State, cap: nat, i: nat)
    requires AllKnow(s, cap) && i < |s.txns| && s.txns[i].phase.Inserted?
    requires EmailsUnique(s.users) && SubjectsUnique(s.users)
    ensures EmailsUnique(s.users + [s.txns[i].phase.row]) && SubjectsUnique(s.users + [s.txns[i].phase.row])
    ensures |s.users| < cap
  {
    assert Knows(s.users, cap, s.txns[i]);
    NewRowIsNew(s.users, cap, s.txns[i]);
  }

  // ---------------------------------------------------------------- what every schedule keeps

  lemma {:induction false} Always(start: seq<User>, cap: nat, schedule: seq<Step>)
    requires EmailsUnique(start) && SubjectsUnique(start)
    ensures Inv(start, cap, Exec(start, cap, schedule))
  {
    if schedule != [] {
      var n := |schedule| - 1;
      Always(start, cap, schedule[..n]);
      var s := Exec(start, cap, schedule[..n]);
      if Enabled(s, schedule[n]) { InvAfter(start, cap, s, schedule[n]); }
    }
  }

  /** Over every interleaving of both writers: the accounts never outnumber the cap (or what
      was there), emails stay unique ignoring case, and a subject has one account. */
  lemma RegistrationIsSafe(start: seq<User>, cap: nat, schedule: seq<Step>)
    requires EmailsUnique(start) && SubjectsUnique(start)
    ensures var users := Exec(start, cap, schedule).users;
            && |users| <= Max(cap, |start|)
            && EmailsUnique(users) && SubjectsUnique(users)
  {
    Always(start, cap, schedule);
  }

  /** Accounts are only ever added: no later step changes the id, email or subject of one, so
      a returning sign-in changes nothing and no subject is attached to a password account. */
  lemma {:induction false} AccountsNeverChange(start: seq<User>, cap: nat, schedule: seq<Step>, n: nat)
    requires n <= |schedule|
    ensures Exec(start, cap, schedule[..n]).users <= Exec(start, cap, schedule).users
    decreases |schedule|
  {
    if n == |schedule| {
      assert schedule[..n] == schedule;
    } else {
      var m := |schedule| - 1;
      AccountsNeverChange(start, cap, schedule[..m], n);
      assert schedule[..m][..n] == schedule[..n];
      hide NextPhase, HasSubject, EmailTaken;
      assert Exec(start, cap, schedule[..m]).users <= Exec(start, cap, schedule).users;
    }
  }

  /** How a sign-up ends tells the truth about the accounts: a created account is the caller's
      own new row, a Google sign-in returns the account of its own subject, a collision means
      somebody has the address, and nobody is refused while there is room, except a password
      sign-up whose address is taken. Whoever has ended has let go of the lock. */
  lemma EndingsAreTrue(start: seq<User>, cap: nat, schedule: seq<Step>, i: nat)
    requires EmailsUnique(start) && SubjectsUnique(start)
    requires i < |Exec(start, cap, schedule).txns|
    ensures var s := Exec(start, cap, schedule);
            var t := s.txns[i];
            match t.phase
            case Created(id) =>
              id < |s.users| && s.users[id] == User(if t.subject.Some? then Lower(t.email) else t.email, t.subject)
            case SignedIn(id) => t.IsGoogle() && id < |s.users| && s.users[id].subject == t.subject
            case Collided => t.IsGoogle() && EmailTaken(s.users, t.email)
            case Refused => |s.users| >= cap || (!t.IsGoogle() && EmailTaken(s.users, t.email))
            case _ => true
    ensures var s := Exec(start, cap, schedule);
            var p := s.txns[i].phase;
            p.Created? || p.SignedIn? || p.Collided? || p.Refused? || p.Aborted? ==> s.lock != Some(i)
  {
    Always(start, cap, schedule);
    assert Knows(Exec(start, cap, schedule).users, cap, Exec(start, cap, schedule).txns[i]);
  }

  // ---------------------------------------------------------------- a sign-up nobody interrupts

  /** The state after at most n statements of one transaction. */
  function Continued(s: State, cap: nat, i: nat, n: nat): State
    decreases n
  {
    if n == 0 || !Enabled(s, Advance(i)) then s else Continued(Apply(s, cap, Advance(i)), cap, i, n - 1)
  }

  /** Only transaction i stands elsewhere, and nobody else holds the lock. */
  function At(s: State, i: nat, p: Phase): State
    requires i < |s.txns|
  {
    State(s.users, if HoldsLock(p) then Some(i) else None, s.txns[i := s.txns[i].(phase := p)])
  }

  lemma Move(s: State, cap: nat, i: nat, n: nat, p: Phase, next: Phase)
    requires i < |s.txns| && n > 0 && !Finished(p) && !p.Inserted?
    requires next == NextPhase(s.users, cap, s.txns[i].(phase := p))
    ensures Continued(At(s, i, p), cap, i, n) == Continued(At(s, i, next), cap, i, n - 1)
  {
    hide NextPhase;
    var u := At(s, i, p);
    assert u.txns[i].(phase := next) == s.txns[i].(phase := next);
    assert u.txns[i := s.txns[i].(phase := next)] == At(s, i, next).txns;
    assert Apply(u, cap, Advance(i)) == At(s, i, next);
  }

  /** How a sign-up ends that meets these accounts and is not interrupted. */
  function Ending(users: seq<User>, cap: nat, email: string, subject: Option<string>): Phase {
    if subject.Some? && HasSubject(users, subject) then SignedIn(IdOf(users, subject))
    else if EmailTaken(users, email) then (if subject.Some? then Collided else Refused)
    else if |users| >= cap then Refused
    else Created(|users|)
  }

  /** What the transaction leaves behind when it ends so. */
  function EndedAs(s: State, i: nat, end: Phase): State
    requires i < |s.txns|
  {
    State(if end.Created? then s.users + [s.txns[i].NewRow()] else s.users, None,
          s.txns[i := s.txns[i].(phase := end)])
  }

  lemma Commits(s: State, cap: nat, i: nat, n: nat)
    requires i < |s.txns| && n > 0
    ensures Continued(At(s, i, Inserted(s.txns[i].NewRow())), cap, i, n) == EndedAs(s, i, Created(|s.users|))
  {
    var u := At(s, i, Inserted(s.txns[i].NewRow()));
    assert Apply(u, cap, Advance(i)).txns == EndedAs(s, i, Created(|s.users|)).txns;
    assert Apply(u, cap, Advance(i)) == EndedAs(s, i, Created(|s.users|));
  }

  lemma Stays(s: State, cap: nat, i: nat, n: nat, end: Phase)
    requires i < |s.txns| && Finished(end) && !end.Created?
    ensures Continued(At(s, i, end), cap, i, n) == EndedAs(s, i, end)
  {
  }

  /** From a free email on: count, insert, commit. */
  lemma InsertsIfRoom(s: State, cap: nat, i: nat)
    requires i < |s.txns| && !EmailTaken(s.users, s.txns[i].email)
    requires s.txns[i].IsGoogle() ==> !HasSubject(s.users, s.txns[i].subject)
    ensures Continued(At(s, i, EmailFree), cap, i, 3)
            == EndedAs(s, i, if |s.users| >= cap then Refused else Created(|s.users|))
  {
    var t := s.txns[i];
    if |s.users| >= cap {
      Move(s, cap, i, 3, EmailFree, Refused);
      Stays(s, cap, i, 2, Refused);
    } else {
      BackstopsUnused(s.users, cap, t.(phase := HasRoom));
      assert t.(phase := HasRoom).NewRow() == t.NewRow();
      hide Continued, Knows, Conflicts, EmailTaken, HasSubject;
      Move(s, cap, i, 3, EmailFree, HasRoom);
      Move(s, cap, i, 2, HasRoom, Inserted(t.NewRow()));
      Commits(s, cap, i, 1);
    }
  }

  lemma PasswordAlone(s: State, cap: nat, i: nat)
    requires i < |s.txns| && !s.txns[i].IsGoogle()
    ensures Continued(At(s, i, Started), cap, i, 5)
            == EndedAs(s, i, Ending(s.users, cap, s.txns[i].email, None))
  {
    hide Continued, EmailTaken, HasSubject, At, EndedAs;
    Move(s, cap, i, 5, Started, Locked);
    if EmailTaken(s.users, s.txns[i].email) {
      Move(s, cap, i, 4, Locked, Refused);
      Stays(s, cap, i, 3, Refused);
    } else {
      Move(s, cap, i, 4, Locked, EmailFree);
      InsertsIfRoom(s, cap, i);
    }
  }

  lemma GoogleAlone(s: State, cap: nat, i: nat)
    requires i < |s.txns| && s.txns[i].IsGoogle()
    ensures Continued(At(s, i, Started), cap, i, 7)
            == EndedAs(s, i, Ending(s.users, cap, s.txns[i].email, s.txns[i].subject))
  {
    hide Continued, EmailTaken, HasSubject, At, EndedAs;
    var t := s.txns[i];
    if HasSubject(s.users, t.subject) {
      var id := IdOf(s.users, t.subject);
      Move(s, cap, i, 7, Started, Found(id, false));
      Move(s, cap, i, 6, Found(id, false), SignedIn(id));
      Stays(s, cap, i, 5, SignedIn(id));
    } else {
      Move(s, cap, i, 7, Started, WaitingForLock);
      Move(s, cap, i, 6, WaitingForLock, Locked);
      Move(s, cap, i, 5, Locked, SubjectFree);
      if EmailTaken(s.users, t.email) {
        Move(s, cap, i, 4, SubjectFree, Colliding);
        Move(s, cap, i, 3, Colliding, Collided);
        Stays(s, cap, i, 2, Collided);
      } else {
        Move(s, cap, i, 4, SubjectFree, EmailFree);
        InsertsIfRoom(s, cap, i);
      }
    }
  }

  /** The statements, run without interruption, do what the two writers promise: a known subject
      signs in, a taken address collides (or refuses a password), a full table refuses, and
      otherwise there is exactly one new account; the lock is free again. */
  lemma UninterruptedSignUp(s: State, cap: nat, i: nat)
    requires i < |s.txns| && s.txns[i].phase.Started? && s.lock.None?
    ensures var t := s.txns[i];
            Continued(s, cap, i, if t.subject.Some? then 7 else 5)
            == EndedAs(s, i, Ending(s.users, cap, t.email, t.subject))
  {
    hide Continued, Ending, EndedAs;
    assert s.txns[i := s.txns[i].(phase := Started)] == s.txns;
    assert At(s, i, Started) == s;
    if s.txns[i].subject.Some? { GoogleAlone(s, cap, i); } else { PasswordAlone(s, cap, i); }
  }

  // ---------------------------------------------------------------- one writer at a time

  datatype SignUp = New(id: nat) | Returning(id: nat) | AddressTaken | Full | AlreadyUsed

  /** The two writers as they run when nobody interrupts them. `nonces` are the consumed
      challenges still stored. */
  class Accounts {
    var users: seq<User>
    var nonces: set<Challenge.Nonce>
    const cap: nat

    constructor (cap: nat)
      ensures users == [] && nonces == {} && this.cap == cap
    {
      users, nonces := [], {};
      this.cap := cap;
    }

    method RegisterUser(email: string) returns (r: SignUp)
      requires EmailsUnique(users) && SubjectsUnique(users)
      modifies this`users
      ensures r == if EmailTaken(old(users), email) then AddressTaken
                   else if |old(users)| >= cap then Full
                   else New(|old(users)|)
      ensures users == if r.New? then old(users) + [User(email, None)] else old(users)
      ensures EmailsUnique(users) && SubjectsUnique(users)
    {
      if EmailTaken(users, email) { return AddressTaken; }
      if |users| >= cap { return Full; }
      NewRowIsNew(users, cap, Txn(email, None, Inserted(User(email, None))));
      r := New(|users|);
      users := users + [User(email, None)];
    }

    /** Consuming the challenge and signing in are one transaction: a used challenge and a full
        registration roll it back, so the latter leaves the challenge usable; a taken address
        commits it, so the challenge is spent. */
    method AuthenticateGoogle(email: string, subject: string, nonce: Challenge.Nonce, exp: Challenge.Expiry,
                              now: Challenge.Time) returns (r: SignUp)
      requires EmailsUnique(users) && SubjectsUnique(users)
      modifies this
      ensures r == AlreadyUsed <==> nonce in old(nonces) && now <= exp(nonce)
      ensures nonces == if r.AlreadyUsed? || r.Full? then old(nonces)
                        else old(nonces) - Challenge.Expired(exp, old(nonces), now) + {nonce}
      ensures r.Returning? <==> !r.AlreadyUsed? && HasSubject(old(users), Some(subject))
      ensures r.Returning? ==> r.id < |users| && users[r.id].subject == Some(subject)
      ensures r == AddressTaken <==>
              !r.AlreadyUsed? && !HasSubject(old(users), Some(subject)) && EmailTaken(old(users), email)
      ensures r.New? ==> r.id == |old(users)| && |old(users)| < cap
      ensures r.Full? ==> |old(users)| >= cap
      ensures users == if r.New? then old(users) + [User(Lower(email), Some(subject))] else old(users)
      ensures EmailsUnique(users) && SubjectsUnique(users)
    {
      var live := nonces - Challenge.Expired(exp, nonces, now);
      if nonce in live { return AlreadyUsed; }
      if HasSubject(users, Some(subject)) {
        r := Returning(IdOf(users, Some(subject)));
      } else if EmailTaken(users, email) {
        r := AddressTaken;
      } else if |users| >= cap {
        return Full;
      } else {
        var row := User(Lower(email), Some(subject));
        NewRowIsNew(users, cap, Txn(email, Some(subject), Inserted(row)));
        r := New(|users|);
        users := users + [row];
      }
      nonces := live + {nonce};
    }
  }
}
