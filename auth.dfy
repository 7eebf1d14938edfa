/** The signup action: validate, reject a taken email, hash the password,
    create one user record, and turn any fault on the way into one generic
    error. The user table is an in-memory map keyed by email; the password
    hasher is the uninterpreted parameter `hash`, applied to the salt the
    request draws; a fault of the store or of
    the hasher is the explicit input `fault`. */
module Auth {
  import opened Validations

  /** The bcrypt cost factor the action passes to the hasher. */
  const BcryptCost: nat := 10

  const InvalidInputData: string := "Invalid input data"
  const EmailTaken: string := "User with this email already exists"
  const UnexpectedError: string := "An unexpected error occurred during signup"

  /** A stored user record; `id` is assigned by the store. */
  datatype User = User(id: nat, name: string, email: string, password: string)

  /** The random salt bcrypt draws afresh on every call; the hasher is
      deterministic once its salt is fixed. */
  type Salt = seq<bv8>

  /** Which collaborator call, if any, throws during this request. */
  datatype Fault = NoFault | LookupFault | HashFault | CreateFault

  datatype SignUpResult = Success(user: User) | Failure(error: string)

  /** The user table's contents: records keyed by email, and the next id. */
  datatype Db = Db(users: map<string, User>, nextId: nat)

  /** The table's invariant: each record sits under its own email, and ids
      are distinct and below `nextId`. */
  predicate Consistent(db: Db) {
    && (forall e :: e in db.users ==> db.users[e].email == e && db.users[e].id < db.nextId)
    && (forall e1, e2 :: e1 in db.users && e2 in db.users && e1 != e2 ==> db.users[e1].id != db.users[e2].id)
  }

  /** No two records share an email. */
  predicate UniqueEmails(db: Db) {
    forall e1, e2 :: e1 in db.users && e2 in db.users && e1 != e2 ==> db.users[e1].email != db.users[e2].email
  }

  /** The message of the first issue, or the fallback when there is no
      issue or its message is empty. */
  function ValidationError(issues: seq<Issue>): string {
    if |issues| > 0 && issues[0].message != "" then issues[0].message else InvalidInputData
  }

  /** One signup request against the table `db`: the outcome and the table
      afterwards. */
  function SignUp(db: Db, input: SignupInput, fault: Fault, salt: Salt,
                  isEmail: string -> bool, hash: (string, nat, Salt) -> string): (r: (SignUpResult, Db))
    ensures r.0.Failure? ==> r.1 == db
    ensures r.0.Success? <==> Acceptable(isEmail, input) && fault == NoFault && input.email !in db.users
    ensures r.0.Success? ==>
              && r.0.user == User(db.nextId, input.name, input.email, hash(input.password, BcryptCost, salt))
              && r.1.users.Keys == db.users.Keys + {input.email}
              && r.1.users == db.users[input.email := r.0.user]
              && r.1.nextId == db.nextId + 1
    ensures Consistent(db) ==> Consistent(r.1) && UniqueEmails(r.1)
  {
    var v := Validate(isEmail, input);
    if v.Err? then (Failure(ValidationError(v.error)), db)
    else if fault.LookupFault? then (Failure(UnexpectedError), db)
    else if v.value.email in db.users then (Failure(EmailTaken), db)
    else if fault.HashFault? then (Failure(UnexpectedError), db)
    else if fault.CreateFault? then (Failure(UnexpectedError), db)
    else
      var user := User(db.nextId, v.value.name, v.value.email, hash(v.value.password, BcryptCost, salt));
      (Success(user), Db(db.users[user.email := user], db.nextId + 1))
  }

  /** Invalid input is answered with the first violated rule's message, the
      fallback message is never used, and the table is not touched. */
  lemma InvalidInputRejected(db: Db, input: SignupInput, fault: Fault, salt: Salt,
                             isEmail: string -> bool, hash: (string, nat, Salt) -> string)
    requires !Acceptable(isEmail, input)
    ensures FirstViolation(isEmail, input).Some?
    ensures SignUp(db, input, fault, salt, isEmail, hash)
         == (Failure(FirstViolation(isEmail, input).value.message), db)
  {
    FirstIssueIsFirstViolation(isEmail, input);
  }

  /** A valid request whose email is already taken is refused with the fixed
      conflict message (unless the lookup itself throws), and the table is
      not touched. */
  lemma DuplicateRejected(db: Db, input: SignupInput, fault: Fault, salt: Salt,
                          isEmail: string -> bool, hash: (string, nat, Salt) -> string)
    requires Acceptable(isEmail, input) && input.email in db.users && fault != LookupFault
    ensures SignUp(db, input, fault, salt, isEmail, hash) == (Failure(EmailTaken), db)
  {
  }

  /** A fault in a step that is reached yields the generic error and leaves
      the table as it was. */
  lemma FaultRejected(db: Db, input: SignupInput, fault: Fault, salt: Salt,
                      isEmail: string -> bool, hash: (string, nat, Salt) -> string)
    requires Acceptable(isEmail, input)
    requires fault == LookupFault || (fault != NoFault && input.email !in db.users)
    ensures SignUp(db, input, fault, salt, isEmail, hash) == (Failure(UnexpectedError), db)
  {
  }

  /** The user table the action reads and writes in place. */
  class UserStore {
    var users: map<string, User>
    var nextId: nat

    function State(): Db
      reads this
    {
      Db(users, nextId)
    }

    predicate Valid()
      reads this
    {
      Consistent(State())
    }

    constructor ()
      ensures Valid() && users == map[] && nextId == 0
    {
      users := map[];
      nextId := 0;
    }

    /** Lookup by exact email equality; emails are unique in the table. */
    function FindUnique(email: string): (r: Option<User>)
      reads this
      requires Valid()
      ensures r.Some? <==> exists e :: e in users && users[e].email == email
      ensures r.Some? ==> r.value.email == email && r.value in users.Values
    {
      if email in users then Some(users[email]) else None
    }

    /** Insert one record with a fresh id. The email is a unique column, so
        a duplicate is refused like any other fault; a refused create
        changes nothing. */
    method Create(name: string, email: string, password: string, fails: bool) returns (r: Option<User>)
      requires Valid()
      modifies this
      ensures Valid()
      ensures r.Some? <==> !fails && email !in old(users)
      ensures r.Some? ==>
                && r.value == User(old(nextId), name, email, password)
                && users == old(users)[email := r.value]
                && nextId == old(nextId) + 1
      ensures r.None? ==> users == old(users) && nextId == old(nextId)
    {
      if fails || email in users {
        return None;
      }
      var user := User(nextId, name, email, password);
      users := users[email := user];
      nextId := nextId + 1;
      return Some(user);
    }

    /** The signup action, with its early returns and its catch-all. */
    method SignUpUser(input: SignupInput, fault: Fault, salt: Salt,
                      isEmail: string -> bool, hash: (string, nat, Salt) -> string) returns (res: SignUpResult)
      requires Valid()
      modifies this
      ensures Valid()
      ensures (res, State()) == SignUp(old(State()), input, fault, salt, isEmail, hash)
      ensures res.Failure? ==> users == old(users) && nextId == old(nextId)
    {
      var validated := Validate(isEmail, input);
      if validated.Err? {
        return Failure(ValidationError(validated.error));
      }
      var data := validated.value;
      if fault == LookupFault {
        return Failure(UnexpectedError);
      }
      var existing := FindUnique(data.email);
      if existing.Some? {
        return Failure(EmailTaken);
      }
      if fault == HashFault {
        return Failure(UnexpectedError);
      }
      var hashed := hash(data.password, BcryptCost, salt);
      var created := Create(data.name, data.email, hashed, fault == CreateFault);
      if created.None? {
        return Failure(UnexpectedError);
      }
      return Success(created.value);
    }
  }

  /** One request of a sequence: the submitted fields, the fault, if any,
      that its collaborators raise, and the salt its hashing draws. */
  datatype Request = Request(input: SignupInput, fault: Fault, salt: Salt)

  /** Requests served one after another against the same table. */
  function Run(db: Db, reqs: seq<Request>,
               isEmail: string -> bool, hash: (string, nat, Salt) -> string): (r: (seq<SignUpResult>, Db))
    decreases |reqs|
  {
    if reqs == [] then ([], db)
    else
      var first := SignUp(db, reqs[0].input, reqs[0].fault, reqs[0].salt, isEmail, hash);
      var rest := Run(first.1, reqs[1..], isEmail, hash);
      ([first.0] + rest.0, rest.1)
  }

  function Successes(rs: seq<SignUpResult>): nat {
    if rs == [] then 0 else (if rs[0].Success? then 1 else 0) + Successes(rs[1..])
  }

  /** Email uniqueness, and the rest of the table's invariant, hold after
      any sequence of requests. */
  lemma {:induction false} RunPreservesConsistency(db: Db, reqs: seq<Request>,
                                                   isEmail: string -> bool, hash: (string, nat, Salt) -> string)
    requires Consistent(db)
    ensures Consistent(Run(db, reqs, isEmail, hash).1)
    ensures UniqueEmails(Run(db, reqs, isEmail, hash).1)
    decreases |reqs|
  {
    if reqs != [] {
      var first := SignUp(db, reqs[0].input, reqs[0].fault, reqs[0].salt, isEmail, hash);
      RunPreservesConsistency(first.1, reqs[1..], isEmail, hash);
    }
  }

  /** Existing records are never changed or removed, and the table grows by
      exactly one record per successful request. */
  lemma {:induction false} RunOnlyAdds(db: Db, reqs: seq<Request>,
                                       isEmail: string -> bool, hash: (string, nat, Salt) -> string)
    ensures forall e :: e in db.users ==>
              e in Run(db, reqs, isEmail, hash).1.users && Run(db, reqs, isEmail, hash).1.users[e] == db.users[e]
    ensures |Run(db, reqs, isEmail, hash).1.users| == |db.users| + Successes(Run(db, reqs, isEmail, hash).0)
    decreases |reqs|
  {
    if reqs != [] {
      var first := SignUp(db, reqs[0].input, reqs[0].fault, reqs[0].salt, isEmail, hash);
      var rest := Run(first.1, reqs[1..], isEmail, hash);
      RunOnlyAdds(first.1, reqs[1..], isEmail, hash);
      assert ([first.0] + rest.0)[1..] == rest.0;
    }
  }

  /** Scenario: a three-character password is refused with the lower-bound
      message before the table is consulted. */
  lemma ShortPasswordScenario(db: Db, fault: Fault, salt: Salt, isEmail: string -> bool, hash: (string, nat, Salt) -> string)
    requires isEmail("test@example.com")
    ensures SignUp(db, SignupInput("Test", "test@example.com", "123"), fault, salt, isEmail, hash)
         == (Failure(PasswordTooShort), db)
  {
  }

  /** Scenario: a valid request for an email already in the table is refused
      with the conflict message and creates nothing. */
  lemma DuplicateScenario(db: Db, salt: Salt, isEmail: string -> bool, hash: (string, nat, Salt) -> string)
    requires isEmail("test@example.com") && "test@example.com" in db.users
    ensures SignUp(db, SignupInput("Test", "test@example.com", "password123"), NoFault, salt, isEmail, hash)
         == (Failure(EmailTaken), db)
  {
  }

  /** Scenario: a valid request for a new email succeeds; the returned user
      carries the submitted email and the hash of the password at cost 10,
      and is the record stored under that email. */
  lemma SuccessScenario(db: Db, salt: Salt, isEmail: string -> bool, hash: (string, nat, Salt) -> string)
    requires isEmail("test@example.com") && "test@example.com" !in db.users
    ensures var r := SignUp(db, SignupInput("Test User", "test@example.com", "password123"), NoFault, salt, isEmail, hash);
            && r.0.Success?
            && r.0.user.name == "Test User"
            && r.0.user.email == "test@example.com"
            && r.0.user.password == hash("password123", 10, salt)
            && r.1.users == db.users["test@example.com" := r.0.user]
  {
  }
}
