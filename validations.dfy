/** The signup schema: a declarative validator over the three submitted
    fields (name, email, password). Every field runs its whole chain of
    checks and the issues of all fields are collected, field by field in
    declaration order. The email syntax check is library code whose grammar
    is not modelled: it is the uninterpreted parameter `isEmail`. */
module Validations {

  datatype Option<+T> = None | Some(value: T)

  datatype Result<+T, +E> = Ok(value: T) | Err(error: E)

  /** The schema's fields, in declaration order. */
  datatype Field = Name | Email | Password

  /** Position of a field in the schema's declaration. */
  function Rank(f: Field): nat {
    match f
    case Name => 0
    case Email => 1
    case Password => 2
  }

  /** One violated rule: the field it belongs to and its fixed message. */
  datatype Issue = Issue(path: Field, message: string)

  datatype SignupInput = SignupInput(name: string, email: string, password: string)

  const NameMinLength: nat := 1
  const PasswordMinLength: nat := 6
  const PasswordMaxLength: nat := 20

  const NameRequired: string := "Name is required"
  const InvalidEmailFormat: string := "Invalid email format"
  const PasswordTooShort: string := "Password must be at least 6 characters"
  const PasswordTooLong: string := "Password must be at most 20 characters"

  function NameIssues(name: string): seq<Issue> {
    if |name| < NameMinLength then [Issue(Name, NameRequired)] else []
  }

  function EmailIssues(isEmail: string -> bool, email: string): seq<Issue> {
    if isEmail(email) then [] else [Issue(Email, InvalidEmailFormat)]
  }

  /** Both length checks of the password chain run; each adds its own issue. */
  function PasswordIssues(password: string): seq<Issue> {
    (if |password| < PasswordMinLength then [Issue(Password, PasswordTooShort)] else [])
    + (if |password| > PasswordMaxLength then [Issue(Password, PasswordTooLong)] else [])
  }

  /** Every issue the schema raises for `input`, in field declaration order. */
  function Issues(isEmail: string -> bool, input: SignupInput): (r: seq<Issue>)
    ensures forall i, j :: 0 <= i < j < |r| ==> Rank(r[i].path) <= Rank(r[j].path)
    ensures forall i :: 0 <= i < |r| ==> r[i].message != ""
  {
    var n, e, p := NameIssues(input.name), EmailIssues(isEmail, input.email), PasswordIssues(input.password);
    assert forall i :: 0 <= i < |n| ==> n[i].path == Name;
    assert forall i :: 0 <= i < |e| ==> e[i].path == Email;
    assert forall i :: 0 <= i < |p| ==> p[i].path == Password;
    n + e + p
  }

  /** The schema's acceptance condition, stated rule by rule. */
  predicate Acceptable(isEmail: string -> bool, input: SignupInput) {
    && NameMinLength <= |input.name|
    && isEmail(input.email)
    && PasswordMinLength <= |input.password| <= PasswordMaxLength
  }

  /** `safeParse`: the input itself when every rule holds (no field declares a
      transform), otherwise the non-empty list of issues. */
  function Validate(isEmail: string -> bool, input: SignupInput): (r: Result<SignupInput, seq<Issue>>)
    ensures r.Ok? <==> Acceptable(isEmail, input)
    ensures r.Ok? ==> r.value == input
    ensures r.Err? ==> r.error != [] && r.error == Issues(isEmail, input)
  {
    var issues := Issues(isEmail, input);
    if issues == [] then Ok(input) else Err(issues)
  }

  /** Reference definition of the first violated rule, checking the fields in
      declaration order and the password's lower bound before its upper one. */
  function FirstViolation(isEmail: string -> bool, input: SignupInput): Option<Issue> {
    if |input.name| < NameMinLength then Some(Issue(Name, NameRequired))
    else if !isEmail(input.email) then Some(Issue(Email, InvalidEmailFormat))
    else if |input.password| < PasswordMinLength then Some(Issue(Password, PasswordTooShort))
    else if |input.password| > PasswordMaxLength then Some(Issue(Password, PasswordTooLong))
    else None
  }

  /** The first reported issue belongs to the first invalid field. */
  lemma FirstIssueIsFirstViolation(isEmail: string -> bool, input: SignupInput)
    ensures Validate(isEmail, input).Err? <==> FirstViolation(isEmail, input).Some?
    ensures Validate(isEmail, input).Err? ==>
              Validate(isEmail, input).error[0] == FirstViolation(isEmail, input).value
  {
  }

  /** Validating the output of a successful validation succeeds again, with
      the same output. */
  lemma ValidateIdempotent(isEmail: string -> bool, input: SignupInput)
    requires Validate(isEmail, input).Ok?
    ensures Validate(isEmail, Validate(isEmail, input).value) == Validate(isEmail, input)
  {
  }

  /** The messages of the issues reported for field `f`, in order. */
  function MessagesAt(issues: seq<Issue>, f: Field): seq<string> {
    if issues == [] then []
    else (if issues[0].path == f then [issues[0].message] else []) + MessagesAt(issues[1..], f)
  }

  lemma {:induction false} MessagesAtAppend(a: seq<Issue>, b: seq<Issue>, f: Field)
    ensures MessagesAt(a + b, f) == MessagesAt(a, f) + MessagesAt(b, f)
  {
    if a == [] {
      assert a + b == b;
    } else {
      assert (a + b)[1..] == a[1..] + b;
      MessagesAtAppend(a[1..], b, f);
    }
  }

  /** Splits the issue list into its three per-field parts for field `f`. */
  lemma MessagesAtIssues(isEmail: string -> bool, input: SignupInput, f: Field)
    ensures MessagesAt(Issues(isEmail, input), f)
         == MessagesAt(NameIssues(input.name), f)
          + MessagesAt(EmailIssues(isEmail, input.email), f)
          + MessagesAt(PasswordIssues(input.password), f)
  {
    var n, e, p := NameIssues(input.name), EmailIssues(isEmail, input.email), PasswordIssues(input.password);
    MessagesAtAppend(n + e, p, f);
    MessagesAtAppend(n, e, f);
  }

  /** The name is rejected exactly when it is empty, with 'Name is required'. */
  lemma NameRule(isEmail: string -> bool, input: SignupInput)
    ensures MessagesAt(Issues(isEmail, input), Name)
         == if |input.name| >= NameMinLength then [] else [NameRequired]
  {
    MessagesAtIssues(isEmail, input, Name);
    assert MessagesAt(PasswordIssues(input.password), Name) == [] by {
      var short := if |input.password| < PasswordMinLength then [Issue(Password, PasswordTooShort)] else [];
      var long := if |input.password| > PasswordMaxLength then [Issue(Password, PasswordTooLong)] else [];
      MessagesAtAppend(short, long, Name);
    }
  }

  /** The email is rejected exactly when the email predicate fails, with
      'Invalid email format'. */
  lemma EmailRule(isEmail: string -> bool, input: SignupInput)
    ensures MessagesAt(Issues(isEmail, input), Email)
         == if isEmail(input.email) then [] else [InvalidEmailFormat]
  {
    MessagesAtIssues(isEmail, input, Email);
    assert MessagesAt(PasswordIssues(input.password), Email) == [] by {
      var short := if |input.password| < PasswordMinLength then [Issue(Password, PasswordTooShort)] else [];
      var long := if |input.password| > PasswordMaxLength then [Issue(Password, PasswordTooLong)] else [];
      MessagesAtAppend(short, long, Email);
    }
  }

  /** The password is accepted exactly when its length lies in [6, 20]; a
      short one gets the lower-bound message, a long one the upper-bound
      message, and no password gets both. */
  lemma PasswordRule(isEmail: string -> bool, input: SignupInput)
    ensures MessagesAt(Issues(isEmail, input), Password)
         == if |input.password| < PasswordMinLength then [PasswordTooShort]
            else if |input.password| > PasswordMaxLength then [PasswordTooLong]
            else []
  {
    MessagesAtIssues(isEmail, input, Password);
    var short := if |input.password| < PasswordMinLength then [Issue(Password, PasswordTooShort)] else [];
    var long := if |input.password| > PasswordMaxLength then [Issue(Password, PasswordTooLong)] else [];
    MessagesAtAppend(short, long, Password);
  }
}
