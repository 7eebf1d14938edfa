# Signup path of mockmate, modelled in Dafny

This project models the account-creation path of the mockmate web
application. It has two parts:

- the **signup schema** (module `Validations`, `validations.dfy`). It is a
  declarative validator over `{name, email, password}`. The name must be
  non-empty. The email must be syntactically valid. The password must be
  6 to 20 characters long. Each rule has a fixed message.
- the **signup action** (module `Auth`, `auth.dfy`). It validates the input
  and answers with the first issue's message on failure. It then looks the
  email up and refuses a duplicate. It hashes the password at cost 10 and
  creates one user record. Any fault in the lookup, the hashing or the create
  becomes one fixed generic error.

The user table is the class `Auth.UserStore`. It holds a `map<string, User>`
keyed by email and a counter for store-assigned ids. Its method `SignUpUser`
is proved against the pure function `Auth.SignUp` over the table's value
`Db`. The facts about the action are then proved about `SignUp`, and about
`Run`, which serves a sequence of requests one after another.

Three collaborators are abstract:

- the email syntax check is the function parameter `isEmail: string -> bool`;
- the bcrypt hasher is the function parameter
  `hash: (string, nat, Salt) -> string`. bcrypt draws a fresh random salt on
  every call, so each request carries its own `salt`. The hash is
  deterministic only once the salt is fixed;
- a store or hasher fault is the input `fault: Fault`. It names the call that
  throws: the lookup, the hash or the create. A fault only matters when the
  step it names is reached.

## Model

| member | source | states |
|---|---|---|
| `Validations.Issues` | mockmate/lib/validations.ts:3-10 | issues are reported in field declaration order (name, email, password), and every issue carries a non-empty message |
| `Validations.Validate` | mockmate/lib/validations.ts:3-10 | validation succeeds iff the name has at least 1 character, the email passes the email check and the password length is in [6, 20]; on success the output is the input unchanged (no transforms); on failure the issue list is non-empty |
| `Validations.FirstIssueIsFirstViolation` | mockmate/lib/validations.ts:3-10 | validation fails iff some rule is violated, and the first reported issue is the first violated rule in declaration order, the password's lower bound before its upper bound |
| `Validations.ValidateIdempotent` | mockmate/lib/validations.ts:3-10 | validating the output of a successful validation succeeds again with the same output |
| `Validations.NameRule` | mockmate/lib/validations.ts:4 | the name gets an issue iff it is empty, and then exactly one, 'Name is required' |
| `Validations.EmailRule` | mockmate/lib/validations.ts:5 | the email gets an issue iff the email check fails, and then exactly one, 'Invalid email format' |
| `Validations.PasswordRule` | mockmate/lib/validations.ts:6-9 | a password shorter than 6 gets exactly 'Password must be at least 6 characters', one longer than 20 gets exactly 'Password must be at most 20 characters', one in [6, 20] gets none; no password gets both |
| `Auth.SignUp` | mockmate/app/actions/auth.ts:8-47 | every rejection leaves the table unchanged; success happens iff the input is valid, no fault is reached and the email is not yet in the table; success adds exactly one record `{fresh id, name, email, hash(password, 10, salt)}` under the submitted email and returns it; the table invariant (records keyed by their own email, distinct ids) and email uniqueness are preserved |
| `Auth.InvalidInputRejected` | mockmate/app/actions/auth.ts:10-17 | invalid input is answered with the first violated rule's message (the 'Invalid input data' fallback is never used) and the table is untouched, whatever the fault |
| `Auth.DuplicateRejected` | mockmate/app/actions/auth.ts:19-27 | valid input whose email is already a key is answered with 'User with this email already exists' and the table is untouched, unless the lookup itself throws |
| `Auth.FaultRejected` | mockmate/app/actions/auth.ts:40-46 | a fault in the lookup, or in the hash or create once they are reached, is answered with 'An unexpected error occurred during signup' and the table is untouched |
| `Auth.UserStore.constructor` | mockmate/app/actions/auth.ts:21-37 | a new table is empty and satisfies the invariant |
| `Auth.UserStore.FindUnique` | mockmate/app/actions/auth.ts:21-23 | the lookup finds a record iff some record's email equals the given email exactly, and the record found has that email |
| `Auth.UserStore.Create` | mockmate/app/actions/auth.ts:31-37 | a create that does not fail inserts exactly the given record with the next id and nothing else; a failing create, or one for an email already present, changes nothing; the invariant is kept |
| `Auth.UserStore.SignUpUser` | mockmate/app/actions/auth.ts:8-47 | the outcome and the new table are exactly those of `SignUp` on the old table; every failure leaves the table unchanged; the invariant is kept |
| `Auth.RunPreservesConsistency` | mockmate/app/actions/auth.ts:21-37 | after any sequence of requests, records are still keyed by their own email, ids are distinct and no two records share an email |
| `Auth.RunOnlyAdds` | mockmate/app/actions/auth.ts:21-37 | over any sequence of requests, existing records are never changed or removed, and the table grows by exactly the number of successful requests |
| `Auth.ShortPasswordScenario` | mockmate/test/actions/auth.test.ts:32-41 | name 'Test', a valid email and password '123' are refused with 'Password must be at least 6 characters' and the table is untouched |
| `Auth.DuplicateScenario` | mockmate/test/actions/auth.test.ts:43-62 | a valid request for 'test@example.com' when that email is in the table is refused with the conflict message and nothing is created |
| `Auth.SuccessScenario` | mockmate/test/actions/auth.test.ts:64-91 | a valid request for a new 'test@example.com' succeeds; the user has that email and name, its password is `hash('password123', 10, salt)` for the request's salt, and it is the one record added |

## Left out

- Email syntax: the validation library's email pattern is library code and not a standard grammar. It is the uninterpreted parameter `isEmail`.
- Password hashing: bcrypt is the uninterpreted parameter `hash`, applied with cost 10 and the request's own salt. The random draw of the salt is an input of each request, not modelled as randomness. The model only assumes that equal password, cost and salt give equal output, which holds for bcrypt. It does not assume that two requests with the same password store the same hash.
- `Auth.SignUp`: it states that the stored password is `hash(password, 10, salt)`. It does not state that this differs from the plaintext, because that depends on the hasher, which is uninterpreted.
- String length: the validation library counts UTF-16 code units. Here a length is the length of a `seq<char>`.
- Input shape: the action's argument is typed `{name, email, password}` strings. Missing or non-string fields and extra keys are not modelled.
- The database and the ORM are an in-memory map keyed by email. The email column is unique, which the lookup by `findUnique` on email requires. So `Create` refuses a duplicate as a fault.
- Store-assigned ids: the real id scheme is not visible. Ids come from a counter, which gives distinct ids.
- Faults: which step throws is the input `Fault`. The error object and its logging to the console are left out.
- Concurrency: the lookup and the create are not atomic, so two concurrent requests for one email could both pass the lookup. Here requests run one at a time (`Run`). Under concurrency the unique email column is the backstop, as `Create` shows.
- The signup page (mockmate/app/signup/page.tsx) is not part of this model. It holds the form UI, the confirm-password check, the automatic sign-in and the navigation.
- _scripts/read_pdf.py is not part of this model. It is a PDF-extraction script unrelated to signup.
