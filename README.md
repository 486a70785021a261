# Mood Journal, modelled in Dafny

Mood Journal is a small web backend. Users register with a user name and a
password and log in with an HTTP Basic header. A logged-in user adds
"mood" records and lists their own records. Each record carries a streak:
1, or one more than the streak of the user's first record dated the day
before.

The model keeps the application's state as an object of class
`Application.Journal`. Its three fields are the users table, the mood table
and the session of the client making the requests. There is one method per
route except `/`. The logic behind the routes lives in pure modules:

- `Ledger` holds the mood records, the streak rule, the per-user listing,
  and two store invariants. The first says every streak is at least 1, and
  every addition keeps it. The second says a streak of `s` on day `d` means
  the owner had already logged a record on each of the `s - 1` days before
  `d`. An addition keeps the second invariant only when its look-up asks for
  the day before the record's own date; see below.
- `Identity` holds user lookup and the ordered login decision.
- `Calendar` holds Gregorian dates. It proves that the day before a date has
  the day number one less, and that formatting a date as YYYY/MM/DD is
  injective. So the ledger can store dates as integer day numbers, and
  the look-up for a date string is the look-up for its day number.
- `Wrappers` holds `Option`.

Adding a mood reads the clock twice. The first read gives the record's date
(application.py:60), and the second gives the day whose records the streak
is taken from (application.py:61). `Application.Journal.AddMood` takes both
reads as parameters. When they give the same date, the look-up asks for the
day before the record's date, and the store stays well formed. A request
that runs across midnight reads day D and then day D + 1. It stamps its
record D and looks up D itself, not D − 1. `Ledger.StraddleBreaksWitness`
shows that such a record can carry a streak of 2 with nothing logged on
day D − 1. So the class keeps only the first invariant unconditionally.
When the second read gives 0001/01/01, asking for the day before overflows,
and nothing is stored.

## Model

| member | source | states |
|---|---|---|
| `Calendar.Predecessor` | application.py:61 | The day before a valid date is a valid date whose day number is one less. It is missing only for 0001/01/01, where subtracting a day overflows. |
| `Calendar.OrdinalInjective` | application.py:60-62 | Two valid dates with the same day number are the same date. |
| `Calendar.ParseFormat` | application.py:60-61 | Reading back a date formatted as "%Y/%m/%d" gives the same date. |
| `Calendar.FormatInjective` | application.py:60-62 | Two valid dates format to the same YYYY/MM/DD string only when they are equal. |
| `Calendar.YesterdayByOrdinal` | application.py:60-62 | A stored date string equals the formatted day before today exactly when its day number is today's minus one. So the date-string query is the day-number query. |
| `Ledger.FindFirst` | application.py:62 | Finds the first record of a user on a given day, in store order: the record matches and nothing before it does. Returns None exactly when no record matches. |
| `Ledger.NextStreak` | application.py:62-66 | The new streak is 1 when the user has no record dated on the looked-up day. Otherwise it is the streak of the first such record plus 1. |
| `Ledger.NextStreakBounds` | application.py:63-66 | In a store whose streaks are all at least 1, the new streak is at least 1. It is exactly 1 if and only if nothing of the user's is dated on the looked-up day. |
| `Ledger.AddKeepsStreaksPositive` | application.py:62-69 | Appending a new record keeps every streak at least 1, whatever day the look-up asked for. |
| `Ledger.AddPreservesWellFormed` | application.py:59-69 | When the look-up asks for the day before the record's date, appending the record keeps every streak at least 1. It also keeps every streak witnessed by records of that user on each of the preceding days. |
| `Ledger.StraddleBreaksWitness` | application.py:60-62 | When the look-up asks for the record's own date, as across midnight: a record of day d, then one stamped d again, gives a streak of 2. The store then breaks the witnessed-streak invariant. |
| `Ledger.StreakIgnoresOtherUsers` | application.py:62 | The streak computed from the user's own records equals the streak computed from the whole store. Other users' records never affect it. |
| `Ledger.OwnedBy` | application.py:42 | The username query returns only records of that user. It is empty exactly when the store has none of theirs. |
| `Ledger.OwnedByConcat` | application.py:42 | The username query distributes over concatenation of stores, so it keeps store order. |
| `Ledger.OwnedByKeepsOwn` | application.py:42 | Each record of the user occurs in the query result as often as in the store. |
| `Ledger.OwnedByAfterAdd` | application.py:67-69 | Appending a record adds it to the end of its owner's records. It leaves every other user's records unchanged. |
| `Ledger.ListFor` | application.py:41-50 | The result is the "no records" indicator exactly when the user has no records; it is never an empty list. Otherwise it lists each of the user's records, in store order, as (description, date, streak). |
| `Identity.FindUser` | application.py:93 | Finds the first user with the given name. Returns None exactly when no user has that name. |
| `Identity.Authenticate` | application.py:87-101 | A missing header, empty user name or empty password gives "Unable to verify". Otherwise an unknown name gives "User not found". Otherwise the result is success exactly when the password checks against the first such user's hash, and "Incorrect password" when it does not. |
| `Identity.LoginWithUniqueNames` | application.py:93-101 | When user names are unique and credentials with a non-empty user name and a non-empty password name a registered user, they log in exactly when the password checks against that user's hash. Any other outcome for a registered name is "Incorrect password". |
| `Identity.EmptyCredentialsNeverLogIn` | application.py:90-91 | Credentials with an empty user name or an empty password always give "Unable to verify", whatever users are registered. Registration accepts such a name or password, so that account can never log in. |
| `Identity.RegisterThenLogin` | application.py:76-101 | Registering a fresh non-empty name with the hash of a non-empty password keeps names unique. Logging in with that name and password then succeeds. |
| `Application.Journal.CreateUser` | application.py:76-81 | Appends the user with the stored hash exactly when the name is not taken. A taken name is reported as a duplicate and changes nothing. Moods and the session are unchanged. |
| `Application.Journal.Login` | application.py:87-101 | The outcome is the login decision. The session is set to the user only on success; on any failure it stays as it was. Users and moods are unchanged. |
| `Application.Journal.Logout` | application.py:103-107 | Without a session the answer is Unauthorized, otherwise success. Either way no session remains afterwards. Users and moods are unchanged. |
| `Application.Journal.AddMood` | application.py:59-70 | Without a session the answer is Unauthorized and nothing changes. When the second clock read is 0001/01/01, the answer is the overflow error and nothing changes. Otherwise exactly one record is appended: the session's user, the given description, the first read's day number, and the streak looked up for the day before the second read. Earlier records stay unchanged and in place, and every streak stays at least 1. When both reads agree, a well-formed store stays well formed. |
| `Application.Journal.GetMoods` | application.py:41-50 | Without a session the answer is Unauthorized. Otherwise the record loop builds exactly the session user's listing. |

Two points of the code's behaviour, which a reader might expect to be
otherwise, are modelled as written:

- A wrong password and an unknown user name give different 401 reasons.
- A registration with a taken name is not checked by the route. Only the
  unique constraint on `User.username` (application.py:19) rejects it when
  the row is committed.

## Left out

- HTTP routing, reading `request.json` and `request.authorization`, and
  building responses. The outcome datatypes `LoginOutcome`, `Reply`,
  `MoodPost`, `Registration` and `Listing` stand for the responses and their
  messages. `MoodPost.DateOverflow` stands for the unhandled overflow error
  of application.py:61, a status 500 response. `Reply.Authorized` means only
  that the session check passed.
  The static welcome text of `/` is not modelled.
- A JSON body without `description`, `username` or `password` raises an
  unhandled error in the source. The model takes these values as parameters,
  so that error path is not modelled.
- The database: primary-key ids, column lengths, `nullable` and commits.
  The tables are sequences in insertion order. `.first()` and `.all()` are
  taken to return rows in that order, which is the order SQLite returns them
  in without an `order_by`.
- The unique constraint failing on commit is an unhandled integrity error in
  the source. The model reports it as `DuplicateUsername` and leaves the users
  unchanged. No other database failure is modelled.
- Password hashing: `generate_password_hash` and its random salt are outside
  the model. `CreateUser` receives the stored hash. `check_password_hash` is
  the parameter `check`.
- flask_login: cookies, `remember=True` and `load_user`. The session is one
  client's `Option` of a user name. The invariant that it names a registered
  user stands for `load_user` finding that user.
- The clock: its two reads in `add_mood` are parameters holding dates, so
  time-zone effects are not modelled.
- Calendar.Format: pads the year to four digits, as Python documents for
  "%Y". Some C libraries print years below 1000 without padding; that
  variation is not modelled.
- `secrets.token_hex` for the secret key is left out; it is configuration.
- Streaks are unbounded integers. The 64-bit limit of the database's integer
  column is not modelled.
- Concurrent requests are not modelled. Each route runs as one atomic step.
