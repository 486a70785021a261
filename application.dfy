/**
 * The journal's routes over its shared state: the registered users, the mood
 * records and the session of the client making the requests.
 *
 * The routes /mood (GET and POST) and /logout require a logged-in session
 * and answer Unauthorized without one.  The clock is a parameter: adding a
 * mood reads the current date twice, and both reads are given to it.
 */
module Application {
  import opened Wrappers
  import opened Calendar
  import opened Identity
  import opened Ledger

  /**
   * The answer of a route that requires a logged-in session: Unauthorized
   * without one, otherwise what the route itself answered, which may be an
   * error of its own.
   */
  datatype Reply<T> = Unauthorized | Authorized(value: T)

  /**
   * The answer of POST /mood with a session: "Mood record successfuly added!",
   * or the overflow error raised when the day before 0001/01/01 is asked for,
   * an unhandled exception that the server answers with status 500.
   */
  datatype MoodPost = Added | DateOverflow

  /** The answer of user registration. */
  datatype Registration = Created | DuplicateUsername

  class Journal {
    var users: seq<User>
    var moods: seq<Mood>
    /** The user name the session is logged in as, if any. */
    var session: Option<string>

    /** Usernames are unique, every streak is at least 1, and a session names a registered user. */
    ghost predicate Valid()
      reads this
    {
      && UniqueUsernames(users)
      && StreaksPositive(moods)
      && (session.Some? ==> Registered(users, session.value))
    }

    constructor ()
      ensures Valid()
      ensures users == [] && moods == [] && session == None
    {
      users := [];
      moods := [];
      session := None;
    }

    /**
     * POST /user: stores a new user with the hash made from their password.
     * A name that is already taken violates the unique constraint, and the
     * commit stores nothing.
     */
    method CreateUser(username: string, hashed: string) returns (r: Registration)
      requires Valid()
      modifies this
      ensures Valid()
      ensures r == DuplicateUsername <==> Registered(old(users), username)
      ensures users == if r == Created then old(users) + [User(username, hashed)] else old(users)
      ensures moods == old(moods) && session == old(session)
    {
      var found := FindUser(users, username);
      if found.Some? {
        return DuplicateUsername;
      }
      ghost var before := users;
      users := users + [User(username, hashed)];
      forall i, j | 0 <= i < j < |users|
        ensures users[i].username != users[j].username
      {
        assert users[i] == before[i];
        if j < |before| {
          assert users[j] == before[j];
        }
      }
      if session.Some? {
        ghost var k :| 0 <= k < |before| && before[k].username == session.value;
        assert users[k] == before[k];
      }
      r := Created;
    }

    /** POST /login: decides the attempt and, only on success, logs the session in as that user. */
    method Login(auth: Option<Credentials>, check: (string, string) -> bool) returns (r: LoginOutcome)
      requires Valid()
      modifies this
      ensures Valid()
      ensures r == Authenticate(users, auth, check)
      ensures session == if r == LoggedIn then Some(auth.value.username) else old(session)
      ensures users == old(users) && moods == old(moods)
    {
      r := Authenticate(users, auth, check);
      if r == LoggedIn {
        session := Some(auth.value.username);
      }
    }

    /** GET /logout: ends the session. */
    method Logout() returns (r: Reply<()>)
      requires Valid()
      modifies this
      ensures Valid()
      ensures r == if old(session) == None then Unauthorized else Authorized(())
      ensures session == None
      ensures users == old(users) && moods == old(moods)
    {
      if session == None {
        return Unauthorized;
      }
      session := None;
      r := Authorized(());
    }

    /**
     * POST /mood: appends a record of the session's user dated today, the
     * first clock read.  Its streak comes from the records dated the day
     * before later, the second clock read; when later is 0001/01/01 that day
     * does not exist and nothing is stored.  When both reads give the same
     * date, a well-formed store stays well formed.
     */
    method AddMood(description: string, today: Date, later: Date) returns (r: Reply<MoodPost>)
      requires Valid()
      requires Calendar.Valid(today) && Calendar.Valid(later)
      modifies this
      ensures Valid()
      ensures r == Unauthorized <==> old(session) == None
      ensures r == Authorized(DateOverflow) <==> old(session).Some? && later == Date(MinYear, 1, 1)
      ensures r == Authorized(Added) ==>
                moods == old(moods) + [NewRecord(old(moods), old(session).value, description,
                                                 Ordinal(today), Ordinal(later) - 1)]
      ensures r != Authorized(Added) ==> moods == old(moods)
      ensures today == later && old(WellFormed(moods)) ==> WellFormed(moods)
      ensures users == old(users) && session == old(session)
    {
      if session == None {
        return Unauthorized;
      }
      var user := session.value;
      var previousDay := Predecessor(later);
      if previousDay.None? {
        return Authorized(DateOverflow);
      }
      var date, yesterday := Ordinal(today), Ordinal(previousDay.value);
      assert yesterday == Ordinal(later) - 1;
      var streak := 1;
      var previous := FindFirst(moods, user, yesterday);
      if previous.Some? {
        streak := moods[previous.value].streak + 1;
      }
      var m := Mood(user, description, date, streak);
      assert m == NewRecord(moods, user, description, date, yesterday);
      AddKeepsStreaksPositive(moods, user, description, date, yesterday);
      if today == later && WellFormed(moods) {
        AddPreservesWellFormed(moods, user, description, date);
      }
      moods := moods + [m];
      r := Authorized(Added);
    }

    /** GET /mood: the listing of the session user's records. */
    method GetMoods() returns (r: Reply<Listing>)
      ensures session == None ==> r == Unauthorized
      ensures session.Some? ==> r == Authorized(ListFor(moods, session.value))
    {
      if session == None {
        return Unauthorized;
      }
      var records := OwnedBy(moods, session.value);
      if records == [] {
        return Authorized(NoRecords);
      }
      var output: seq<MoodView> := [];
      for i := 0 to |records|
        invariant |output| == i
        invariant forall k :: 0 <= k < i ==> output[k] == View(records[k])
      {
        output := output + [View(records[i])];
      }
      assert output == ListFor(moods, session.value).entries;
      r := Authorized(Records(output));
    }
  }

  /** "alice" registers, logs in with her password and logs out again. */
  method LoginExample(hash: string, check: (string, string) -> bool)
    requires check(hash, "secret")
  {
    var journal := new Journal();
    var created := journal.CreateUser("alice", hash);
    assert created == Created;
    assert journal.users == [User("alice", hash)];
    LoginWithUniqueNames(journal.users, 0, Some(Credentials("alice", "secret")), check);
    var login := journal.Login(Some(Credentials("alice", "secret")), check);
    assert login == LoggedIn && journal.session == Some("alice");
    var again := journal.CreateUser("alice", hash);
    assert again == DuplicateUsername;
    var out := journal.Logout();
    assert out == Authorized(()) && journal.session == None;
  }

  /**
   * "alice", logged in with no records yet, logs on day d1 (streak 1), on
   * the next day (streak 2), skips a day and logs on the day after (streak 1
   * again).
   */
  method StreakExample(journal: Journal, d1: Date)
    requires journal.Valid() && journal.session == Some("alice") && journal.moods == []
    requires Calendar.Valid(d1) && d1 != Date(MinYear, 1, 1)
    requires d1.day + 3 <= DaysInMonth(d1.year, d1.month)
    modifies journal
  {
    var d2 := Date(d1.year, d1.month, d1.day + 1);
    var d4 := Date(d1.year, d1.month, d1.day + 3);
    ghost var t1 := Ordinal(d1);
    assert Ordinal(d2) == t1 + 1 && Ordinal(d4) == t1 + 3;
    var first := journal.AddMood("calm", d1, d1);
    assert first.Authorized? && first.value != DateOverflow;
    ghost var m1 := Mood("alice", "calm", t1, 1);
    assert first == Authorized(Added) && journal.moods == [m1];
    var second := journal.AddMood("happy", d2, d2);
    assert second.Authorized? && second.value != DateOverflow;
    assert NextStreak([m1], "alice", t1) == 2;
    ghost var m2 := Mood("alice", "happy", t1 + 1, 2);
    assert second == Authorized(Added) && journal.moods == [m1, m2];
    var third := journal.AddMood("tired", d4, d4);
    assert third.Authorized? && third.value != DateOverflow;
    assert NextStreak([m1, m2], "alice", t1 + 2) == 1;
    assert third == Authorized(Added) && journal.moods == [m1, m2, Mood("alice", "tired", t1 + 3, 1)];
  }
}
