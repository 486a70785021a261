/**
 * The mood ledger: the append-only store of mood records and the two
 * queries the journal runs on it, the streak look-up made when a record is
 * added and the per-user listing.
 *
 * Dates are day numbers (see module Calendar): two records carry the same
 * date exactly when their day numbers are equal.
 * The store lists records in insertion order, which is the order the
 * database returns them in.
 */
module Ledger {
  import opened Wrappers

  datatype Mood = Mood(username: string, description: string, date: int, streak: int)

  /** What the listing shows of a record: everything but the owner. */
  datatype MoodView = MoodView(description: string, date: int, streak: int)

  /** The listing of one user's records, or the "No mood records currently stored!" indicator. */
  datatype Listing = NoRecords | Records(entries: seq<MoodView>)

  predicate LoggedOn(m: Mood, user: string, day: int) {
    m.username == user && m.date == day
  }

  /**
   * The position of the first record of user dated day, as the query
   * filter_by(username, date).first() finds it.
   */
  function FindFirst(store: seq<Mood>, user: string, day: int): (r: Option<nat>)
    ensures r.None? <==> forall k :: 0 <= k < |store| ==> !LoggedOn(store[k], user, day)
    ensures r.Some? ==>
              && r.value < |store|
              && LoggedOn(store[r.value], user, day)
              && forall k :: 0 <= k < r.value ==> !LoggedOn(store[k], user, day)
  {
    if store == [] then None
    else if LoggedOn(store[0], user, day) then Some(0)
    else match FindFirst(store[1..], user, day)
      case None => None
      case Some(k) => Some(k + 1)
  }

  /**
   * The streak of a record that user adds when the look-up asks for
   * previousDay: one more than the streak of the first record of user dated
   * previousDay, or 1 when there is none.
   */
  function NextStreak(store: seq<Mood>, user: string, previousDay: int): (r: int)
    ensures (forall k :: 0 <= k < |store| ==> !LoggedOn(store[k], user, previousDay)) ==> r == 1
    ensures forall k ::
              && 0 <= k < |store|
              && LoggedOn(store[k], user, previousDay)
              && (forall j :: 0 <= j < k ==> !LoggedOn(store[j], user, previousDay))
              ==> r == store[k].streak + 1
  {
    match FindFirst(store, user, previousDay)
    case None => 1
    case Some(k) => store[k].streak + 1
  }

  /** The record user adds, dated today, with the streak looked up for previousDay. */
  function NewRecord(store: seq<Mood>, user: string, description: string, today: int, previousDay: int): Mood {
    Mood(user, description, today, NextStreak(store, user, previousDay))
  }

  ghost predicate StreaksPositive(store: seq<Mood>) {
    forall i :: 0 <= i < |store| ==> store[i].streak >= 1
  }

  /** Some record before position n belongs to user and is dated day. */
  ghost predicate LoggedBefore(store: seq<Mood>, n: int, user: string, day: int)
    requires 0 <= n <= |store|
  {
    exists k :: 0 <= k < n && LoggedOn(store[k], user, day)
  }

  /**
   * A streak of s on day d means its owner had already logged a record on
   * each of the s - 1 days before d.
   */
  ghost predicate StreaksWitnessed(store: seq<Mood>) {
    forall i, d ::
      0 <= i < |store| && store[i].date - store[i].streak < d < store[i].date ==>
        LoggedBefore(store, i, store[i].username, d)
  }

  /** The invariant the store keeps. */
  ghost predicate WellFormed(store: seq<Mood>) {
    StreaksPositive(store) && StreaksWitnessed(store)
  }

  /** When every streak is at least 1, the new streak is at least 1, and exactly 1 when nothing is dated previousDay. */
  lemma NextStreakBounds(store: seq<Mood>, user: string, previousDay: int)
    requires StreaksPositive(store)
    ensures NextStreak(store, user, previousDay) >= 1
    ensures NextStreak(store, user, previousDay) == 1 <==>
              forall k :: 0 <= k < |store| ==> !LoggedOn(store[k], user, previousDay)
  {
    match FindFirst(store, user, previousDay)
    case None =>
    case Some(k) =>
      assert store[k].streak >= 1;
  }

  /** Appending a new record keeps every streak at least 1, whatever day the look-up asked for. */
  lemma AddKeepsStreaksPositive(store: seq<Mood>, user: string, description: string, today: int, previousDay: int)
    requires StreaksPositive(store)
    ensures StreaksPositive(store + [NewRecord(store, user, description, today, previousDay)])
  {
  }

  /**
   * When the look-up asks for the day before the record's own date, appending
   * the record keeps the store well formed.
   */
  lemma AddPreservesWellFormed(store: seq<Mood>, user: string, description: string, today: int)
    requires WellFormed(store)
    ensures WellFormed(store + [NewRecord(store, user, description, today, today - 1)])
  {
    var m := NewRecord(store, user, description, today, today - 1);
    var s := store + [m];
    var n := |store|;
    AddKeepsStreaksPositive(store, user, description, today, today - 1);
    forall i, d | 0 <= i < |s| && s[i].date - s[i].streak < d < s[i].date
      ensures LoggedBefore(s, i, s[i].username, d)
    {
      if i < n {
        assert s[i] == store[i];
        assert LoggedBefore(store, i, store[i].username, d);
        var k :| 0 <= k < i && LoggedOn(store[k], store[i].username, d);
        assert s[k] == store[k];
      } else {
        assert s[i] == m;
        match FindFirst(store, user, today - 1)
        case None =>
          assert false;
        case Some(f) =>
          if d == today - 1 {
            assert s[f] == store[f];
          } else {
            assert store[f].date - store[f].streak < d < store[f].date;
            assert LoggedBefore(store, f, store[f].username, d);
            var k :| 0 <= k < f && LoggedOn(store[k], user, d);
            assert s[k] == store[k];
          }
      }
    }
  }

  /**
   * When the look-up asks for the record's own date instead, as it does when
   * the two clock reads of one request fall on either side of midnight, a
   * record of day d followed by one stamped d again gives a streak of 2 with
   * nothing logged on day d - 1.
   */
  lemma StraddleBreaksWitness(d: int)
    ensures var store := [Mood("alice", "a", d, 1)];
            var m := NewRecord(store, "alice", "b", d, d);
            && m.streak == 2
            && WellFormed(store)
            && !StreaksWitnessed(store + [m])
  {
    var store := [Mood("alice", "a", d, 1)];
    var s := store + [NewRecord(store, "alice", "b", d, d)];
    assert LoggedOn(store[0], "alice", d);
    assert s[1].date - s[1].streak < d - 1 < s[1].date;
    assert !LoggedBefore(s, 1, "alice", d - 1);
  }

  /** The records of user, in store order: what filter_by(username).all() returns. */
  function OwnedBy(store: seq<Mood>, user: string): (r: seq<Mood>)
    ensures |r| <= |store|
    ensures forall k :: 0 <= k < |r| ==> r[k].username == user
    ensures r == [] <==> forall i :: 0 <= i < |store| ==> store[i].username != user
  {
    if store == [] then []
    else (if store[0].username == user then [store[0]] else []) + OwnedBy(store[1..], user)
  }

  /** Filtering distributes over concatenation, so it keeps store order. */
  lemma {:induction false} OwnedByConcat(a: seq<Mood>, b: seq<Mood>, user: string)
    ensures OwnedBy(a + b, user) == OwnedBy(a, user) + OwnedBy(b, user)
  {
    if a == [] {
      assert a + b == b;
    } else {
      assert (a + b)[1..] == a[1..] + b;
      OwnedByConcat(a[1..], b, user);
    }
  }

  /** Every record of user stays in the filtered store, as often as it occurs in the store. */
  lemma {:induction false} OwnedByKeepsOwn(store: seq<Mood>, user: string, m: Mood)
    requires m.username == user
    ensures multiset(OwnedBy(store, user))[m] == multiset(store)[m]
  {
    if store != [] {
      assert store == [store[0]] + store[1..];
      OwnedByKeepsOwn(store[1..], user, m);
    }
  }

  /** Adding a record of one user changes no other user's records. */
  lemma OwnedByAfterAdd(store: seq<Mood>, m: Mood, user: string)
    ensures OwnedBy(store + [m], user) ==
              if m.username == user then OwnedBy(store, user) + [m] else OwnedBy(store, user)
  {
    OwnedByConcat(store, [m], user);
    assert [m][1..] == [];
  }

  /** The streak rule sees nothing of other users' records. */
  lemma {:induction false} StreakIgnoresOtherUsers(store: seq<Mood>, user: string, previousDay: int)
    ensures NextStreak(OwnedBy(store, user), user, previousDay) == NextStreak(store, user, previousDay)
  {
    if store != [] {
      StreakIgnoresOtherUsers(store[1..], user, previousDay);
      var own := OwnedBy(store, user);
      var rest := OwnedBy(store[1..], user);
      if store[0].username == user {
        assert own == [store[0]] + rest;
        assert own[1..] == rest;
      } else {
        assert own == rest;
      }
    }
  }

  function View(m: Mood): MoodView {
    MoodView(m.description, m.date, m.streak)
  }

  /**
   * The listing user gets: the indicator when there is no record of theirs,
   * otherwise each of their records, in store order, without the owner.
   */
  function ListFor(store: seq<Mood>, user: string): (r: Listing)
    ensures r == NoRecords <==> forall i :: 0 <= i < |store| ==> store[i].username != user
    ensures r.Records? ==>
              var own := OwnedBy(store, user);
              && |r.entries| == |own| > 0
              && forall k :: 0 <= k < |own| ==> r.entries[k] == View(own[k])
  {
    var own := OwnedBy(store, user);
    if own == [] then NoRecords
    else Records(seq(|own|, k requires 0 <= k < |own| => View(own[k])))
  }
}
