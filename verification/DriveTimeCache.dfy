/** The read-through drive-time cache: six-hour rows keyed by the normalised address pair. */
module DriveTimeCache {
  import opened Common
  import opened Labels
  import opened Text

  const DRIVE_TIME_TTL: Time := 6 * HOUR

  datatype Row = Row(seconds: int, expiresAt: Time)

  /** `_hash` is taken to be injective, so a row is keyed by the normalised strings themselves. */
  type Key = (string, string)

  type Rows = map<Key, Row>

  /** One call, with what the maps service would return for it if asked. */
  datatype Query = Query(origin: string, destination: string, now: Time, hasKey: bool, upstream: Option<int>)

  function KeyOf(q: Query): Key {
    (Normalize(q.origin), Normalize(q.destination))
  }

  predicate Hit(rows: Rows, q: Query) {
    KeyOf(q) in rows && rows[KeyOf(q)].expiresAt > q.now
  }

  /** The call reaches the maps service and gets a usable answer. */
  predicate Fetches(rows: Rows, q: Query) {
    q.origin != "" && q.destination != "" && !Hit(rows, q) && q.hasKey && q.upstream.Some?
  }

  function Answer(rows: Rows, q: Query): Option<int> {
    if q.origin == "" || q.destination == "" then None
    else if Hit(rows, q) then Some(rows[KeyOf(q)].seconds)
    else if !q.hasKey then None
    else q.upstream
  }

  function After(rows: Rows, q: Query): Rows {
    if Fetches(rows, q) then rows[KeyOf(q) := Row(q.upstream.value, q.now + DRIVE_TIME_TTL)] else rows
  }

  function Run(rows: Rows, qs: seq<Query>): Rows {
    if qs == [] then rows else After(Run(rows, qs[..|qs| - 1]), qs[|qs| - 1])
  }

  /** The answers of a run, in order. */
  function Answers(rows: Rows, qs: seq<Query>): seq<Option<int>> {
    if qs == [] then [] else
      Answers(rows, qs[..|qs| - 1]) + [Answer(Run(rows, qs[..|qs| - 1]), qs[|qs| - 1])]
  }

  ghost predicate Monotone(start: Time, qs: seq<Query>) {
    && (forall k :: 0 <= k < |qs| ==> start <= qs[k].now)
    && (forall j, k :: 0 <= j < k < |qs| ==> qs[j].now <= qs[k].now)
  }

  // ------------------------------------------------------------------------------------------
  // Every answer comes from the maps service
  // ------------------------------------------------------------------------------------------

  /** Call `j` of the run fetched `seconds` for the key. */
  ghost predicate FetchedAt(qs: seq<Query>, j: nat, key: Key, seconds: int) {
    j < |qs| && Fetches(Run(map[], qs[..j]), qs[j]) && KeyOf(qs[j]) == key && qs[j].upstream == Some(seconds)
  }

  /** Each row records some fetch of the run, and expires six hours after it. */
  lemma {:induction false} RowsRecordFetches(qs: seq<Query>, key: Key)
    requires key in Run(map[], qs)
    ensures var row := Run(map[], qs)[key];
            exists j: nat :: FetchedAt(qs, j, key, row.seconds) && row.expiresAt == qs[j].now + DRIVE_TIME_TTL
  {
    var n := |qs| - 1;
    var before, row := Run(map[], qs[..n]), Run(map[], qs)[key];
    if Fetches(before, qs[n]) && KeyOf(qs[n]) == key {
      assert FetchedAt(qs, n, key, row.seconds);
    } else {
      RowsRecordFetches(qs[..n], key);
      var j: nat :| FetchedAt(qs[..n], j, key, row.seconds) && row.expiresAt == qs[..n][j].now + DRIVE_TIME_TTL;
      assert qs[..n][..j] == qs[..j];
      assert FetchedAt(qs, j, key, row.seconds);
    }
  }

  /**
    In every run from an empty cache, whatever the clock does, a drive time given to call `k` was returned by the
    maps service for addresses with the same normal form, to call `k` itself or to an earlier call less than six
    hours before it.
   */
  lemma {:induction false} AnswersAreFetched(qs: seq<Query>, k: nat, seconds: int)
    requires k < |qs| && Answer(Run(map[], qs[..k]), qs[k]) == Some(seconds)
    ensures exists j: nat :: j <= k && FetchedAt(qs, j, KeyOf(qs[k]), seconds)
                             && (j == k || qs[k].now < qs[j].now + DRIVE_TIME_TTL)
  {
    var rows := Run(map[], qs[..k]);
    if Hit(rows, qs[k]) {
      RowsRecordFetches(qs[..k], KeyOf(qs[k]));
      var j: nat :| FetchedAt(qs[..k], j, KeyOf(qs[k]), seconds)
                    && rows[KeyOf(qs[k])].expiresAt == qs[..k][j].now + DRIVE_TIME_TTL;
      assert qs[..k][..j] == qs[..j];
      assert FetchedAt(qs, j, KeyOf(qs[k]), seconds);
    } else {
      assert FetchedAt(qs, k, KeyOf(qs[k]), seconds);
    }
  }

  // ------------------------------------------------------------------------------------------
  // A fetched time stays the answer for six hours
  // ------------------------------------------------------------------------------------------

  /** After a fetch, every call for the same normal form within six hours gets the fetched time. */
  lemma {:induction false} FetchedTimeIsStable(rows: Rows, first: Query, later: seq<Query>, q: Query)
    requires Fetches(rows, first) && Monotone(first.now, later + [q])
    requires q.now < first.now + DRIVE_TIME_TTL && KeyOf(q) == KeyOf(first) && q.origin != "" && q.destination != ""
    ensures Answer(Run(After(rows, first), later), q) == first.upstream
  {
    var all := later + [q];
    forall k | 0 <= k < |later|
      ensures later[k].now < first.now + DRIVE_TIME_TTL
    {
      assert all[k].now <= all[|later|].now;
    }
    LiveRowSurvives(After(rows, first), KeyOf(first), later);
  }

  lemma {:induction false} LiveRowSurvives(rows: Rows, key: Key, qs: seq<Query>)
    requires key in rows && forall k :: 0 <= k < |qs| ==> qs[k].now < rows[key].expiresAt
    ensures key in Run(rows, qs) && Run(rows, qs)[key] == rows[key]
  {
    if qs != [] {
      LiveRowSurvives(rows, key, qs[..|qs| - 1]);
    }
  }

  // ------------------------------------------------------------------------------------------
  // In numbers, and for addresses as they are written
  // ------------------------------------------------------------------------------------------

  /** The two calls ask for the same drive, up to case and white space at the ends of the addresses. */
  ghost predicate SameDrive(q: Query, r: Query) {
    SameLabel(q.origin, r.origin) && SameLabel(q.destination, r.destination)
  }

  lemma SameDriveIff(q: Query, r: Query)
    ensures KeyOf(q) == KeyOf(r) <==> SameDrive(q, r)
  {
    NormalizeIff(q.origin, r.origin);
    NormalizeIff(q.destination, r.destination);
  }

  /**
    On an empty cache, a call with both addresses and a key gets what the maps service returns. For six hours (21600
    seconds) from then on, a call for the same drive gets that time, whatever the service would say; a call for another
    drive does not see it; and at six hours the service is asked again.
   */
  lemma {:induction false} FetchedTimeServesSixHours(first: Query, again: Query)
    requires first.origin != "" && first.destination != "" && first.hasKey && first.upstream.Some?
    requires again.origin != "" && again.destination != "" && first.now <= again.now
    ensures Answer(map[], first) == first.upstream
    ensures var served := SameDrive(first, again) && again.now < first.now + 21_600_000_000;
            Answer(After(map[], first), again) ==
            if served then first.upstream else if again.hasKey then again.upstream else None
  {
    SameDriveIff(first, again);
  }

  /** In every run, an answer was returned for the same drive, to this call or less than six hours before. */
  lemma {:induction false} AnswersAreForTheSameDrive(qs: seq<Query>, k: nat, seconds: int)
    requires k < |qs| && Answer(Run(map[], qs[..k]), qs[k]) == Some(seconds)
    ensures exists j: nat :: j <= k && SameDrive(qs[j], qs[k]) && qs[j].upstream == Some(seconds)
                             && (j == k || qs[k].now < qs[j].now + 21_600_000_000)
  {
    AnswersAreFetched(qs, k, seconds);
    var j: nat :| j <= k && FetchedAt(qs, j, KeyOf(qs[k]), seconds)
                  && (j == k || qs[k].now < qs[j].now + DRIVE_TIME_TTL);
    SameDriveIff(qs[j], qs[k]);
  }

  // ------------------------------------------------------------------------------------------
  // Expired rows never matter
  // ------------------------------------------------------------------------------------------

  predicate LiveIn(rows: Rows, key: Key, now: Time) {
    key in rows && now < rows[key].expiresAt
  }

  /** The two caches hold the same unexpired rows. */
  ghost predicate SameLiveRows(a: Rows, b: Rows, now: Time) {
    forall key :: (LiveIn(a, key, now) <==> LiveIn(b, key, now)) && (LiveIn(a, key, now) ==> a[key] == b[key])
  }

  lemma SameStep(a: Rows, b: Rows, q: Query)
    requires SameLiveRows(a, b, q.now)
    ensures Answer(a, q) == Answer(b, q) && SameLiveRows(After(a, q), After(b, q), q.now)
  {
    assert LiveIn(a, KeyOf(q), q.now) <==> LiveIn(b, KeyOf(q), q.now);
    forall key
      ensures LiveIn(After(a, q), key, q.now) <==> LiveIn(After(b, q), key, q.now)
      ensures LiveIn(After(a, q), key, q.now) ==> After(a, q)[key] == After(b, q)[key]
    {
      assert LiveIn(a, key, q.now) <==> LiveIn(b, key, q.now);
    }
  }

  /** Caches that differ only in expired rows answer every later run alike. */
  lemma {:induction false} ExpiredRowsAreInvisible(a: Rows, b: Rows, now: Time, qs: seq<Query>)
    requires SameLiveRows(a, b, now) && Monotone(now, qs)
    ensures Answers(a, qs) == Answers(b, qs)
    ensures SameLiveRows(Run(a, qs), Run(b, qs), if qs == [] then now else qs[|qs| - 1].now)
  {
    if qs != [] {
      var n := |qs| - 1;
      MonotonePrefix(now, qs);
      ExpiredRowsAreInvisible(a, b, now, qs[..n]);
      var before := if n == 0 then now else qs[n - 1].now;
      assert n > 0 ==> qs[..n][n - 1] == qs[n - 1];
      LaterStillSame(Run(a, qs[..n]), Run(b, qs[..n]), before, qs[n].now);
      SameStep(Run(a, qs[..n]), Run(b, qs[..n]), qs[n]);
    }
  }

  lemma MonotonePrefix(start: Time, qs: seq<Query>)
    requires qs != [] && Monotone(start, qs)
    ensures Monotone(start, qs[..|qs| - 1])
  {
    var n := |qs| - 1;
    assert forall k :: 0 <= k < n ==> qs[..n][k] == qs[k];
  }

  lemma LaterStillSame(a: Rows, b: Rows, now: Time, later: Time)
    requires SameLiveRows(a, b, now) && now <= later
    ensures SameLiveRows(a, b, later)
  {
    forall key
      ensures (LiveIn(a, key, later) <==> LiveIn(b, key, later)) && (LiveIn(a, key, later) ==> a[key] == b[key])
    {
      assert LiveIn(a, key, now) <==> LiveIn(b, key, now);
    }
  }

  // ------------------------------------------------------------------------------------------
  // The service
  // ------------------------------------------------------------------------------------------

  class DriveTimes {
    var rows: Rows

    constructor ()
      ensures rows == map[]
    {
      rows := map[];
    }

    method GetDriveTimeSeconds(origin: string, destination: string, now: Time, hasKey: bool, upstream: Option<int>)
      returns (seconds: Option<int>)
      modifies this
      ensures var q := Query(origin, destination, now, hasKey, upstream);
              seconds == Answer(old(rows), q) && rows == After(old(rows), q)
    {
      if origin == "" || destination == "" {
        return None;
      }
      var key := (Normalize(origin), Normalize(destination));
      if key in rows && rows[key].expiresAt > now {
        return Some(rows[key].seconds);
      }
      if !hasKey || upstream.None? {
        return None;
      }
      UpsertDriveTime(key, upstream.value, now + DRIVE_TIME_TTL);
      seconds := upstream;
    }

    method UpsertDriveTime(key: Key, seconds: int, expiresAt: Time)
      modifies this
      ensures rows == old(rows)[key := Row(seconds, expiresAt)]
      ensures forall q: Query :: KeyOf(q) == key && q.now < expiresAt && q.origin != "" && q.destination != "" ==>
                Answer(rows, q) == Some(seconds)
      ensures forall q: Query :: KeyOf(q) != key ==> Answer(rows, q) == Answer(old(rows), q)
    {
      rows := rows[key := Row(seconds, expiresAt)];
    }
  }
}
