/**
 * The per-user score store of js/storage.js.
 *
 * The original keeps a JSON object in the browser's localStorage that maps
 * every username to a record, plus the name of the user who is logged in.
 * Here the whole object is an in-memory map and the login name an optional
 * string; every timestamp (an ISO date string in the original) is passed in.
 */
module Storage {
  import opened Options

  /** How many runs a user's history keeps, newest first. */
  const MaxHistory: nat := 20

  /** An ISO-8601 time string, produced by the clock outside the model. */
  type Timestamp = string

  datatype ScoreEntry = ScoreEntry(score: int, date: Timestamp)

  datatype UserRecord = UserRecord(
    loginTime: Timestamp,
    lastLoginTime: Timestamp,
    highScore: int,
    scoreHistory: seq<ScoreEntry>)

  /** What every record the store creates and updates satisfies. */
  predicate WellFormed(rec: UserRecord) {
    && rec.highScore >= 0
    && |rec.scoreHistory| <= MaxHistory
    && forall i :: 0 <= i < |rec.scoreHistory| ==> rec.scoreHistory[i].score <= rec.highScore
  }

  predicate AllWellFormed(users: map<string, UserRecord>) {
    forall u :: u in users ==> WellFormed(users[u])
  }

  /**
   * The login name kept after `setCurrentUsername(username)`: the original
   * stores any truthy string and removes the key for `null` and for "".
   */
  function StoredName(username: Option<string>): (r: Option<string>)
    ensures r != Some("")
    ensures r.Some? ==> r == username
    ensures username.Some? && username.value != "" ==> r == username
  {
    if username.Some? && username.value != "" then username else None
  }

  /** The record of the logged-in user, or None (getCurrentUser). */
  function Lookup(users: map<string, UserRecord>, current: Option<string>): (r: Option<UserRecord>)
    ensures r.Some? <==> current.Some? && current.value != "" && current.value in users
    ensures r.Some? ==> r.value == users[current.value]
  {
    if current.Some? && current.value != "" && current.value in users then Some(users[current.value]) else None
  }

  /** The record of a user seen for the first time. */
  function NewUser(now: Timestamp): (r: UserRecord)
    ensures WellFormed(r) && r.highScore == 0 && r.scoreHistory == []
    ensures r.loginTime == now && r.lastLoginTime == now
  {
    UserRecord(now, now, 0, [])
  }

  /**
   * The record after one finished run with `score` at time `now`: the high
   * score is raised to the run's score when that is larger, the run goes in
   * front of the history, and one entry is dropped from the end when the
   * history then holds more than MaxHistory entries.
   */
  function WithScore(rec: UserRecord, score: int, now: Timestamp): (r: UserRecord)
    ensures r.loginTime == rec.loginTime && r.lastLoginTime == rec.lastLoginTime
    ensures r.highScore >= rec.highScore && r.highScore >= score
    ensures r.highScore == rec.highScore || r.highScore == score
    ensures |r.scoreHistory| >= 1 && r.scoreHistory[0] == ScoreEntry(score, now)
    ensures |r.scoreHistory| - 1 <= |rec.scoreHistory|
    ensures r.scoreHistory[1..] == rec.scoreHistory[..|r.scoreHistory| - 1]
    ensures |rec.scoreHistory| < MaxHistory ==> |r.scoreHistory| == |rec.scoreHistory| + 1
    ensures |rec.scoreHistory| == MaxHistory ==> |r.scoreHistory| == MaxHistory
    ensures WellFormed(rec) ==> WellFormed(r)
  {
    var history := [ScoreEntry(score, now)] + rec.scoreHistory;
    var high := if score > rec.highScore then score else rec.highScore;
    UserRecord(rec.loginTime, rec.lastLoginTime, high,
               if |history| > MaxHistory then history[..|history| - 1] else history)
  }

  /** Whether a run with `score` beats the logged-in user's high score. */
  predicate BeatsHighScore(users: map<string, UserRecord>, current: Option<string>, score: int)
    ensures BeatsHighScore(users, current, score) ==> Lookup(users, current).Some?
    ensures AllWellFormed(users) && BeatsHighScore(users, current, score) ==> score > 0
  {
    Lookup(users, current).Some? && score > Lookup(users, current).value.highScore
  }

  /** The whole store after `saveScore(score)` at time `now`. */
  function ScoreRecorded(users: map<string, UserRecord>, current: Option<string>, score: int, now: Timestamp)
    : (r: map<string, UserRecord>)
    ensures r.Keys == users.Keys
    ensures forall u :: u in users && Some(u) != current ==> r[u] == users[u]
    ensures Lookup(users, current).None? ==> r == users
    ensures Lookup(users, current).Some? ==>
              r[current.value] == WithScore(users[current.value], score, now)
    ensures AllWellFormed(users) ==> AllWellFormed(r)
  {
    match Lookup(users, current)
    case None => users
    case Some(rec) => users[current.value := WithScore(rec, score, now)]
  }

  /** The whole store after `saveUser(username)` at time `now`. */
  function UserSaved(users: map<string, UserRecord>, username: string, now: Timestamp)
    : (r: map<string, UserRecord>)
    ensures r.Keys == users.Keys + {username}
    ensures forall u :: u in users && u != username ==> r[u] == users[u]
    ensures username in users ==>
              && r[username].lastLoginTime == now
              && r[username].loginTime == users[username].loginTime
              && r[username].highScore == users[username].highScore
              && r[username].scoreHistory == users[username].scoreHistory
    ensures username !in users ==> r[username] == NewUser(now)
    ensures AllWellFormed(users) ==> AllWellFormed(r)
  {
    if username in users then users[username := users[username].(lastLoginTime := now)]
    else users[username := NewUser(now)]
  }

  /**
   * A fresh record followed through a series of finished runs, oldest run
   * first: the record the store holds after `saveScore` was called once per run.
   */
  function RecordAll(rec: UserRecord, runs: seq<ScoreEntry>): UserRecord
    decreases |runs|
  {
    if runs == [] then rec
    else RecordAll(WithScore(rec, runs[0].score, runs[0].date), runs[1..])
  }

  function MaxScore(runs: seq<ScoreEntry>, floor: int): int
    decreases |runs|
  {
    if runs == [] then floor
    else
      var rest := MaxScore(runs[1..], floor);
      if runs[0].score > rest then runs[0].score else rest
  }

  /** The runs in reverse order: newest first. */
  function NewestFirst(runs: seq<ScoreEntry>): (r: seq<ScoreEntry>)
    ensures |r| == |runs|
    decreases |runs|
  {
    if runs == [] then [] else NewestFirst(runs[1..]) + [runs[0]]
  }

  /** The first `n` entries of `s`, or all of them when there are fewer. */
  function Take(s: seq<ScoreEntry>, n: nat): (r: seq<ScoreEntry>)
    ensures |r| == if |s| <= n then |s| else n
    ensures r == s[..|r|]
  {
    if |s| <= n then s else s[..n]
  }

  /** Cutting the tail of a sequence before cutting the whole to `n` entries changes nothing. */
  lemma TakeTwice(a: seq<ScoreEntry>, b: seq<ScoreEntry>, n: nat)
    ensures Take(a + Take(b, n), n) == Take(a + b, n)
  {
    if |a| + |b| > n && |b| > n {
      assert (a + Take(b, n))[..n] == (a + b)[..n];
    }
  }

  /**
   * The high score is the largest score over all runs (and at least the
   * starting high score), the history never exceeds MaxHistory, and it holds
   * exactly the most recent runs, newest first, followed by what is left of
   * the history before them.
   */
  lemma {:induction false} RecordAllKeepsBest(rec: UserRecord, runs: seq<ScoreEntry>)
    requires WellFormed(rec)
    ensures WellFormed(RecordAll(rec, runs))
    ensures RecordAll(rec, runs).highScore == MaxScore(runs, rec.highScore)
    ensures |RecordAll(rec, runs).scoreHistory| ==
              if |rec.scoreHistory| + |runs| <= MaxHistory then |rec.scoreHistory| + |runs| else MaxHistory
    ensures RecordAll(rec, runs).loginTime == rec.loginTime
    ensures RecordAll(rec, runs).lastLoginTime == rec.lastLoginTime
    ensures RecordAll(rec, runs).scoreHistory == Take(NewestFirst(runs) + rec.scoreHistory, MaxHistory)
    decreases |runs|
  {
    RecordAllHistory(rec.scoreHistory, rec, runs);
    if runs != [] {
      var next := WithScore(rec, runs[0].score, runs[0].date);
      RecordAllKeepsBest(next, runs[1..]);
      MaxScoreShift(runs[1..], rec.highScore, runs[0].score);
    }
  }

  /** Recording one run into a history of at most MaxHistory entries puts it in front and cuts to MaxHistory. */
  lemma WithScoreTakes(rec: UserRecord, run: ScoreEntry)
    requires |rec.scoreHistory| <= MaxHistory
    ensures WithScore(rec, run.score, run.date).scoreHistory == Take([run] + rec.scoreHistory, MaxHistory)
  {
  }

  /** Reversing peels the first run off to the back. */
  lemma NewestFirstStep(runs: seq<ScoreEntry>, history: seq<ScoreEntry>)
    requires runs != []
    ensures NewestFirst(runs[1..]) + ([runs[0]] + history) == NewestFirst(runs) + history
  {
  }

  /** The history part of RecordAllKeepsBest, by induction on the runs. */
  lemma {:induction false} RecordAllHistory(history: seq<ScoreEntry>, rec: UserRecord, runs: seq<ScoreEntry>)
    requires rec.scoreHistory == history && |history| <= MaxHistory
    ensures RecordAll(rec, runs).scoreHistory == Take(NewestFirst(runs) + history, MaxHistory)
    decreases |runs|
  {
    if runs == [] {
      assert NewestFirst(runs) + history == history;
    } else {
      var next := WithScore(rec, runs[0].score, runs[0].date);
      var cut := Take([runs[0]] + history, MaxHistory);
      WithScoreTakes(rec, runs[0]);
      assert next.scoreHistory == cut && |cut| <= MaxHistory;
      assert RecordAll(rec, runs) == RecordAll(next, runs[1..]);
      RecordAllHistory(cut, next, runs[1..]);
      TakeTwice(NewestFirst(runs[1..]), [runs[0]] + history, MaxHistory);
      NewestFirstStep(runs, history);
    }
  }

  /** Folding the first run into the floor of MaxScore gives the same maximum. */
  lemma {:induction false} MaxScoreShift(runs: seq<ScoreEntry>, floor: int, first: int)
    ensures MaxScore(runs, if first > floor then first else floor) ==
            (var m := MaxScore(runs, floor); if first > m then first else m)
    decreases |runs|
  {
    if runs != [] {
      MaxScoreShift(runs[1..], floor, first);
    }
  }

  /** The store: all users' records and the name of the user who is logged in. */
  class ScoreStore {
    var users: map<string, UserRecord>
    var currentUsername: Option<string>

    ghost predicate Valid()
      reads this
    {
      currentUsername != Some("") && AllWellFormed(users)
    }

    /** An empty store with nobody logged in. */
    constructor ()
      ensures Valid()
      ensures users == map[] && currentUsername == None
    {
      users := map[];
      currentUsername := None;
    }

    /** setCurrentUsername: a login name, or None to log out. */
    method SetCurrentUsername(username: Option<string>)
      modifies this`currentUsername
      ensures currentUsername == StoredName(username)
    {
      if username.Some? && username.value != "" {
        currentUsername := username;
      } else {
        currentUsername := None;
      }
    }

    /** getCurrentUser */
    function CurrentUser(): (r: Option<UserRecord>)
      reads this
      ensures r.Some? ==> currentUsername.Some? && currentUsername.value in users
      ensures r.Some? ==> r.value == users[currentUsername.value]
      ensures currentUsername.None? ==> r.None?
      ensures currentUsername != Some("") && currentUsername.Some? && currentUsername.value in users ==> r.Some?
    {
      Lookup(users, currentUsername)
    }

    /** getHighScore: the logged-in user's high score, 0 when there is none. */
    function HighScore(): (h: int)
      reads this
      requires Valid()
      ensures h >= 0
      ensures CurrentUser().None? ==> h == 0
      ensures CurrentUser().Some? ==> h == CurrentUser().value.highScore
      ensures forall i :: 0 <= i < |ScoreHistory()| ==> ScoreHistory()[i].score <= h
    {
      match CurrentUser()
      case None => 0
      case Some(rec) => rec.highScore
    }

    /** getScoreHistory: the logged-in user's runs, newest first, empty when there is none. */
    function ScoreHistory(): (h: seq<ScoreEntry>)
      reads this
      requires Valid()
      ensures |h| <= MaxHistory
      ensures CurrentUser().None? ==> h == []
      ensures CurrentUser().Some? ==> h == CurrentUser().value.scoreHistory
    {
      match CurrentUser()
      case None => []
      case Some(rec) => rec.scoreHistory
    }

    /** getLoginTime: the logged-in user's latest login time. */
    function LoginTime(): (t: Option<Timestamp>)
      reads this
      ensures t.Some? <==> CurrentUser().Some?
      ensures t.Some? ==> t.value == CurrentUser().value.lastLoginTime
    {
      match CurrentUser()
      case None => None
      case Some(rec) => Some(rec.lastLoginTime)
    }

    /**
     * saveUser: creates the record of a new user, or refreshes only the last
     * login time of a known one, and logs the user in.
     */
    method SaveUser(username: string, now: Timestamp) returns (rec: UserRecord)
      requires Valid()
      modifies this
      ensures Valid()
      ensures users == UserSaved(old(users), username, now)
      ensures currentUsername == StoredName(Some(username))
      ensures rec == users[username]
      ensures username != "" ==> CurrentUser() == Some(rec) && LoginTime() == Some(now)
    {
      if username in users {
        users := users[username := users[username].(lastLoginTime := now)];
      } else {
        users := users[username := NewUser(now)];
      }
      SetCurrentUsername(Some(username));
      rec := users[username];
    }

    /**
     * saveScore: records a finished run for the logged-in user and reports
     * whether it set a new high score. Nothing changes when nobody is logged
     * in or the logged-in name has no record.
     */
    method SaveScore(score: int, now: Timestamp) returns (isNewRecord: bool)
      requires Valid()
      modifies this
      ensures Valid()
      ensures currentUsername == old(currentUsername)
      ensures users == ScoreRecorded(old(users), old(currentUsername), score, now)
      ensures isNewRecord == BeatsHighScore(old(users), old(currentUsername), score)
      ensures old(CurrentUser()).Some? ==>
                && HighScore() == (if score > old(HighScore()) then score else old(HighScore()))
                && ScoreHistory()[0] == ScoreEntry(score, now)
    {
      if currentUsername.None? || currentUsername.value == "" {
        return false;
      }
      var username := currentUsername.value;
      if username !in users {
        return false;
      }
      var user := users[username];
      isNewRecord := score > user.highScore;
      if isNewRecord {
        user := user.(highScore := score);
      }
      var history := [ScoreEntry(score, now)] + user.scoreHistory;
      if |history| > MaxHistory {
        history := history[..|history| - 1];
      }
      user := user.(scoreHistory := history);
      users := users[username := user];
    }

    /** logout: forgets who is logged in; the records stay. */
    method Logout()
      requires Valid()
      modifies this`currentUsername
      ensures Valid()
      ensures currentUsername == None
      ensures CurrentUser() == None && HighScore() == 0 && ScoreHistory() == [] && LoginTime() == None
    {
      SetCurrentUsername(None);
    }
  }

  /**
   * A run sets a new high score exactly when the recorded high score rises,
   * and then the new high score is that run's score.
   */
  lemma NewRecordIffHighScoreRises(users: map<string, UserRecord>, current: Option<string>, score: int, now: Timestamp)
    requires Lookup(users, current).Some?
    ensures var after := ScoreRecorded(users, current, score, now)[current.value];
            && (BeatsHighScore(users, current, score) <==> after.highScore > users[current.value].highScore)
            && (BeatsHighScore(users, current, score) ==> after.highScore == score)
            && (!BeatsHighScore(users, current, score) ==> after.highScore == users[current.value].highScore)
  {
  }
}
