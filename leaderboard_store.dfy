/** The top-ten high-score list (src/stores/leaderboardStore.ts). */
module LeaderboardStore {
  import opened Types

  /** One recorded game: its score, the day as "YYYY-MM-DD", and its mode. */
  datatype HighScoreEntry = HighScoreEntry(score: int, date: string, mode: GameMode)

  const MAX_ENTRIES: nat := 10

  predicate SortedDesc(s: seq<HighScoreEntry>) {
    forall i, j | 0 <= i < j < |s| :: s[i].score >= s[j].score
  }

  /**
   * Places `e` after every leading entry whose score is at least e's: where a stable
   * descending sort puts an element that comes after all of `sorted`.
   */
  function InsertDesc(sorted: seq<HighScoreEntry>, e: HighScoreEntry): (r: seq<HighScoreEntry>)
    ensures |r| == |sorted| + 1
    ensures multiset(r) == multiset(sorted) + multiset{e}
    decreases |sorted|
  {
    if sorted == [] then [e]
    else if sorted[0].score >= e.score then
      assert sorted == [sorted[0]] + sorted[1..];
      [sorted[0]] + InsertDesc(sorted[1..], e)
    else [e] + sorted
  }

  lemma {:induction false} InsertKeepsSorted(sorted: seq<HighScoreEntry>, e: HighScoreEntry)
    requires SortedDesc(sorted)
    ensures SortedDesc(InsertDesc(sorted, e))
    decreases |sorted|
  {
    if sorted != [] && sorted[0].score >= e.score {
      var rest := InsertDesc(sorted[1..], e);
      InsertKeepsSorted(sorted[1..], e);
      forall k | 0 <= k < |rest| ensures sorted[0].score >= rest[k].score {
        assert rest[k] in multiset(rest);
        assert rest[k] in sorted[1..] || rest[k] == e;
      }
    }
  }

  /** `[...].sort((a, b) => b.score - a.score)`: a stable sort, highest score first (insertion sort). */
  function SortDesc(s: seq<HighScoreEntry>): (r: seq<HighScoreEntry>)
    ensures |r| == |s|
    ensures multiset(r) == multiset(s)
    ensures SortedDesc(r)
  {
    if s == [] then []
    else
      assert s == s[..|s| - 1] + [s[|s| - 1]];
      var sortedPrefix := SortDesc(s[..|s| - 1]);
      InsertKeepsSorted(sortedPrefix, s[|s| - 1]);
      InsertDesc(sortedPrefix, s[|s| - 1])
  }

  /** The entries with score v, in order: the relative order a stable sort must keep. */
  function WithScore(s: seq<HighScoreEntry>, v: int): seq<HighScoreEntry> {
    if s == [] then [] else (if s[0].score == v then [s[0]] else []) + WithScore(s[1..], v)
  }

  lemma {:induction false} WithScoreAppend(a: seq<HighScoreEntry>, b: seq<HighScoreEntry>, v: int)
    ensures WithScore(a + b, v) == WithScore(a, v) + WithScore(b, v)
  {
    if a == [] {
      assert a + b == b;
    } else {
      assert (a + b)[0] == a[0] && (a + b)[1..] == a[1..] + b;
      WithScoreAppend(a[1..], b, v);
    }
  }

  lemma {:induction false} WithScoreAllLower(s: seq<HighScoreEntry>, v: int)
    requires forall i | 0 <= i < |s| :: s[i].score < v
    ensures WithScore(s, v) == []
  {
    if s != [] {
      WithScoreAllLower(s[1..], v);
    }
  }

  lemma {:induction false} InsertKeepsTies(sorted: seq<HighScoreEntry>, e: HighScoreEntry, v: int)
    requires SortedDesc(sorted)
    ensures WithScore(InsertDesc(sorted, e), v) == WithScore(sorted, v) + (if e.score == v then [e] else [])
    decreases |sorted|
  {
    if sorted == [] {
    } else if sorted[0].score >= e.score {
      InsertKeepsTies(sorted[1..], e, v);
      assert ([sorted[0]] + InsertDesc(sorted[1..], e))[1..] == InsertDesc(sorted[1..], e);
    } else {
      assert ([e] + sorted)[1..] == sorted;
      if e.score == v {
        WithScoreAllLower(sorted, v);
      }
    }
  }

  /** The sort is stable: for every score, the entries with that score keep their order. */
  lemma {:induction false} SortKeepsTies(s: seq<HighScoreEntry>, v: int)
    ensures WithScore(SortDesc(s), v) == WithScore(s, v)
  {
    if s != [] {
      var p, last := s[..|s| - 1], s[|s| - 1];
      assert s == p + [last];
      var tie := if last.score == v then [last] else [];
      assert SortDesc(s) == InsertDesc(SortDesc(p), last);
      InsertKeepsTies(SortDesc(p), last, v);
      SortKeepsTies(p, v);
      assert WithScore(SortDesc(s), v) == WithScore(p, v) + tie;
      assert [last][1..] == [];
      assert WithScore([last], v) == tie;
      WithScoreAppend(p, [last], v);
    }
  }

  lemma {:induction false} InsertAfterAllHigher(sorted: seq<HighScoreEntry>, e: HighScoreEntry)
    requires forall i | 0 <= i < |sorted| :: sorted[i].score >= e.score
    ensures InsertDesc(sorted, e) == sorted + [e]
    decreases |sorted|
  {
    if sorted != [] {
      InsertAfterAllHigher(sorted[1..], e);
    }
  }

  /** A list that is already in order is left as it is by the sort. */
  lemma {:induction false} SortOfSortedIsIdentity(s: seq<HighScoreEntry>)
    requires SortedDesc(s)
    ensures SortDesc(s) == s
  {
    if s != [] {
      var p, last := s[..|s| - 1], s[|s| - 1];
      SortOfSortedIsIdentity(p);
      InsertAfterAllHigher(p, last);
      assert p + [last] == s;
    }
  }

  /** `.slice(0, n)` for n >= 0. */
  function Take(s: seq<HighScoreEntry>, n: nat): seq<HighScoreEntry> {
    if |s| <= n then s else s[..n]
  }

  /** `.some(entry => entry.score === score && entry.date === date && entry.mode === mode)`. */
  predicate ContainsEntry(list: seq<HighScoreEntry>, score: int, date: string, mode: GameMode) {
    exists i | 0 <= i < |list| :: list[i].score == score && list[i].date == date && list[i].mode == mode
  }

  datatype AddResult = AddResult(scores: seq<HighScoreEntry>, qualifies: bool)

  /** The new list and the return value of addScore. */
  function AddScoreResult(scores: seq<HighScoreEntry>, score: int, mode: GameMode, date: string): AddResult {
    if score == 0 then AddResult(scores, false)
    else
      var updated := Take(SortDesc(scores + [HighScoreEntry(score, date, mode)]), MAX_ENTRIES);
      AddResult(updated, ContainsEntry(updated, score, date, mode))
  }

  lemma AddZeroScoreIgnored(scores: seq<HighScoreEntry>, mode: GameMode, date: string)
    ensures AddScoreResult(scores, 0, mode, date) == AddResult(scores, false)
  {
  }

  /** A recorded score leaves at most ten entries, one more if there was room, highest first. */
  lemma AddScoreBoundedAndSorted(scores: seq<HighScoreEntry>, score: int, mode: GameMode, date: string)
    requires score != 0
    ensures var r := AddScoreResult(scores, score, mode, date).scores;
      && |r| == (if |scores| + 1 <= MAX_ENTRIES then |scores| + 1 else MAX_ENTRIES)
      && SortedDesc(r)
  {
  }

  /** Every entry kept is the new one or an old one, with no entry duplicated. */
  lemma AddScoreInventsNothing(scores: seq<HighScoreEntry>, score: int, mode: GameMode, date: string)
    ensures multiset(AddScoreResult(scores, score, mode, date).scores)
      <= multiset(scores) + multiset{HighScoreEntry(score, date, mode)}
  {
    if score != 0 {
      var sorted := SortDesc(scores + [HighScoreEntry(score, date, mode)]);
      if |sorted| > MAX_ENTRIES {
        assert sorted == sorted[..MAX_ENTRIES] + sorted[MAX_ENTRIES..];
      }
    }
  }

  /** On a sorted list the new entry goes after every entry with an equal or higher score, then the list is cut to ten. */
  lemma AddScoreInsertsAfterTies(scores: seq<HighScoreEntry>, score: int, mode: GameMode, date: string)
    requires score != 0 && SortedDesc(scores)
    ensures AddScoreResult(scores, score, mode, date).scores
      == Take(InsertDesc(scores, HighScoreEntry(score, date, mode)), MAX_ENTRIES)
  {
    var e := HighScoreEntry(score, date, mode);
    assert (scores + [e])[..|scores|] == scores;
    SortOfSortedIsIdentity(scores);
  }

  /** With fewer than ten entries any non-zero score is reported as qualifying. */
  lemma AddScoreQualifiesWithRoom(scores: seq<HighScoreEntry>, score: int, mode: GameMode, date: string)
    requires score != 0 && |scores| < MAX_ENTRIES
    ensures AddScoreResult(scores, score, mode, date).qualifies
  {
    var e := HighScoreEntry(score, date, mode);
    var sorted := SortDesc(scores + [e]);
    assert e in multiset(sorted);
    var i :| 0 <= i < |sorted| && sorted[i] == e;
  }

  /** Ten entries that all beat the score stay as they are, and the score does not qualify. */
  lemma AddScoreBelowFullBoard(scores: seq<HighScoreEntry>, score: int, mode: GameMode, date: string)
    requires |scores| == MAX_ENTRIES && SortedDesc(scores)
    requires forall i | 0 <= i < |scores| :: scores[i].score > score
    ensures AddScoreResult(scores, score, mode, date) == AddResult(scores, false)
  {
    if score != 0 {
      var e := HighScoreEntry(score, date, mode);
      AddScoreInsertsAfterTies(scores, score, mode, date);
      InsertAfterAllHigher(scores, e);
      assert (scores + [e])[..MAX_ENTRIES] == scores;
    }
  }

  /**
   * The report compares values, not identity: on a full board of entries equal to the new one,
   * the new entry is cut off and yet the call reports that it qualifies.
   */
  lemma AddScoreReportsEqualEntryAsQualifying(date: string, mode: GameMode)
    ensures var full := seq(MAX_ENTRIES, _ => HighScoreEntry(50, date, mode));
      AddScoreResult(full, 50, mode, date) == AddResult(full, true)
  {
    var full := seq(MAX_ENTRIES, _ => HighScoreEntry(50, date, mode));
    var e := HighScoreEntry(50, date, mode);
    AddScoreInsertsAfterTies(full, 50, mode, date);
    InsertAfterAllHigher(full, e);
    assert (full + [e])[..MAX_ENTRIES] == full;
    assert full[0].score == 50 && full[0].date == date && full[0].mode == mode;
  }

  /** The leaderboard store: ten best entries, highest first. */
  class LeaderboardState {
    var scores: seq<HighScoreEntry>

    ghost predicate Valid()
      reads this
    {
      SortedDesc(scores) && |scores| <= MAX_ENTRIES
    }

    constructor ()
      ensures Valid() && scores == []
    {
      scores := [];
    }

    /** Records a game; the date is supplied by the caller. */
    method AddScore(score: int, mode: GameMode, date: string) returns (qualifies: bool)
      requires Valid()
      modifies this
      ensures Valid()
      ensures AddResult(scores, qualifies) == AddScoreResult(old(scores), score, mode, date)
    {
      if score == 0 {
        return false;
      }
      var newEntry := HighScoreEntry(score, date, mode);
      var currentScores := scores;
      var updatedScores := Take(SortDesc(currentScores + [newEntry]), MAX_ENTRIES);
      scores := updatedScores;
      qualifies := ContainsEntry(updatedScores, score, date, mode);
    }

    /** `scores.slice(0, limit)`, where a negative limit counts back from the end. */
    function GetTopScores(limit: int): (r: seq<HighScoreEntry>)
      reads this
      ensures 0 <= limit ==> |r| == (if limit < |scores| then limit else |scores|)
      ensures limit < 0 ==> |r| == (if |scores| + limit > 0 then |scores| + limit else 0)
      ensures |r| <= |scores| && r == scores[..|r|]
    {
      var end := if limit >= 0 then (if limit < |scores| then limit else |scores|)
                 else (if |scores| + limit > 0 then |scores| + limit else 0);
      scores[..end]
    }

    method ClearScores()
      modifies this
      ensures Valid() && scores == []
    {
      scores := [];
    }
  }

  /** The default limit of ten returns the whole list. */
  lemma DefaultLimitReturnsAll(board: LeaderboardState)
    requires board.Valid()
    ensures board.GetTopScores(MAX_ENTRIES) == board.scores
  {
  }
}
