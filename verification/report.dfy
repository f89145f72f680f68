/**
  `generate_report`: the leaderboard over every user's logged rows.

  The SQL query groups the rows by user and sums, per user, the durations
  of the good-posture rows and of all rows. Each user's ratio is the good
  share in percent (0 when the total is not positive); the users are sorted
  by ratio, descending and stably; the current user's rank is the first
  position holding that user; and the percentile is (n - rank + 1) / n * 100.

  The database is an in-memory sequence of rows. SQLite returns the groups
  in an order it does not promise; the model lists them in the order in
  which each user first appears in the rows.
*/
module Report {
  import opened Wrappers
  import opened Session

  /** One row of the posture log table (the timestamp is not modelled). */
  datatype Row = Row(user: string, status: Status, duration: real)

  /** One result row of the GROUP BY query. */
  datatype UserTotals = UserTotals(user: string, goodTime: real, totalTime: real)

  /** A user and their overall good-posture percentage. */
  datatype Score = Score(user: string, ratio: real)

  /** The distinct users of a log, in order of first appearance. */
  function Users(rows: seq<Row>): (us: seq<string>)
    ensures forall u :: u in us <==> exists i :: 0 <= i < |rows| && rows[i].user == u
    ensures forall i, j :: 0 <= i < j < |us| ==> us[i] != us[j]
    ensures |us| <= |rows|
  {
    if |rows| == 0 then []
    else
      var n := |rows| - 1;
      var prev := Users(rows[..n]);
      assert forall i :: 0 <= i < n ==> rows[..n][i] == rows[i];
      if rows[n].user in prev then prev else prev + [rows[n].user]
  }

  /** The summed durations of the user's good-posture rows. */
  function GoodTimeOf(rows: seq<Row>, u: string): real
  {
    if |rows| == 0 then 0.0
    else
      var n := |rows| - 1;
      GoodTimeOf(rows[..n], u) + (if rows[n].user == u && rows[n].status == GoodPosture then rows[n].duration else 0.0)
  }

  /** The summed durations of all of the user's rows. */
  function TotalTimeOf(rows: seq<Row>, u: string): real
  {
    if |rows| == 0 then 0.0
    else
      var n := |rows| - 1;
      TotalTimeOf(rows[..n], u) + (if rows[n].user == u then rows[n].duration else 0.0)
  }

  /** Every duration in the log is non-negative. */
  predicate NonNegative(rows: seq<Row>)
  {
    forall i :: 0 <= i < |rows| ==> rows[i].duration >= 0.0
  }

  /** With non-negative durations a user's good time lies between 0 and the total. */
  lemma {:induction false} GoodWithinTotal(rows: seq<Row>, u: string)
    requires NonNegative(rows)
    ensures 0.0 <= GoodTimeOf(rows, u) <= TotalTimeOf(rows, u)
  {
    if |rows| > 0 {
      var n := |rows| - 1;
      assert forall i :: 0 <= i < n ==> rows[..n][i] == rows[i];
      GoodWithinTotal(rows[..n], u);
    }
  }

  /** The GROUP BY query: one result row per distinct user. */
  function Aggregate(rows: seq<Row>): (groups: seq<UserTotals>)
    ensures |groups| == |Users(rows)|
    ensures forall i :: 0 <= i < |groups| ==>
      groups[i] == UserTotals(Users(rows)[i], GoodTimeOf(rows, Users(rows)[i]), TotalTimeOf(rows, Users(rows)[i]))
  {
    var us := Users(rows);
    seq(|us|, i requires 0 <= i < |us| => UserTotals(us[i], GoodTimeOf(rows, us[i]), TotalTimeOf(rows, us[i])))
  }

  /** The session entries a log holds, with the user column dropped. */
  function Logged(rows: seq<Row>): (log: seq<Entry>)
    ensures |log| == |rows|
    ensures forall i :: 0 <= i < |rows| ==> log[i] == Entry(rows[i].status, rows[i].duration)
  {
    seq(|rows|, i requires 0 <= i < |rows| => Entry(rows[i].status, rows[i].duration))
  }

  /** The sum of the durations of all rows. */
  function LogTotal(rows: seq<Row>): real
  {
    Total(Logged(rows))
  }

  /** Appending a row adds its duration to the log total. */
  lemma LogTotalStep(rows: seq<Row>)
    requires |rows| > 0
    ensures LogTotal(rows) == LogTotal(rows[..|rows| - 1]) + rows[|rows| - 1].duration
  {
    assert Logged(rows)[..|rows| - 1] == Logged(rows[..|rows| - 1]);
  }

  /** The sum of the per-user totals of a GROUP BY result. */
  function GroupTotal(groups: seq<UserTotals>): real
  {
    if |groups| == 0 then 0.0 else GroupTotal(groups[..|groups| - 1]) + groups[|groups| - 1].totalTime
  }

  /** The sum of `TotalTimeOf(rows, u)` over the users `us`. */
  function SumTotals(rows: seq<Row>, us: seq<string>): real
  {
    if |us| == 0 then 0.0 else SumTotals(rows, us[..|us| - 1]) + TotalTimeOf(rows, us[|us| - 1])
  }

  /** Appending a row adds its duration to its user's total only. */
  lemma TotalTimeAppend(rows: seq<Row>, r: Row, u: string)
    ensures TotalTimeOf(rows + [r], u) == TotalTimeOf(rows, u) + (if r.user == u then r.duration else 0.0)
  {
    assert (rows + [r])[..|rows|] == rows;
  }

  /** A user with no rows has a total of zero. */
  lemma {:induction false} AbsentUserTotal(rows: seq<Row>, u: string)
    requires forall i :: 0 <= i < |rows| ==> rows[i].user != u
    ensures TotalTimeOf(rows, u) == 0.0
  {
    if |rows| > 0 {
      var n := |rows| - 1;
      assert forall i :: 0 <= i < n ==> rows[..n][i] == rows[i];
      AbsentUserTotal(rows[..n], u);
    }
  }

  /**
    Over distinct users, appending a row adds its duration once if its user
    is among them and not at all otherwise.
  */
  lemma {:induction false} SumTotalsAppendRow(rows: seq<Row>, r: Row, us: seq<string>)
    requires forall i, j :: 0 <= i < j < |us| ==> us[i] != us[j]
    ensures SumTotals(rows + [r], us) == SumTotals(rows, us) + (if r.user in us then r.duration else 0.0)
  {
    if |us| > 0 {
      var m := |us| - 1;
      assert forall i :: 0 <= i < m ==> us[..m][i] == us[i];
      SumTotalsAppendRow(rows, r, us[..m]);
      TotalTimeAppend(rows, r, us[m]);
      assert us == us[..m] + [us[m]];
      assert r.user in us <==> r.user in us[..m] || r.user == us[m];
      assert !(r.user in us[..m] && r.user == us[m]);
    }
  }

  /** Summing over the users of a GROUP BY result is summing its totals. */
  lemma {:induction false} GroupTotalIsSum(rows: seq<Row>, us: seq<string>, groups: seq<UserTotals>)
    requires |groups| == |us|
    requires forall i :: 0 <= i < |us| ==> groups[i].totalTime == TotalTimeOf(rows, us[i])
    ensures GroupTotal(groups) == SumTotals(rows, us)
  {
    if |us| > 0 {
      var m := |us| - 1;
      GroupTotalIsSum(rows, us[..m], groups[..m]);
    }
  }

  /**
    GROUP BY partitions the log: the users' totals add up to the summed
    duration of all rows.
  */
  lemma {:induction false} GroupingKeepsTotal(rows: seq<Row>)
    ensures GroupTotal(Aggregate(rows)) == LogTotal(rows)
  {
    GroupTotalIsSum(rows, Users(rows), Aggregate(rows));
    UsersSumToLog(rows);
  }

  lemma {:induction false} UsersSumToLog(rows: seq<Row>)
    ensures SumTotals(rows, Users(rows)) == LogTotal(rows)
  {
    if |rows| > 0 {
      var n := |rows| - 1;
      var prefix := rows[..n];
      var r := rows[n];
      assert rows == prefix + [r];
      UsersSumToLog(prefix);
      LogTotalStep(rows);
      var prev := Users(prefix);
      SumTotalsAppendRow(prefix, r, prev);
      if r.user !in prev {
        assert Users(rows) == prev + [r.user];
        assert (prev + [r.user])[..|prev|] == prev;
        forall i | 0 <= i < |prefix|
          ensures prefix[i].user != r.user
        {
          assert prefix[i].user in prev;
        }
        AbsentUserTotal(prefix, r.user);
        TotalTimeAppend(prefix, r, r.user);
      }
    }
  }

  /** The good share of the total in percent, or 0 when the total is not positive. */
  function UserRatio(g: UserTotals): (r: real)
    ensures g.totalTime <= 0.0 ==> r == 0.0
    ensures 0.0 <= g.goodTime <= g.totalTime ==> 0.0 <= r <= 100.0
    ensures 0.0 < g.goodTime == g.totalTime ==> r == 100.0
    ensures g.goodTime == 0.0 ==> r == 0.0
  {
    if g.totalTime > 0.0 then g.goodTime / g.totalTime * 100.0 else 0.0
  }

  /** The user scores, in the order of the GROUP BY result. */
  function Scores(groups: seq<UserTotals>): (scores: seq<Score>)
    ensures |scores| == |groups|
    ensures forall i :: 0 <= i < |groups| ==> scores[i] == Score(groups[i].user, UserRatio(groups[i]))
  {
    seq(|groups|, i requires 0 <= i < |groups| => Score(groups[i].user, UserRatio(groups[i])))
  }

  /** Sorted by ratio, highest first. */
  predicate Descending(s: seq<Score>)
  {
    forall i, j :: 0 <= i < j < |s| ==> s[i].ratio >= s[j].ratio
  }

  /** The scores with ratio exactly `v`, in their order in `s`. */
  function WithRatio(s: seq<Score>, v: real): seq<Score>
  {
    if |s| == 0 then []
    else Only(s[0], v) + WithRatio(s[1..], v)
  }

  /** How many scores have a ratio above `v`. */
  function CountAbove(s: seq<Score>, v: real): (n: nat)
    ensures n <= |s|
  {
    if |s| == 0 then 0 else (if s[0].ratio > v then 1 else 0) + CountAbove(s[1..], v)
  }

  /** How many scores have a ratio of at least `v`. */
  function CountAtLeast(s: seq<Score>, v: real): (n: nat)
    ensures n <= |s|
  {
    if |s| == 0 then 0 else (if s[0].ratio >= v then 1 else 0) + CountAtLeast(s[1..], v)
  }

  /**
    Place `x` in front of the first score whose ratio is not above its own:
    after every strictly better score, before any equal one.
  */
  function Insert(x: Score, s: seq<Score>): (r: seq<Score>)
    ensures |r| == |s| + 1
    ensures multiset(r) == multiset([x] + s)
  {
    if |s| == 0 || s[0].ratio <= x.ratio then [x] + s
    else
      assert s == [s[0]] + s[1..];
      [s[0]] + Insert(x, s[1..])
  }

  /** Insertion into a descending sequence leaves it descending. */
  lemma {:induction false} InsertDescending(x: Score, s: seq<Score>)
    requires Descending(s)
    ensures Descending(Insert(x, s))
  {
    if |s| > 0 && s[0].ratio > x.ratio {
      var rest := Insert(x, s[1..]);
      InsertDescending(x, s[1..]);
      assert s == [s[0]] + s[1..];
      InsertHeadStaysFirst(x, s, rest);
    }
  }

  /**
    The head of a descending `s` that beats `x` still heads the insertion
    of `x` into the rest.
  */
  lemma InsertHeadStaysFirst(x: Score, s: seq<Score>, rest: seq<Score>)
    requires |s| > 0 && Descending(s) && s[0].ratio > x.ratio
    requires multiset(rest) == multiset([x] + s[1..]) && Descending(rest)
    ensures Descending([s[0]] + rest)
  {
    forall k | 0 <= k < |rest|
      ensures s[0].ratio >= rest[k].ratio
    {
      assert rest[k] in multiset(rest);
      assert rest[k] in multiset([x] + s[1..]);
      assert rest[k] == x || rest[k] in s[1..];
    }
  }

  /** `[y]` if `y` has ratio `v`, otherwise nothing. */
  function Only(y: Score, v: real): seq<Score>
  {
    if y.ratio == v then [y] else []
  }

  /** The three counting functions over a score put in front of a sequence. */
  lemma ConsUnfold(y: Score, t: seq<Score>, v: real)
    ensures WithRatio([y] + t, v) == Only(y, v) + WithRatio(t, v)
    ensures CountAbove([y] + t, v) == (if y.ratio > v then 1 else 0) + CountAbove(t, v)
    ensures CountAtLeast([y] + t, v) == (if y.ratio >= v then 1 else 0) + CountAtLeast(t, v)
  {
    assert ([y] + t)[1..] == t;
  }

  /**
    Inserting `x` keeps, for every ratio, the scores of that ratio in the
    order they have in `[x] + s`: `x` goes after strictly better scores
    only, so it stays ahead of every score it ties with.
  */
  lemma {:induction false} InsertKeepsOrder(x: Score, s: seq<Score>, v: real)
    ensures WithRatio(Insert(x, s), v) == WithRatio([x] + s, v)
  {
    if |s| > 0 && s[0].ratio > x.ratio {
      var rest := Insert(x, s[1..]);
      var w := WithRatio(s[1..], v);
      assert s == [s[0]] + s[1..];
      calc {
        WithRatio(Insert(x, s), v);
        { assert Insert(x, s) == [s[0]] + rest; }
        WithRatio([s[0]] + rest, v);
        { ConsUnfold(s[0], rest, v); }
        Only(s[0], v) + WithRatio(rest, v);
        { InsertKeepsOrder(x, s[1..], v); ConsUnfold(x, s[1..], v); }
        Only(s[0], v) + (Only(x, v) + w);
        { TiesCommute(x, s[0], w, v); }
        Only(x, v) + (Only(s[0], v) + w);
        { ConsUnfold(s[0], s[1..], v); }
        Only(x, v) + WithRatio(s, v);
        { ConsUnfold(x, s, v); }
        WithRatio([x] + s, v);
      }
    }
  }

  /** Two scores of different ratios never both have ratio `v`. */
  lemma TiesCommute(x: Score, y: Score, w: seq<Score>, v: real)
    requires x.ratio != y.ratio
    ensures Only(y, v) + (Only(x, v) + w) == Only(x, v) + (Only(y, v) + w)
  {
  }

  /** Inserting `x` changes no count of better or at-least-as-good scores. */
  lemma {:induction false} InsertKeepsCounts(x: Score, s: seq<Score>, v: real)
    ensures CountAbove(Insert(x, s), v) == CountAbove([x] + s, v)
    ensures CountAtLeast(Insert(x, s), v) == CountAtLeast([x] + s, v)
  {
    if |s| > 0 && s[0].ratio > x.ratio {
      var rest := Insert(x, s[1..]);
      assert Insert(x, s) == [s[0]] + rest;
      InsertKeepsCounts(x, s[1..], v);
      ConsUnfold(s[0], rest, v);
      ConsUnfold(x, s[1..], v);
      ConsUnfold(x, s, v);
      assert s == [s[0]] + s[1..];
      ConsUnfold(s[0], s[1..], v);
    }
  }

  /**
    The scores stably sorted by ratio, highest first. The result is a permutation, it is descending, and the
    scores of each ratio keep their original relative order.
  */
  function SortDesc(s: seq<Score>): (r: seq<Score>)
    ensures |r| == |s|
    ensures multiset(r) == multiset(s)
    ensures Descending(r)
    ensures forall v :: WithRatio(r, v) == WithRatio(s, v)
    ensures forall v :: CountAbove(r, v) == CountAbove(s, v) && CountAtLeast(r, v) == CountAtLeast(s, v)
  {
    if |s| == 0 then []
    else
      var rest := SortDesc(s[1..]);
      SortStep(s, rest);
      Insert(s[0], rest)
  }

  /** Inserting the head into the sorted tail sorts the whole sequence. */
  lemma SortStep(s: seq<Score>, rest: seq<Score>)
    requires |s| > 0 && Descending(rest) && multiset(rest) == multiset(s[1..])
    requires forall v :: WithRatio(rest, v) == WithRatio(s[1..], v)
    requires forall v :: CountAbove(rest, v) == CountAbove(s[1..], v) && CountAtLeast(rest, v) == CountAtLeast(s[1..], v)
    ensures multiset(Insert(s[0], rest)) == multiset(s)
    ensures Descending(Insert(s[0], rest))
    ensures forall v :: WithRatio(Insert(s[0], rest), v) == WithRatio(s, v)
    ensures forall v :: CountAbove(Insert(s[0], rest), v) == CountAbove(s, v)
    ensures forall v :: CountAtLeast(Insert(s[0], rest), v) == CountAtLeast(s, v)
  {
    assert s == [s[0]] + s[1..];
    forall v
      ensures WithRatio(Insert(s[0], rest), v) == WithRatio(s, v)
      ensures CountAbove(Insert(s[0], rest), v) == CountAbove(s, v)
      ensures CountAtLeast(Insert(s[0], rest), v) == CountAtLeast(s, v)
    {
      InsertKeepsOrder(s[0], rest, v);
      InsertKeepsCounts(s[0], rest, v);
      ConsUnfold(s[0], rest, v);
      ConsUnfold(s[0], s[1..], v);
    }
    InsertDescending(s[0], rest);
  }

  /**
    The rank loop: the 1-based position of the first score of `user`, or
    None ("No data for current user") when the user has no score.
  */
  function FindRank(s: seq<Score>, user: string): (rank: Option<nat>)
    ensures rank.None? <==> forall i :: 0 <= i < |s| ==> s[i].user != user
    ensures rank.Some? ==> 1 <= rank.value <= |s| && s[rank.value - 1].user == user
    ensures rank.Some? ==> forall j :: 0 <= j < rank.value - 1 ==> s[j].user != user
  {
    if |s| == 0 then None
    else if s[0].user == user then Some(1)
    else
      match FindRank(s[1..], user)
      case None => None
      case Some(k) => Some(k + 1)
  }

  /**
    The share of the n users ranked at or below `rank`, in percent: 100 for
    the first rank, always in (0, 100].
  */
  function PercentageBeat(n: nat, rank: nat): (p: real)
    requires 1 <= rank <= n
    ensures 0.0 < p <= 100.0
    ensures rank == 1 <==> p == 100.0
  {
    (n - rank + 1) as real / n as real * 100.0
  }

  /** A worse rank never yields a higher percentile. */
  lemma PercentageAntitone(n: nat, r1: nat, r2: nat)
    requires 1 <= r1 <= r2 <= n
    ensures PercentageBeat(n, r1) >= PercentageBeat(n, r2)
  {
    var a := (n - r1 + 1) as real;
    var b := (n - r2 + 1) as real;
    var m := n as real;
    assert a >= b;
    DivideMonotone(a, b, m);
  }

  lemma DivideMonotone(a: real, b: real, m: real)
    requires a >= b && m > 0.0
    ensures a / m * 100.0 >= b / m * 100.0
  {
    assert a / m >= b / m;
  }

  /** The counts split over a concatenation. */
  lemma {:induction false} CountsSplit(a: seq<Score>, b: seq<Score>, v: real)
    ensures CountAbove(a + b, v) == CountAbove(a, v) + CountAbove(b, v)
    ensures CountAtLeast(a + b, v) == CountAtLeast(a, v) + CountAtLeast(b, v)
  {
    if |a| > 0 {
      assert (a + b)[1..] == a[1..] + b;
      CountsSplit(a[1..], b, v);
    } else {
      assert a + b == b;
    }
  }

  /** No score of `s` is above `v`. */
  lemma {:induction false} NoneAbove(s: seq<Score>, v: real)
    requires forall i :: 0 <= i < |s| ==> s[i].ratio <= v
    ensures CountAbove(s, v) == 0
  {
    if |s| > 0 {
      NoneAbove(s[1..], v);
    }
  }

  /** Every score of `s` is at least `v`. */
  lemma {:induction false} AllAtLeast(s: seq<Score>, v: real)
    requires forall i :: 0 <= i < |s| ==> s[i].ratio >= v
    ensures CountAtLeast(s, v) == |s|
  {
    if |s| > 0 {
      AllAtLeast(s[1..], v);
    }
  }

  /**
    In a descending sequence, the score at position `p` (0-based) comes
    after every strictly better score and within the scores that are at
    least as good: its 1-based rank is above the number of better scores
    and at most the number of scores at least as good.
  */
  lemma RankBounds(s: seq<Score>, p: nat)
    requires Descending(s) && p < |s|
    ensures CountAbove(s, s[p].ratio) <= p
    ensures p + 1 <= CountAtLeast(s, s[p].ratio)
  {
    var v := s[p].ratio;
    assert s == s[..p] + s[p..];
    CountsSplit(s[..p], s[p..], v);
    NoneAbove(s[p..], v);
    assert s == s[..p + 1] + s[p + 1..];
    CountsSplit(s[..p + 1], s[p + 1..], v);
    AllAtLeast(s[..p + 1], v);
  }

  /** A user's overall ratio from the logged rows. */
  function RatioOf(rows: seq<Row>, u: string): real
  {
    UserRatio(UserTotals(u, GoodTimeOf(rows, u), TotalTimeOf(rows, u)))
  }

  /** With non-negative durations every user's ratio is a percentage. */
  lemma RatioInRange(rows: seq<Row>, u: string)
    ensures NonNegative(rows) ==> 0.0 <= RatioOf(rows, u) <= 100.0
  {
    if NonNegative(rows) {
      GoodWithinTotal(rows, u);
    }
  }

  /** The scores of a log, in GROUP BY order. */
  function LogScores(rows: seq<Row>): (scores: seq<Score>)
    ensures |scores| == |Users(rows)|
    ensures forall i :: 0 <= i < |scores| ==> scores[i] == Score(Users(rows)[i], RatioOf(rows, Users(rows)[i]))
  {
    Scores(Aggregate(rows))
  }

  /** The session ratio of the report: 0 when no time was accumulated. */
  function SessionRatio(good: real, slouch: real): (r: real)
    ensures good + slouch <= 0.0 ==> r == 0.0
    ensures good >= 0.0 && slouch >= 0.0 ==> 0.0 <= r <= 100.0
  {
    var total := good + slouch;
    if total > 0.0 then good / total * 100.0 else 0.0
  }

  /** Why no report is shown. */
  datatype ReportError = NoData | NoUserData

  /** What the report window shows, besides the session's own times. */
  datatype ReportData = ReportData(rank: nat, users: nat, overallRatio: real, percentile: real, sessionRatio: real)

  /**
    `generate_report` over the log `rows` for the current `user`, given the
    session's accumulated good and slouch time. With no rows at all it
    reports NoData; when the user has no rows, NoUserData. Otherwise the
    user's rank is above the number of users with a strictly higher ratio
    and at most the number with a ratio at least as high.
  */
  function GenerateReport(rows: seq<Row>, user: string, sessionGood: real, sessionSlouch: real)
    : (r: Result<ReportData, ReportError>)
    ensures r == Failure(NoData) <==> |rows| == 0
    ensures r == Failure(NoUserData) <==> |rows| > 0 && forall i :: 0 <= i < |rows| ==> rows[i].user != user
    ensures r.Success? ==>
      && r.value.users == |Users(rows)|
      && 1 <= r.value.rank <= r.value.users
      && r.value.overallRatio == RatioOf(rows, user)
      && (NonNegative(rows) ==> 0.0 <= r.value.overallRatio <= 100.0)
      && CountAbove(LogScores(rows), r.value.overallRatio) < r.value.rank
      && r.value.rank <= CountAtLeast(LogScores(rows), r.value.overallRatio)
      && r.value.percentile == PercentageBeat(r.value.users, r.value.rank)
      && 0.0 < r.value.percentile <= 100.0
      && r.value.sessionRatio == SessionRatio(sessionGood, sessionSlouch)
  {
    var scores := LogScores(rows);
    if |scores| == 0 then
      assert |rows| > 0 ==> rows[0].user in Users(rows);
      Failure(NoData)
    else
      var sorted := SortDesc(scores);
      match FindRank(sorted, user)
      case None =>
        NoRankMeansNoRows(rows, user, sorted);
        Failure(NoUserData)
      case Some(rank) =>
        RankFacts(rows, user, sorted, rank);
        var current := sorted[rank - 1].ratio;
        Success(ReportData(rank, |sorted|, current, PercentageBeat(|sorted|, rank), SessionRatio(sessionGood, sessionSlouch)))
  }

  /** What the rank found in the sorted scores says about the user. */
  lemma RankFacts(rows: seq<Row>, user: string, sorted: seq<Score>, rank: nat)
    requires sorted == SortDesc(LogScores(rows))
    requires FindRank(sorted, user) == Some(rank)
    ensures sorted[rank - 1].ratio == RatioOf(rows, user)
    ensures exists i :: 0 <= i < |rows| && rows[i].user == user
    ensures NonNegative(rows) ==> 0.0 <= sorted[rank - 1].ratio <= 100.0
    ensures CountAbove(LogScores(rows), sorted[rank - 1].ratio) < rank
    ensures rank <= CountAtLeast(LogScores(rows), sorted[rank - 1].ratio)
  {
    RankRatio(rows, user, sorted, rank);
    var v := sorted[rank - 1].ratio;
    assert CountAbove(sorted, v) == CountAbove(LogScores(rows), v);
    assert CountAtLeast(sorted, v) == CountAtLeast(LogScores(rows), v);
    RankCounts(LogScores(rows), sorted, rank);
  }

  /** The score at the user's rank is the user's own ratio from the log. */
  lemma RankRatio(rows: seq<Row>, user: string, sorted: seq<Score>, rank: nat)
    requires multiset(sorted) == multiset(LogScores(rows))
    requires 1 <= rank <= |sorted| && sorted[rank - 1].user == user
    ensures sorted[rank - 1].ratio == RatioOf(rows, user)
    ensures exists i :: 0 <= i < |rows| && rows[i].user == user
    ensures NonNegative(rows) ==> 0.0 <= sorted[rank - 1].ratio <= 100.0
  {
    RankedScore(rows, sorted, rank - 1);
    RatioInRange(rows, user);
  }

  /**
    A rank in descending scores, counted against any scores with the same
    counts at the ranked ratio.
  */
  lemma RankCounts(scores: seq<Score>, sorted: seq<Score>, rank: nat)
    requires Descending(sorted)
    requires 1 <= rank <= |sorted|
    requires CountAbove(sorted, sorted[rank - 1].ratio) == CountAbove(scores, sorted[rank - 1].ratio)
    requires CountAtLeast(sorted, sorted[rank - 1].ratio) == CountAtLeast(scores, sorted[rank - 1].ratio)
    ensures CountAbove(scores, sorted[rank - 1].ratio) < rank
    ensures rank <= CountAtLeast(scores, sorted[rank - 1].ratio)
  {
    RankBounds(sorted, rank - 1);
  }

  /** A user with no score in the sorted list has no rows. */
  lemma NoRankMeansNoRows(rows: seq<Row>, user: string, sorted: seq<Score>)
    requires multiset(sorted) == multiset(LogScores(rows))
    requires forall i :: 0 <= i < |sorted| ==> sorted[i].user != user
    ensures forall i :: 0 <= i < |rows| ==> rows[i].user != user
  {
    var scores := LogScores(rows);
    forall i | 0 <= i < |rows|
      ensures rows[i].user != user
    {
      var u := rows[i].user;
      assert u in Users(rows);
      var j :| 0 <= j < |Users(rows)| && Users(rows)[j] == u;
      assert scores[j] in multiset(sorted);
    }
  }

  /** Every score in the sorted list is its user's ratio from the log. */
  lemma RankedScore(rows: seq<Row>, sorted: seq<Score>, p: nat)
    requires multiset(sorted) == multiset(LogScores(rows))
    requires p < |sorted|
    ensures sorted[p].ratio == RatioOf(rows, sorted[p].user)
    ensures sorted[p].user in Users(rows)
  {
    assert sorted[p] in multiset(LogScores(rows));
  }

  /** Scores over distinct users, every other one strictly below `v`. */
  lemma {:induction false} AtMostOneAtLeast(s: seq<Score>, user: string, v: real)
    requires forall i, j :: 0 <= i < j < |s| ==> s[i].user != s[j].user
    requires forall i :: 0 <= i < |s| && s[i].user != user ==> s[i].ratio < v
    ensures CountAtLeast(s, v) <= 1
  {
    if |s| > 0 {
      if s[0].user == user {
        NoneAtLeast(s[1..], v);
      } else {
        AtMostOneAtLeast(s[1..], user, v);
      }
    }
  }

  lemma {:induction false} NoneAtLeast(s: seq<Score>, v: real)
    requires forall i :: 0 <= i < |s| ==> s[i].ratio < v
    ensures CountAtLeast(s, v) == 0
  {
    if |s| > 0 {
      NoneAtLeast(s[1..], v);
    }
  }

  /** A strictly best user is the only one at least as good as themselves. */
  lemma StrictBestCount(rows: seq<Row>, user: string)
    requires forall u :: u in Users(rows) && u != user ==> RatioOf(rows, u) < RatioOf(rows, user)
    ensures CountAtLeast(LogScores(rows), RatioOf(rows, user)) <= 1
  {
    var s := LogScores(rows);
    var us := Users(rows);
    var v := RatioOf(rows, user);
    forall i | 0 <= i < |s| && s[i].user != user
      ensures s[i].ratio < v
    {
      assert s[i] == Score(us[i], RatioOf(rows, us[i]));
      assert us[i] in us;
    }
    forall i, j | 0 <= i < j < |s|
      ensures s[i].user != s[j].user
    {
      assert s[i].user == us[i] && s[j].user == us[j];
    }
    AtMostOneAtLeast(s, user, v);
  }

  /**
    "Best performer always gets 100%" holds for a user whose ratio is
    strictly higher than every other user's.
  */
  lemma StrictBestGets100(rows: seq<Row>, user: string, sessionGood: real, sessionSlouch: real)
    requires GenerateReport(rows, user, sessionGood, sessionSlouch).Success?
    requires forall u :: u in Users(rows) && u != user ==> RatioOf(rows, u) < RatioOf(rows, user)
    ensures GenerateReport(rows, user, sessionGood, sessionSlouch).value.percentile == 100.0
  {
    StrictBestCount(rows, user);
  }

  /** Two users, one good-posture row of one second each. */
  function TiedRows(): seq<Row>
  {
    [Row("a", GoodPosture, 1.0), Row("b", GoodPosture, 1.0)]
  }

  lemma TiedScores()
    ensures LogScores(TiedRows()) == [Score("a", 100.0), Score("b", 100.0)]
  {
    var rows := TiedRows();
    TiedUsers();
    TiedTimes();
    assert RatioOf(rows, "a") == 100.0 && RatioOf(rows, "b") == 100.0;
  }

  lemma TiedUsers()
    ensures Users(TiedRows()) == ["a", "b"]
  {
    var rows := TiedRows();
    assert rows[..1] == [Row("a", GoodPosture, 1.0)];
    assert rows[..1][..0] == [];
    assert "a" != "b" by { assert "a"[0] != "b"[0]; }
    assert Users(rows[..1]) == ["a"];
  }

  lemma TiedTimes()
    ensures GoodTimeOf(TiedRows(), "a") == 1.0 && TotalTimeOf(TiedRows(), "a") == 1.0
    ensures GoodTimeOf(TiedRows(), "b") == 1.0 && TotalTimeOf(TiedRows(), "b") == 1.0
  {
    var rows := TiedRows();
    assert rows[..1] == [Row("a", GoodPosture, 1.0)];
    assert rows[..1][..0] == [];
    assert "a" != "b" by { assert "a"[0] != "b"[0]; }
    assert GoodTimeOf(rows[..1], "a") == 1.0 && TotalTimeOf(rows[..1], "a") == 1.0;
    assert GoodTimeOf(rows[..1], "b") == 0.0 && TotalTimeOf(rows[..1], "b") == 0.0;
  }

  lemma TiedSort(scores: seq<Score>)
    requires scores == [Score("a", 100.0), Score("b", 100.0)]
    ensures SortDesc(scores) == scores
  {
    assert scores[1..] == [Score("b", 100.0)];
    assert scores[1..][1..] == [];
    assert SortDesc(scores[1..]) == [Score("b", 100.0)];
  }

  /**
    With tied ratios the promise does not extend to every best performer:
    two users with 100% each, and the one listed second ranks 2 of 2 and
    gets 50%.
  */
  lemma TiedBestMayGetLess()
    ensures RatioOf(TiedRows(), "a") == RatioOf(TiedRows(), "b") == 100.0
    ensures GenerateReport(TiedRows(), "b", 0.0, 0.0) == Success(ReportData(2, 2, 100.0, 50.0, 0.0))
  {
    var rows := TiedRows();
    TiedScores();
    var scores := LogScores(rows);
    assert scores[0].user == "a" && scores[1].user == "b";
    TiedSort(scores);
    var sorted := SortDesc(scores);
    assert sorted[1..] == [Score("b", 100.0)];
    assert "a" != "b" by { assert "a"[0] != "b"[0]; }
    assert FindRank(sorted, "b") == Some(2);
  }

  /** A score at or below `v` keeps the count above `v` short of the length. */
  lemma {:induction false} OwnScoreNotAbove(s: seq<Score>, k: nat, v: real)
    requires k < |s| && s[k].ratio <= v
    ensures CountAbove(s, v) < |s|
  {
    if k > 0 {
      OwnScoreNotAbove(s[1..], k - 1, v);
    }
  }

  /** A score above `v` makes the count above `v` positive. */
  lemma {:induction false} SomeAbove(s: seq<Score>, k: nat, v: real)
    requires k < |s| && s[k].ratio > v
    ensures CountAbove(s, v) > 0
  {
    if k > 0 {
      SomeAbove(s[1..], k - 1, v);
    }
  }

  /** No grouped user has a strictly higher ratio exactly when none is counted above. */
  lemma TopIffNoneAbove(rows: seq<Row>, user: string)
    ensures CountAbove(LogScores(rows), RatioOf(rows, user)) == 0 <==>
            forall u :: u in Users(rows) ==> RatioOf(rows, u) <= RatioOf(rows, user)
  {
    var s := LogScores(rows);
    var us := Users(rows);
    var v := RatioOf(rows, user);
    if forall u :: u in us ==> RatioOf(rows, u) <= v {
      forall i | 0 <= i < |s|
        ensures s[i].ratio <= v
      {
        assert s[i] == Score(us[i], RatioOf(rows, us[i]));
        assert us[i] in us;
      }
      NoneAbove(s, v);
    } else {
      var u :| u in us && RatioOf(rows, u) > v;
      var k :| 0 <= k < |us| && us[k] == u;
      SomeAbove(s, k, v);
    }
  }

  /**
    The percentile with tied users sharing the better rank: a user's rank is
    one more than the number of users with a strictly higher ratio. None
    when the user has no rows. The best performers, ties included, are
    exactly the users who get 100%.
  */
  function TieAwarePercentile(rows: seq<Row>, user: string): (p: Option<real>)
    ensures p.None? <==> forall i :: 0 <= i < |rows| ==> rows[i].user != user
    ensures p.Some? ==> 0.0 < p.value <= 100.0
    ensures p.Some? ==>
      (p.value == 100.0 <==> forall u :: u in Users(rows) ==> RatioOf(rows, u) <= RatioOf(rows, user))
  {
    var us := Users(rows);
    if user in us then
      var s := LogScores(rows);
      var v := RatioOf(rows, user);
      var k :| 0 <= k < |us| && us[k] == user;
      assert s[k].ratio == v;
      OwnScoreNotAbove(s, k, v);
      TopIffNoneAbove(rows, user);
      Some(PercentageBeat(|us|, CountAbove(s, v) + 1))
    else
      None
  }

  /** The tie-aware percentile is never below the one the report shows. */
  lemma TieAwareNeverLower(rows: seq<Row>, user: string, sessionGood: real, sessionSlouch: real)
    ensures GenerateReport(rows, user, sessionGood, sessionSlouch).Success? ==>
      && TieAwarePercentile(rows, user).Some?
      && TieAwarePercentile(rows, user).value >= GenerateReport(rows, user, sessionGood, sessionSlouch).value.percentile
  {
    var r := GenerateReport(rows, user, sessionGood, sessionSlouch);
    if r.Success? {
      assert r != Failure(NoUserData);
      var i :| 0 <= i < |rows| && rows[i].user == user;
      TieAwareAtLeast(rows, user, r.value.rank);
    }
  }

  /** Any rank after every strictly better user gives at most the tie-aware percentile. */
  lemma TieAwareAtLeast(rows: seq<Row>, user: string, rank: nat)
    requires user in Users(rows)
    requires 1 <= rank <= |Users(rows)|
    requires CountAbove(LogScores(rows), RatioOf(rows, user)) < rank
    ensures TieAwarePercentile(rows, user).Some?
    ensures TieAwarePercentile(rows, user).value >= PercentageBeat(|Users(rows)|, rank)
  {
    var above := CountAbove(LogScores(rows), RatioOf(rows, user));
    assert TieAwarePercentile(rows, user) == Some(PercentageBeat(|Users(rows)|, above + 1));
    PercentageAntitone(|Users(rows)|, above + 1, rank);
  }

  /** On the tied log both users, including the one grouped second, get 100%. */
  lemma TieAwareTiedBest()
    ensures TieAwarePercentile(TiedRows(), "b") == Some(100.0)
  {
    TiedScores();
    var rows := TiedRows();
    var s := LogScores(rows);
    assert rows[1].user == "b";
    assert RatioOf(rows, "b") == 100.0 by {
      assert s[1] == Score(Users(rows)[1], RatioOf(rows, Users(rows)[1]));
    }
    forall u | u in Users(rows)
      ensures RatioOf(rows, u) <= RatioOf(rows, "b")
    {
      var k :| 0 <= k < |Users(rows)| && Users(rows)[k] == u;
      assert s[k] == Score(u, RatioOf(rows, u));
      assert s[k].ratio <= 100.0;
    }
  }
}
