/** The scoring engine of app.py: `get_wins`, `get_winner` and `summarize`,
    over a list of game records whose scoreboards run from winner to last
    place. The two dictionary-building loops are methods proved against the
    functions WinsOf, Points and Appearances, which fold the game list one
    record at a time exactly as the loops do; the lemmas below relate those
    folds to independent per-player definitions. */
module Scoring {
  import opened Records
  import opened MapSums
  import StringOrder

  /* ---------------------------------------------------------------- */
  /* get_wins                                                          */
  /* ---------------------------------------------------------------- */

  /** Every scoreboard has a first place, so `scoreboard[0]` does not raise. */
  predicate AllScored(games: seq<GameRecord>) {
    forall i :: 0 <= i < |games| ==> games[i].scoreboard != []
  }

  /** The `wins` dictionary after the loop has seen every record of `games`. */
  function WinsOf(games: seq<GameRecord>): map<string, int>
    requires AllScored(games)
    decreases |games|
  {
    if games == [] then map[]
    else
      var m := WinsOf(games[..|games| - 1]);
      var w := games[|games| - 1].scoreboard[0];
      m[w := Get(m, w) + 1]
  }

  /** The first-place name of each game, in game order. */
  function Winners(games: seq<GameRecord>): (r: seq<string>)
    requires AllScored(games)
    ensures |r| == |games|
  {
    seq(|games|, i requires 0 <= i < |games| => games[i].scoreboard[0])
  }

  /** `get_wins`: a win for the first name of each scoreboard; raises when
      a scoreboard is empty. */
  method GetWins(games: seq<GameRecord>) returns (r: Result<map<string, int>, Error>)
    ensures r.Failure? <==> !AllScored(games)
    ensures r.Failure? ==> r.error == EmptyScoreboard
    ensures r.Success? ==> AllScored(games) && r.value == WinsOf(games)
  {
    var wins: map<string, int> := map[];
    var i := 0;
    while i < |games|
      invariant 0 <= i <= |games|
      invariant AllScored(games[..i])
      invariant wins == WinsOf(games[..i])
    {
      var scoreboard := games[i].scoreboard;
      if |scoreboard| == 0 {
        return Failure(EmptyScoreboard);
      }
      if scoreboard[0] !in wins {
        wins := wins[scoreboard[0] := 0];
      }
      wins := wins[scoreboard[0] := wins[scoreboard[0]] + 1];
      assert games[..i + 1][..i] == games[..i];
      i := i + 1;
    }
    assert games[..i] == games;
    return Success(wins);
  }

  /** Each player's win count is the number of games they finished first in,
      and the players with a count are exactly the first-place names. */
  lemma {:induction false} WinsCount(games: seq<GameRecord>, name: string)
    requires AllScored(games)
    ensures name in WinsOf(games) <==> name in Winners(games)
    ensures Get(WinsOf(games), name) == multiset(Winners(games))[name]
    decreases |games|
  {
    if games != [] {
      var prefix := games[..|games| - 1];
      WinsCount(prefix, name);
      assert Winners(games) == Winners(prefix) + [games[|games| - 1].scoreboard[0]];
    }
  }

  /** Every win count is positive and the counts add up to the number of games. */
  lemma {:induction false} WinsTotal(games: seq<GameRecord>)
    requires AllScored(games)
    ensures forall k :: k in WinsOf(games) ==> WinsOf(games)[k] >= 1
    ensures Sum(WinsOf(games)) == |games|
    decreases |games|
  {
    if games != [] {
      var prefix := games[..|games| - 1];
      var w := games[|games| - 1].scoreboard[0];
      WinsTotal(prefix);
      SumUpdate(WinsOf(prefix), w, Get(WinsOf(prefix), w) + 1);
    }
  }

  /* ---------------------------------------------------------------- */
  /* get_winner                                                        */
  /* ---------------------------------------------------------------- */

  /** A `(wins, name)` tuple of the list that `get_winner` sorts. */
  type Pair = (int, string)

  /** Python's tuple `<` on `(wins, name)`. */
  predicate PairLess(p: Pair, q: Pair) {
    p.0 < q.0 || (p.0 == q.0 && StringOrder.Less(p.1, q.1))
  }

  predicate Ascending(s: seq<Pair>) {
    forall i, j :: 0 <= i < j < |s| ==> !PairLess(s[j], s[i])
  }

  lemma PairAsymmetric(p: Pair, q: Pair)
    requires PairLess(p, q)
    ensures !PairLess(q, p)
  {
    if p.0 == q.0 {
      StringOrder.Asymmetric(p.1, q.1);
    }
  }

  /** Not-less is transitive: `<` on pairs is a strict total order. */
  lemma PairNotLessTransitive(a: Pair, b: Pair, c: Pair)
    requires !PairLess(a, b) && !PairLess(b, c)
    ensures !PairLess(a, c)
  {
    if a.0 == b.0 == c.0 && a.1 != b.1 {
      StringOrder.Total(a.1, b.1);
      if StringOrder.Less(a.1, c.1) {
        StringOrder.Transitive(b.1, a.1, c.1);
      }
    }
  }

  /** Insertion of one pair into an ascending list, the step of `Sort`. */
  function Insert(p: Pair, s: seq<Pair>): (r: seq<Pair>)
    ensures |r| == |s| + 1
  {
    if s == [] then [p]
    else if PairLess(s[0], p) then [s[0]] + Insert(p, s[1..])
    else [p] + s
  }

  /** `sorted(pairs)` in ascending order (any correct sort gives the same list
      on pairs with distinct names). */
  function Sort(s: seq<Pair>): (r: seq<Pair>)
    ensures |r| == |s|
  {
    if s == [] then [] else Insert(s[0], Sort(s[1..]))
  }

  lemma {:induction false} InsertAdds(p: Pair, s: seq<Pair>)
    ensures multiset(Insert(p, s)) == multiset(s) + multiset{p}
  {
    if s != [] && PairLess(s[0], p) {
      InsertAdds(p, s[1..]);
      assert s == [s[0]] + s[1..];
    }
  }

  lemma ConsAscending(x: Pair, rest: seq<Pair>)
    requires Ascending(rest)
    requires forall j :: 0 <= j < |rest| ==> !PairLess(rest[j], x)
    ensures Ascending([x] + rest)
  {
    var r := [x] + rest;
    forall i, j | 0 <= i < j < |r|
      ensures !PairLess(r[j], r[i])
    {
      assert r[j] == rest[j - 1];
      if i > 0 {
        assert r[i] == rest[i - 1];
      }
    }
  }

  lemma {:induction false} InsertAscending(p: Pair, s: seq<Pair>)
    requires Ascending(s)
    ensures Ascending(Insert(p, s))
  {
    if s == [] {
    } else if PairLess(s[0], p) {
      var rest := Insert(p, s[1..]);
      InsertAscending(p, s[1..]);
      InsertAdds(p, s[1..]);
      forall j | 0 <= j < |rest|
        ensures !PairLess(rest[j], s[0])
      {
        assert rest[j] in multiset(rest);
        if rest[j] == p {
          PairAsymmetric(s[0], p);
        } else {
          assert rest[j] in s[1..];
        }
      }
      ConsAscending(s[0], rest);
    } else {
      forall j | 0 <= j < |s|
        ensures !PairLess(s[j], p)
      {
        if j > 0 {
          PairNotLessTransitive(s[j], s[0], p);
        }
      }
      ConsAscending(p, s);
    }
  }

  lemma {:induction false} SortAscending(s: seq<Pair>)
    ensures Ascending(Sort(s))
    ensures multiset(Sort(s)) == multiset(s)
  {
    if s != [] {
      SortAscending(s[1..]);
      InsertAscending(s[0], Sort(s[1..]));
      InsertAdds(s[0], Sort(s[1..]));
      assert s == [s[0]] + s[1..];
    }
  }

  /** The keys of the `wins` dictionary in insertion order, that is, in the
      order of each player's first win. */
  function WinOrder(games: seq<GameRecord>): (r: seq<string>)
    requires AllScored(games)
    ensures forall k :: k in r <==> k in WinsOf(games)
    decreases |games|
  {
    if games == [] then []
    else
      var ks := WinOrder(games[..|games| - 1]);
      var w := games[|games| - 1].scoreboard[0];
      if w in ks then ks else ks + [w]
  }

  /** `[(v, k) for (k, v) in wins.items()]`. */
  function Items(m: map<string, int>, ks: seq<string>): (r: seq<Pair>)
    requires forall k :: k in ks ==> k in m
    ensures |r| == |ks|
    ensures forall i :: 0 <= i < |ks| ==> r[i] == (m[ks[i]], ks[i])
  {
    if ks == [] then [] else [(m[ks[0]], ks[0])] + Items(m, ks[1..])
  }

  /** `get_winner`: sort the `(wins, name)` pairs ascending and take the name
      of the last one. */
  function GetWinner(games: seq<GameRecord>): (r: Result<string, Error>)
    ensures r.Success? ==> AllScored(games) && games != [] && r.value in WinsOf(games)
  {
    if !AllScored(games) then Failure(EmptyScoreboard)
    else
      var items := Items(WinsOf(games), WinOrder(games));
      var ranked := Sort(items);
      if ranked == [] then Failure(NoGames)
      else
        SortedLastIsMax(items);
        Success(ranked[|ranked| - 1].1)
  }

  /** `get_winner` fails exactly when `get_wins` does, or when there is no game. */
  lemma WinnerFails(games: seq<GameRecord>)
    ensures GetWinner(games) == Failure(EmptyScoreboard) <==> !AllScored(games)
    ensures GetWinner(games) == Failure(NoGames) <==> AllScored(games) && games == []
    ensures GetWinner(games).Success? <==> AllScored(games) && games != []
  {
    if AllScored(games) {
      var items := Items(WinsOf(games), WinOrder(games));
      SortAscending(items);
      assert |Sort(items)| == |multiset(Sort(items))| == |items|;
      if games != [] {
        assert games[|games| - 1].scoreboard[0] in WinsOf(games);
      }
    }
  }

  /** The last pair of the sorted list is one of the input pairs and no
      input pair is greater: `sorted(pairs)[-1]` is the maximum. */
  lemma SortedLastIsMax(items: seq<Pair>)
    requires items != []
    ensures |Sort(items)| == |items|
    ensures Sort(items)[|items| - 1] in items
    ensures forall x :: x in items ==> !PairLess(Sort(items)[|items| - 1], x)
  {
    var ranked := Sort(items);
    SortAscending(items);
    assert |ranked| == |multiset(ranked)| == |items|;
    var top := ranked[|ranked| - 1];
    assert top in multiset(ranked);
    forall x | x in items
      ensures !PairLess(top, x)
    {
      assert x in multiset(ranked);
      var j :| 0 <= j < |ranked| && ranked[j] == x;
      if j == |ranked| - 1 {
        StringOrder.Irreflexive(x.1);
      }
    }
  }

  /** `w` has the highest count in `m`; any other name with that count is
      lexicographically smaller. */
  predicate Best(m: map<string, int>, w: string) {
    && w in m
    && forall k :: k in m && k != w ==> m[k] < m[w] || (m[k] == m[w] && StringOrder.Less(k, w))
  }

  /** The name of the greatest `(m[k], k)` pair over a list that holds every
      key of `m` is best in `m`. */
  lemma LastItemIsBest(m: map<string, int>, ks: seq<string>)
    requires ks != []
    requires forall k :: k in ks <==> k in m
    ensures Best(m, Sort(Items(m, ks))[|ks| - 1].1)
  {
    var items := Items(m, ks);
    SortedLastIsMax(items);
    var top := Sort(items)[|items| - 1];
    var t :| 0 <= t < |items| && items[t] == top;
    var w := top.1;
    assert top == (m[w], w);
    forall k | k in m && k != w
      ensures m[k] < m[w] || (m[k] == m[w] && StringOrder.Less(k, w))
    {
      var i :| 0 <= i < |ks| && ks[i] == k;
      assert items[i] in items;
      StringOrder.Total(k, w);
    }
  }

  /** The winner has the highest win count, and among the players tied at
      that count it has the lexicographically greatest name. */
  lemma WinnerIsBest(games: seq<GameRecord>, w: string)
    requires GetWinner(games) == Success(w)
    ensures AllScored(games) && Best(WinsOf(games), w)
  {
    var ks := WinOrder(games);
    assert Items(WinsOf(games), ks) != [];
    LastItemIsBest(WinsOf(games), ks);
  }

  /* ---------------------------------------------------------------- */
  /* summarize                                                         */
  /* ---------------------------------------------------------------- */

  /** The `{'player_points': ..., 'player_games': ...}` result of `summarize`. */
  datatype Summary = Summary(playerPoints: map<string, int>, playerGames: map<string, int>)

  /** `player_points` after the inner loop has seen the first `j` names of
      `scoreboard`: the name at 1-indexed rank `n` gains `len(scoreboard) - n`. */
  function AwardRanks(m: map<string, int>, scoreboard: seq<string>, j: nat): map<string, int>
    requires j <= |scoreboard|
  {
    if j == 0 then m
    else
      var m' := AwardRanks(m, scoreboard, j - 1);
      var name := scoreboard[j - 1];
      m'[name := Get(m', name) + (|scoreboard| - j)]
  }

  /** `player_games` after the inner loop has seen the first `j` names. */
  function CountPlayers(m: map<string, int>, scoreboard: seq<string>, j: nat): map<string, int>
    requires j <= |scoreboard|
  {
    if j == 0 then m
    else
      var m' := CountPlayers(m, scoreboard, j - 1);
      var name := scoreboard[j - 1];
      m'[name := Get(m', name) + 1]
  }

  /** `player_points` after the outer loop has seen every game. */
  function Points(games: seq<GameRecord>): map<string, int>
    decreases |games|
  {
    if games == [] then map[]
    else
      var sb := games[|games| - 1].scoreboard;
      AwardRanks(Points(games[..|games| - 1]), sb, |sb|)
  }

  /** `player_games` after the outer loop has seen every game. */
  function Appearances(games: seq<GameRecord>): map<string, int>
    decreases |games|
  {
    if games == [] then map[]
    else
      var sb := games[|games| - 1].scoreboard;
      CountPlayers(Appearances(games[..|games| - 1]), sb, |sb|)
  }

  /** `summarize`: points per rank and appearances per player over all games. */
  method Summarize(games: seq<GameRecord>) returns (s: Summary)
    ensures s.playerPoints == Points(games)
    ensures s.playerGames == Appearances(games)
  {
    var playerPoints: map<string, int> := map[];
    var playerGames: map<string, int> := map[];
    var i := 0;
    while i < |games|
      invariant 0 <= i <= |games|
      invariant playerPoints == Points(games[..i])
      invariant playerGames == Appearances(games[..i])
    {
      var scoreboard := games[i].scoreboard;
      var numPlayers := |scoreboard|;
      var n := 1;
      while n <= numPlayers
        invariant 1 <= n <= numPlayers + 1
        invariant playerPoints == AwardRanks(Points(games[..i]), scoreboard, n - 1)
        invariant playerGames == CountPlayers(Appearances(games[..i]), scoreboard, n - 1)
      {
        var name := scoreboard[n - 1];
        if name !in playerPoints {
          playerPoints := playerPoints[name := 0];
        }
        playerPoints := playerPoints[name := playerPoints[name] + (numPlayers - n)];
        if name !in playerGames {
          playerGames := playerGames[name := 0];
        }
        playerGames := playerGames[name := playerGames[name] + 1];
        n := n + 1;
      }
      assert games[..i + 1][..i] == games[..i];
      i := i + 1;
    }
    assert games[..i] == games;
    s := Summary(playerPoints, playerGames);
  }

  /* Independent per-player definitions. */

  /** Every name of every scoreboard, game after game. */
  function AllNames(games: seq<GameRecord>): seq<string>
    decreases |games|
  {
    if games == [] then []
    else AllNames(games[..|games| - 1]) + games[|games| - 1].scoreboard
  }

  /** The points `name` earns from the first `j` places of one scoreboard. */
  function Gain(scoreboard: seq<string>, name: string, j: nat): (r: int)
    requires j <= |scoreboard|
    ensures r >= 0
  {
    if j == 0 then 0
    else Gain(scoreboard, name, j - 1) + (if scoreboard[j - 1] == name then |scoreboard| - j else 0)
  }

  /** The points `name` earns over all games. */
  function PointsFor(games: seq<GameRecord>, name: string): int
    decreases |games|
  {
    if games == [] then 0
    else
      var sb := games[|games| - 1].scoreboard;
      PointsFor(games[..|games| - 1], name) + Gain(sb, name, |sb|)
  }

  /** The most `name` could earn: `N - 1` for each of its appearances in an
      `N`-player game. */
  function PointsCap(games: seq<GameRecord>, name: string): int
    decreases |games|
  {
    if games == [] then 0
    else
      var sb := games[|games| - 1].scoreboard;
      PointsCap(games[..|games| - 1], name) + multiset(sb)[name] * (|sb| - 1)
  }

  /** `1 + 2 + ... + (N - 1)` counted down: the points handed out to the first
      `j` places of an `N`-player game. */
  function RankTotal(numPlayers: nat, j: nat): int
    requires j <= numPlayers
  {
    if j == 0 then 0 else RankTotal(numPlayers, j - 1) + (numPlayers - j)
  }

  lemma {:induction false} AwardRanksAt(m: map<string, int>, scoreboard: seq<string>, j: nat, k: string)
    requires j <= |scoreboard|
    ensures k in AwardRanks(m, scoreboard, j) <==> k in m || k in scoreboard[..j]
    ensures Get(AwardRanks(m, scoreboard, j), k) == Get(m, k) + Gain(scoreboard, k, j)
  {
    if j > 0 {
      AwardRanksAt(m, scoreboard, j - 1, k);
      assert scoreboard[..j] == scoreboard[..j - 1] + [scoreboard[j - 1]];
    }
  }

  lemma {:induction false} CountPlayersAt(m: map<string, int>, scoreboard: seq<string>, j: nat, k: string)
    requires j <= |scoreboard|
    ensures k in CountPlayers(m, scoreboard, j) <==> k in m || k in scoreboard[..j]
    ensures Get(CountPlayers(m, scoreboard, j), k) == Get(m, k) + multiset(scoreboard[..j])[k]
  {
    if j > 0 {
      CountPlayersAt(m, scoreboard, j - 1, k);
      assert scoreboard[..j] == scoreboard[..j - 1] + [scoreboard[j - 1]];
    }
  }

  /** Per player: `player_points` holds the points earned over all games and
      `player_games` the number of appearances; both have as keys exactly the
      names that appear in some scoreboard. */
  lemma {:induction false} SummaryAt(games: seq<GameRecord>, k: string)
    ensures k in Points(games) <==> k in AllNames(games)
    ensures k in Appearances(games) <==> k in AllNames(games)
    ensures Get(Points(games), k) == PointsFor(games, k)
    ensures Get(Appearances(games), k) == multiset(AllNames(games))[k]
    decreases |games|
  {
    if games != [] {
      var prefix := games[..|games| - 1];
      var sb := games[|games| - 1].scoreboard;
      SummaryAt(prefix, k);
      AwardRanksAt(Points(prefix), sb, |sb|, k);
      CountPlayersAt(Appearances(prefix), sb, |sb|, k);
      assert sb[..|sb|] == sb;
    }
  }

  lemma SameKeys(games: seq<GameRecord>)
    ensures Points(games).Keys == Appearances(games).Keys
  {
    forall k | k in Points(games) || k in Appearances(games)
      ensures k in Points(games) && k in Appearances(games)
    {
      SummaryAt(games, k);
    }
  }

  lemma CountStep(scoreboard: seq<string>, k: string, j: nat)
    requires 0 < j <= |scoreboard|
    ensures multiset(scoreboard[..j])[k]
         == multiset(scoreboard[..j - 1])[k] + (if scoreboard[j - 1] == k then 1 else 0)
  {
    assert scoreboard[..j] == scoreboard[..j - 1] + [scoreboard[j - 1]];
  }

  lemma {:induction false} GainBound(scoreboard: seq<string>, k: string, j: nat)
    requires j <= |scoreboard|
    ensures Gain(scoreboard, k, j) <= multiset(scoreboard[..j])[k] * (|scoreboard| - 1)
  {
    if j > 0 {
      GainBound(scoreboard, k, j - 1);
      CountStep(scoreboard, k, j);
      var c := multiset(scoreboard[..j - 1])[k];
      var n1 := |scoreboard| - 1;
      if scoreboard[j - 1] == k {
        assert (c + 1) * n1 == c * n1 + n1;
      }
    }
  }

  /** No player's points are negative, and none exceed `N - 1` per
      appearance in an `N`-player game. */
  lemma {:induction false} PointsBounds(games: seq<GameRecord>, k: string)
    ensures 0 <= Get(Points(games), k) <= PointsCap(games, k)
    decreases |games|
  {
    SummaryAt(games, k);
    if games != [] {
      var prefix := games[..|games| - 1];
      var sb := games[|games| - 1].scoreboard;
      PointsBounds(prefix, k);
      SummaryAt(prefix, k);
      GainBound(sb, k, |sb|);
      assert sb[..|sb|] == sb;
    }
  }

  lemma {:induction false} GainAtRank(scoreboard: seq<string>, n: nat, j: nat)
    requires 1 <= n <= j <= |scoreboard|
    requires forall a, b :: 0 <= a < b < |scoreboard| ==> scoreboard[a] != scoreboard[b]
    ensures Gain(scoreboard, scoreboard[n - 1], j) == |scoreboard| - n
  {
    if j > n {
      GainAtRank(scoreboard, n, j - 1);
    } else {
      GainAbsent(scoreboard, scoreboard[n - 1], n - 1);
    }
  }

  lemma {:induction false} GainAbsent(scoreboard: seq<string>, k: string, j: nat)
    requires j <= |scoreboard|
    requires k !in scoreboard[..j]
    ensures Gain(scoreboard, k, j) == 0
  {
    if j > 0 {
      assert scoreboard[j - 1] in scoreboard[..j];
      assert scoreboard[..j - 1] == scoreboard[..j][..j - 1];
      GainAbsent(scoreboard, k, j - 1);
    }
  }

  /** In a game of `N` distinct players the player at 1-indexed rank `n`
      gains exactly `N - n` points: `N - 1` for the winner, 0 for last place. */
  lemma RankPoints(m: map<string, int>, scoreboard: seq<string>, n: nat)
    requires 1 <= n <= |scoreboard|
    requires forall a, b :: 0 <= a < b < |scoreboard| ==> scoreboard[a] != scoreboard[b]
    ensures Get(AwardRanks(m, scoreboard, |scoreboard|), scoreboard[n - 1])
         == Get(m, scoreboard[n - 1]) + |scoreboard| - n
  {
    AwardRanksAt(m, scoreboard, |scoreboard|, scoreboard[n - 1]);
    GainAtRank(scoreboard, n, |scoreboard|);
  }

  lemma {:induction false} RankTotalClosed(numPlayers: nat, j: nat)
    requires j <= numPlayers
    ensures 2 * RankTotal(numPlayers, j) == j * (2 * numPlayers - j - 1)
  {
    if j > 0 {
      RankTotalClosed(numPlayers, j - 1);
    }
  }

  lemma {:induction false} AwardRanksSum(m: map<string, int>, scoreboard: seq<string>, j: nat)
    requires j <= |scoreboard|
    ensures Sum(AwardRanks(m, scoreboard, j)) == Sum(m) + RankTotal(|scoreboard|, j)
  {
    if j > 0 {
      var m' := AwardRanks(m, scoreboard, j - 1);
      AwardRanksSum(m, scoreboard, j - 1);
      SumUpdate(m', scoreboard[j - 1], Get(m', scoreboard[j - 1]) + (|scoreboard| - j));
    }
  }

  /** One `N`-player game adds `N(N-1)/2` points in total to `player_points`. */
  lemma GamePointsTotal(m: map<string, int>, scoreboard: seq<string>)
    ensures 2 * (Sum(AwardRanks(m, scoreboard, |scoreboard|)) - Sum(m))
         == |scoreboard| * (|scoreboard| - 1)
  {
    AwardRanksSum(m, scoreboard, |scoreboard|);
    RankTotalClosed(|scoreboard|, |scoreboard|);
  }

  /** `N(N-1)` summed over the games: twice the points they hand out. */
  function DoublePointsAvailable(games: seq<GameRecord>): int
    decreases |games|
  {
    if games == [] then 0
    else
      var n := |games[|games| - 1].scoreboard|;
      DoublePointsAvailable(games[..|games| - 1]) + n * (n - 1)
  }

  /** Over the whole history, `player_points` adds up to `N(N-1)/2` per game. */
  lemma {:induction false} PointsTotal(games: seq<GameRecord>)
    ensures 2 * Sum(Points(games)) == DoublePointsAvailable(games)
    decreases |games|
  {
    if games != [] {
      var prefix := games[..|games| - 1];
      PointsTotal(prefix);
      GamePointsTotal(Points(prefix), games[|games| - 1].scoreboard);
    }
  }

  /** One game `A B C`: 2, 1 and 0 points, one appearance each. */
  lemma SummarizeExample()
    ensures var games := [GameRecord("t", ["A", "B", "C"], None)];
      && Points(games) == map["A" := 2, "B" := 1, "C" := 0]
      && Appearances(games) == map["A" := 1, "B" := 1, "C" := 1]
  {
    var games := [GameRecord("t", ["A", "B", "C"], None)];
    var sb := games[0].scoreboard;
    assert games[..0] == [];
    assert AwardRanks(map[], sb, 1) == map["A" := 2];
    assert AwardRanks(map[], sb, 2) == map["A" := 2, "B" := 1];
    assert CountPlayers(map[], sb, 1) == map["A" := 1];
    assert CountPlayers(map[], sb, 2) == map["A" := 1, "B" := 1];
  }

  /** A wins two games and B one: A is the winner. */
  lemma WinnerExample()
    ensures GetWinner([GameRecord("t", ["A", "B"], None),
                       GameRecord("t", ["B", "A"], None),
                       GameRecord("t", ["A", "B"], None)]) == Success("A")
  {
    var games := [GameRecord("t", ["A", "B"], None),
                  GameRecord("t", ["B", "A"], None),
                  GameRecord("t", ["A", "B"], None)];
    assert games[..2][..1] == games[..1];
    assert games[..1][..0] == [];
    assert WinsOf(games[..1]) == map["A" := 1];
    assert WinsOf(games[..2]) == map["A" := 1, "B" := 1];
    assert WinsOf(games) == map["A" := 2, "B" := 1];
    WinnerFails(games);
    WinnerIsBest(games, GetWinner(games).value);
  }

  /** Equal win counts go to the lexicographically greatest name. */
  lemma TieBreakExample()
    ensures GetWinner([GameRecord("t", ["Ann", "Bob"], None),
                       GameRecord("t", ["Bob", "Ann"], None)]) == Success("Bob")
  {
    var games := [GameRecord("t", ["Ann", "Bob"], None),
                  GameRecord("t", ["Bob", "Ann"], None)];
    assert games[..1][..0] == [];
    assert WinsOf(games[..1]) == map["Ann" := 1];
    assert WinsOf(games) == map["Ann" := 1, "Bob" := 1];
    assert StringOrder.Less("Ann", "Bob");
    StringOrder.Asymmetric("Ann", "Bob");
    WinnerFails(games);
    WinnerIsBest(games, GetWinner(games).value);
  }
}
