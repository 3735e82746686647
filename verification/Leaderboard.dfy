/** Ranks and the leaderboard, both read off the stored scores (internal/repository/stats.go). */
module Leaderboard {
  import opened Prelude
  import Levels

  datatype UserRow = UserRow(id: string, score: int, createdAt: int, xp: int)

  datatype Entry = Entry(id: string, score: int, rank: int, level: int, isMe: bool)

  /** COUNT(*) of users with a strictly higher score. */
  function Above(users: seq<UserRow>, score: int): nat {
    if users == [] then 0 else Above(Init(users), score) + if Last(users).score > score then 1 else 0
  }

  /** 0 for an unranked user, else one more than the number of better users. */
  function Rank(users: seq<UserRow>, score: int): nat {
    if score == 0 then 0 else 1 + Above(users, score)
  }

  ghost function Better(users: seq<UserRow>, score: int): set<int> {
    set i | 0 <= i < |users| && users[i].score > score
  }

  lemma BetterGrows(users: seq<UserRow>, score: int)
    requires users != []
    ensures |Better(users, score)| == |Better(Init(users), score)| + if Last(users).score > score then 1 else 0
  {
    var last := |users| - 1;
    assert last !in Better(Init(users), score);
    assert Better(users, score) == Better(Init(users), score) + if users[last].score > score then {last} else {};
  }

  /** A user without a score is unranked; any other is ranked behind exactly the better ones. */
  lemma {:induction false} RankCountsTheBetter(users: seq<UserRow>, score: int)
    ensures Above(users, score) == |Better(users, score)|
    ensures Rank(users, 0) == 0
    ensures score != 0 ==> Rank(users, score) == 1 + |Better(users, score)|
  {
    if users != [] {
      RankCountsTheBetter(Init(users), score);
      BetterGrows(users, score);
    }
  }

  /** ORDER BY total_score DESC, created_at ASC. */
  ghost predicate Ordered(users: seq<UserRow>) {
    forall i, j :: 0 <= i < j < |users| ==>
      users[i].score > users[j].score || (users[i].score == users[j].score && users[i].createdAt <= users[j].createdAt)
  }

  /** Numbers the first rows of the ordered table from 1. */
  method GetLeaderboard(ordered: seq<UserRow>, limit: int, me: string) returns (entries: seq<Entry>)
    requires Ordered(ordered)
    ensures var shown := if limit <= 0 || limit > 100 then 20 else limit;
            |entries| == if |ordered| < shown then |ordered| else shown
    ensures forall i :: 0 <= i < |entries| ==>
      && entries[i].id == ordered[i].id && entries[i].score == ordered[i].score
      && entries[i].rank == i + 1 && (entries[i].isMe <==> ordered[i].id == me)
      && exists into :: Levels.Stands(ordered[i].xp, entries[i].level, into)
  {
    var n := limit;
    if limit <= 0 || limit > 100 {
      n := 20;
    }
    entries := [];
    var rank := 0;
    while rank < n && rank < |ordered|
      invariant 0 <= rank == |entries| <= |ordered| && rank <= n
      invariant forall i :: 0 <= i < rank ==>
        && entries[i].id == ordered[i].id && entries[i].score == ordered[i].score
        && entries[i].rank == i + 1 && (entries[i].isMe <==> ordered[i].id == me)
        && exists into :: Levels.Stands(ordered[i].xp, entries[i].level, into)
    {
      var row := ordered[rank];
      var level, into, next := Levels.LevelFromXP(row.xp);
      rank := rank + 1;
      entries := entries + [Entry(row.id, row.score, rank, level, row.id == me)];
    }
  }

  /** Counting does not depend on the order of the rows. */
  lemma {:induction false} AboveIgnoresOrder(a: seq<UserRow>, b: seq<UserRow>, score: int)
    requires multiset(a) == multiset(b)
    ensures Above(a, score) == Above(b, score)
    decreases |a|
  {
    if a == [] {
      assert |multiset(b)| == |multiset(a)| == 0;
    } else {
      assert Last(a) in multiset(a);
      var rest := TakeOut(b, Last(a), score);
      WithoutOne(a, |a| - 1);
      assert a[..|a| - 1] + a[|a| - 1 + 1..] == Init(a);
      AboveIgnoresOrder(Init(a), rest, score);
    }
  }

  lemma TakeOut(b: seq<UserRow>, x: UserRow, score: int) returns (rest: seq<UserRow>)
    requires x in b
    ensures multiset(rest) == multiset(b) - multiset{x}
    ensures Above(b, score) == Above(rest, score) + if x.score > score then 1 else 0
  {
    var i :| 0 <= i < |b| && b[i] == x;
    rest := b[..i] + b[i + 1..];
    WithoutOne(b, i);
    AboveWithout(b, i, score);
  }

  lemma WithoutOne(s: seq<UserRow>, i: nat)
    requires i < |s|
    ensures multiset(s[..i] + s[i + 1..]) == multiset(s) - multiset{s[i]}
  {
    assert s == s[..i] + ([s[i]] + s[i + 1..]);
  }

  lemma {:induction false} AboveWithout(b: seq<UserRow>, i: nat, score: int)
    requires i < |b|
    ensures Above(b, score) == Above(b[..i] + b[i + 1..], score) + if b[i].score > score then 1 else 0
  {
    if i == |b| - 1 {
      assert b[..i] + b[i + 1..] == Init(b);
    } else {
      assert Init(b[..i] + b[i + 1..]) == Init(b)[..i] + Init(b)[i + 1..];
      AboveWithout(Init(b), i, score);
    }
  }

  /** In the ordered table the better users are exactly those before the user's tie group. */
  lemma {:induction false} AboveIsTieGroupStart(users: seq<UserRow>, p: nat, first: nat)
    requires Ordered(users) && first <= p < |users|
    requires users[first].score == users[p].score
    requires first > 0 ==> users[first - 1].score > users[p].score
    ensures Above(users, users[p].score) == first
    decreases |users|
  {
    var score := users[p].score;
    if |users| - 1 == first {
      AllAbove(Init(users), score);
    } else if |users| - 1 > p {
      AboveIsTieGroupStart(Init(users), p, first);
    } else {
      AboveIsTieGroupStart(Init(users), first, first);
    }
  }

  lemma {:induction false} AllAbove(users: seq<UserRow>, score: int)
    requires forall i :: 0 <= i < |users| ==> users[i].score > score
    ensures Above(users, score) == |users|
  {
    if users != [] { AllAbove(Init(users), score); }
  }

  /** The first position of the tie group of position p. */
  lemma {:induction false} TieGroup(users: seq<UserRow>, p: nat) returns (first: nat)
    requires Ordered(users) && p < |users|
    ensures first <= p && users[first].score == users[p].score
    ensures first > 0 ==> users[first - 1].score > users[p].score
  {
    if p == 0 || users[p - 1].score > users[p].score {
      first := p;
    } else {
      first := TieGroup(users, p - 1);
    }
  }

  /** A ranked user's own rank is at most the leaderboard position, and equal for the first of a tie. */
  lemma RankMatchesPosition(users: seq<UserRow>, ordered: seq<UserRow>, p: nat)
    requires multiset(users) == multiset(ordered) && Ordered(ordered) && p < |ordered|
    requires ordered[p].score > 0
    ensures 1 <= Rank(users, ordered[p].score) <= p + 1
    ensures Rank(users, ordered[p].score) == p + 1 <==> (p == 0 || ordered[p - 1].score > ordered[p].score)
  {
    var first := TieGroup(ordered, p);
    AboveIgnoresOrder(users, ordered, ordered[p].score);
    AboveIsTieGroupStart(ordered, p, first);
  }
}
