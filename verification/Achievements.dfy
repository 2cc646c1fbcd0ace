/** backend/achievements/conditions.go: which lesson conditions a profile has met, and the loop that
    stores the achievements (SetAchievementAchieved in backend/sqlc/achievements.sql.go). */
module Achievements {
  const MAX_INT32: int := 0x7FFF_FFFF

  /** The int32 that a Go conversion or addition leaves of x. */
  function ToInt32(x: int): int { (x + 0x8000_0000) % 0x1_0000_0000 - 0x8000_0000 }

  datatype Condition = Condition(achievementId: string, conditionId: string, amount: int, studyTopics: seq<string>)

  datatype Achieved = Achieved(id: string, conditionIds: seq<string>)

  // ---- Specification ----

  /** The number of completed lessons of a topic; a lesson is known by the topic it belongs to. */
  function TopicCount(lessons: seq<string>, topic: string): nat {
    if lessons == [] then 0
    else TopicCount(lessons[..|lessons| - 1], topic) + if lessons[|lessons| - 1] == topic then 1 else 0
  }

  function SumOver(lessons: seq<string>, topics: seq<string>): nat {
    if topics == [] then 0
    else SumOver(lessons, topics[..|topics| - 1]) + TopicCount(lessons, topics[|topics| - 1])
  }

  /** All lessons, or the lessons of the condition's topics. */
  function LessonTotal(lessons: seq<string>, c: Condition): nat {
    if c.studyTopics == [] then |lessons| else SumOver(lessons, c.studyTopics)
  }

  predicate Met(lessons: seq<string>, c: Condition) { LessonTotal(lessons, c) >= c.amount }

  predicate Fits(lessons: seq<string>, conds: seq<Condition>) {
    |lessons| <= MAX_INT32 && forall i :: 0 <= i < |conds| ==> LessonTotal(lessons, conds[i]) <= MAX_INT32
  }

  predicate DistinctIds(conds: seq<Condition>) {
    forall i, j :: 0 <= i < j < |conds| ==> conds[i].conditionId != conds[j].conditionId
  }

  function ResultOf(c: Condition): Achieved { Achieved(c.achievementId, [c.conditionId]) }

  lemma {:induction false} TopicCountBound(lessons: seq<string>, topic: string)
    ensures TopicCount(lessons, topic) <= |lessons|
  {
    if lessons != [] {
      TopicCountBound(lessons[..|lessons| - 1], topic);
    }
  }

  lemma {:induction false} SumOverPrefix(lessons: seq<string>, topics: seq<string>, k: nat)
    requires k <= |topics|
    ensures SumOver(lessons, topics[..k]) <= SumOver(lessons, topics)
  {
    if k < |topics| {
      SumOverPrefix(lessons, topics[..|topics| - 1], k);
      assert topics[..|topics| - 1][..k] == topics[..k];
    } else {
      assert topics[..k] == topics;
    }
  }

  // ---- The counting loops ----

  method CountPerTopic(lessons: seq<string>) returns (completedCount: map<string, int>)
    requires |lessons| <= MAX_INT32
    ensures forall t :: (if t in completedCount then completedCount[t] else 0) == TopicCount(lessons, t)
  {
    completedCount := map[];
    for n := 0 to |lessons|
      invariant forall t :: (if t in completedCount then completedCount[t] else 0) == TopicCount(lessons[..n], t)
    {
      var topic := lessons[n];
      if topic !in completedCount {
        completedCount := completedCount[topic := 0];
      }
      TopicCountBound(lessons[..n], topic);
      assert lessons[..n + 1][..n] == lessons[..n];
      completedCount := completedCount[topic := ToInt32(completedCount[topic] + 1)];
    }
    assert lessons[..|lessons|] == lessons;
  }

  /** The inner loop over the topics of one condition, which appends a result at every topic from which
      on the amount is reached. */
  method CountTopics(lessons: seq<string>, completedCount: map<string, int>, c: Condition, start: int)
    returns (count: int, achieved: seq<Achieved>)
    requires c.studyTopics != [] && LessonTotal(lessons, c) <= MAX_INT32 && start == 0
    requires forall t :: (if t in completedCount then completedCount[t] else 0) == TopicCount(lessons, t)
    ensures count == LessonTotal(lessons, c)
    ensures forall a :: a in achieved ==> a == ResultOf(c)
    ensures achieved != [] <==> Met(lessons, c)
  {
    count, achieved := start, [];
    for k := 0 to |c.studyTopics|
      invariant count == SumOver(lessons, c.studyTopics[..k])
      invariant forall a :: a in achieved ==> a == ResultOf(c)
      invariant achieved != [] <==> k > 0 && count >= c.amount
    {
      var t := c.studyTopics[k];
      assert c.studyTopics[..k + 1][..k] == c.studyTopics[..k];
      SumOverPrefix(lessons, c.studyTopics, k + 1);
      count := ToInt32(count + if t in completedCount then completedCount[t] else 0);
      if count >= c.amount {
        achieved := achieved + [ResultOf(c)];
      }
    }
    assert c.studyTopics[..|c.studyTopics|] == c.studyTopics;
  }

  /** With distinct condition ids and no int32 overflow, exactly the conditions that are met are
      reported, however often, each with its own achievement. */
  method CheckCompletedLessonAchievements(lessons: seq<string>, conds: seq<Condition>)
    returns (achieved: seq<Achieved>)
    requires DistinctIds(conds) && Fits(lessons, conds)
    ensures forall a :: a in achieved <==>
              exists i :: 0 <= i < |conds| && Met(lessons, conds[i]) && a == ResultOf(conds[i])
  {
    var completedCount := CountPerTopic(lessons);
    var totalCompletedLessons := ToInt32(|lessons|);
    var counts: map<string, int> := map[];
    achieved := [];
    for n := 0 to |conds|
      invariant forall i :: n <= i < |conds| ==> conds[i].conditionId !in counts
      invariant forall a :: a in achieved <==>
                  exists i :: 0 <= i < n && Met(lessons, conds[i]) && a == ResultOf(conds[i])
    {
      var c := conds[n];
      ghost var before := achieved;
      if c.conditionId !in counts {
        counts := counts[c.conditionId := 0];
      }
      if c.studyTopics == [] {
        counts := counts[c.conditionId := totalCompletedLessons];
        if counts[c.conditionId] >= c.amount {
          achieved := achieved + [ResultOf(c)];
        }
      } else {
        var count, more := CountTopics(lessons, completedCount, c, counts[c.conditionId]);
        counts := counts[c.conditionId := count];
        achieved := achieved + more;
        assert more != [] ==> more[0] in more;
      }
      assert forall a :: a in achieved <==> a in before || (Met(lessons, c) && a == ResultOf(c));
    }
  }

  // ---- Storing the achievements ----

  /** A row of users.achievements of one profile. */
  datatype Row = Row(achievedAt: int, conditionIds: seq<string>)

  /** INSERT ... ON CONFLICT DO UPDATE SET achieved_at = now(). */
  function Upserted(rows: map<string, Row>, a: Achieved, now: int): map<string, Row> {
    rows[a.id := if a.id in rows then rows[a.id].(achievedAt := now) else Row(now, a.conditionIds)]
  }

  function AllUpserted(rows: map<string, Row>, achieved: seq<Achieved>, now: int): map<string, Row> {
    if achieved == [] then rows
    else Upserted(AllUpserted(rows, achieved[..|achieved| - 1], now), achieved[|achieved| - 1], now)
  }

  function Ids(achieved: seq<Achieved>): set<string> { set a | a in achieved :: a.id }

  class UserAchievements {
    var rows: map<string, Row>

    constructor (rows: map<string, Row>)
      ensures this.rows == rows
    {
      this.rows := rows;
    }

    /** The persist loop; `stores` tells which upserts succeed, the first that does not ends it. */
    method Persist(achieved: seq<Achieved>, now: int, stores: nat -> bool) returns (ok: bool, stored: nat)
      modifies this
      ensures ok <==> forall n: nat :: n < |achieved| ==> stores(n)
      ensures stored <= |achieved| && (ok ==> stored == |achieved|)
      ensures rows == AllUpserted(old(rows), achieved[..stored], now)
    {
      for n := 0 to |achieved|
        invariant rows == AllUpserted(old(rows), achieved[..n], now)
        invariant forall m: nat :: m < n ==> stores(m)
      {
        if !stores(n) {
          return false, n;
        }
        rows := Upserted(rows, achieved[n], now);
        assert achieved[..n + 1][..n] == achieved[..n];
      }
      return true, |achieved|;
    }

    /** The "lessons completed" action: when every upsert succeeds, exactly the achievements of the
        conditions that are met are added; whatever fails, none is taken away and none is made up. */
    method CheckNewAchievements(lessons: seq<string>, conds: seq<Condition>, now: int, stores: nat -> bool)
      returns (ok: bool)
      requires DistinctIds(conds) && Fits(lessons, conds)
      modifies this
      ensures ok ==> rows.Keys == old(rows).Keys + MetAchievements(lessons, conds)
      ensures old(rows).Keys <= rows.Keys <= old(rows).Keys + MetAchievements(lessons, conds)
      ensures forall id :: id in old(rows) ==> rows[id].conditionIds == old(rows)[id].conditionIds
      ensures forall id :: id in rows ==> (id in old(rows) && rows[id] == old(rows)[id]) || rows[id].achievedAt == now
    {
      var achieved := CheckCompletedLessonAchievements(lessons, conds);
      var stored;
      ok, stored := Persist(achieved, now, stores);
      PersistAddsExactly(old(rows), achieved[..stored], now);
      assert ok ==> achieved[..stored] == achieved;
      assert Ids(achieved[..stored]) <= Ids(achieved) by {
        assert forall a :: a in achieved[..stored] ==> a in achieved;
      }
      forall i | 0 <= i < |conds| && Met(lessons, conds[i]) ensures conds[i].achievementId in Ids(achieved) {
        assert ResultOf(conds[i]) in achieved;
      }
    }
  }

  function MetAchievements(lessons: seq<string>, conds: seq<Condition>): set<string> {
    set i | 0 <= i < |conds| && Met(lessons, conds[i]) :: conds[i].achievementId
  }

  /** The loop adds exactly the reported achievements, each with the conditions of a report; it keeps
      the condition ids of stored ones and every row that was not reported. */
  lemma {:induction false} PersistAddsExactly(rows: map<string, Row>, achieved: seq<Achieved>, now: int)
    ensures AllUpserted(rows, achieved, now).Keys == rows.Keys + Ids(achieved)
    ensures forall id :: id in rows ==> AllUpserted(rows, achieved, now)[id].conditionIds == rows[id].conditionIds
    ensures forall id :: id in rows && id !in Ids(achieved) ==> AllUpserted(rows, achieved, now)[id] == rows[id]
    ensures forall id :: id in Ids(achieved) ==> AllUpserted(rows, achieved, now)[id].achievedAt == now
    ensures forall id :: id in Ids(achieved) && id !in rows ==>
      Achieved(id, AllUpserted(rows, achieved, now)[id].conditionIds) in achieved
  {
    if achieved != [] {
      var front, last := achieved[..|achieved| - 1], achieved[|achieved| - 1];
      PersistAddsExactly(rows, front, now);
      assert achieved == front + [last];
      assert Ids(achieved) == Ids(front) + {last.id};
      assert last in achieved && last == Achieved(last.id, last.conditionIds);
    }
  }

  /** Storing the same results again, at any time, leaves the same achievements with the same conditions. */
  lemma PersistIdempotent(rows: map<string, Row>, achieved: seq<Achieved>, now: int, later: int)
    ensures var once := AllUpserted(rows, achieved, now);
      var twice := AllUpserted(once, achieved, later);
      && twice.Keys == once.Keys
      && forall id :: id in once ==> twice[id].conditionIds == once[id].conditionIds
  {
    PersistAddsExactly(rows, achieved, now);
    PersistAddsExactly(AllUpserted(rows, achieved, now), achieved, later);
  }
}
