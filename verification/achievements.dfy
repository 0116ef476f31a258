/**
 * The achievement badges (app/components/achievements-badges.tsx): six
 * achievements unlocked by the number of completed tasks or by the profile,
 * each with a progress towards its target, and the lists of unlocked and
 * next achievements.
 */
module Achievements {
  import opened Records
  import opened Seqs
  import Dashboard

  datatype Achievement = Achievement(id: string, unlocked: bool, progress: int, maxProgress: int)

  function Min(a: int, b: int): int {
    if a < b then a else b
  }

  /** An achievement earned by completing `target` tasks. */
  function TaskCountBadge(id: string, completed: nat, target: nat): Achievement {
    Achievement(id, completed >= target, Min(completed, target), target)
  }

  /** An achievement earned by a profile condition. */
  function ProfileBadge(id: string, holds: bool): Achievement {
    Achievement(id, holds, if holds then 1 else 0, 1)
  }

  const Ids: seq<string> := ["first-task", "task-master", "organized", "goal-setter", "productive", "scholar"]

  /** `achievements`, in declaration order, for a completed-task count and a profile. */
  function Table(completed: nat, profile: UserProfile): (r: seq<Achievement>)
    ensures |r| == 6 && forall i :: 0 <= i < 6 ==> r[i].id == Ids[i]
    ensures forall a :: a in r ==> 0 <= a.progress <= a.maxProgress
    ensures forall a :: a in r ==> (a.unlocked <==> a.progress == a.maxProgress)
  {
    [ TaskCountBadge("first-task", completed, 1),
      TaskCountBadge("task-master", completed, 10),
      ProfileBadge("organized", profile.name != ""),
      ProfileBadge("goal-setter", |profile.goals| > 0),
      TaskCountBadge("productive", completed, 5),
      ProfileBadge("scholar", |profile.favoriteSubjects| > 0) ]
  }

  function AchievementsOf(tasks: seq<Task>, profile: UserProfile): seq<Achievement> {
    Table(Dashboard.CompletedCount(tasks), profile)
  }

  /** The unlock rules: task badges by the total completed count (1, 10, 5),
      profile badges by a name, some goal and some favourite subject. */
  lemma UnlockRules(completed: nat, profile: UserProfile)
    ensures Table(completed, profile)[0].unlocked <==> completed >= 1
    ensures Table(completed, profile)[1].unlocked <==> completed >= 10
    ensures Table(completed, profile)[2].unlocked <==> profile.name != ""
    ensures Table(completed, profile)[3].unlocked <==> profile.goals != []
    ensures Table(completed, profile)[4].unlocked <==> completed >= 5
    ensures Table(completed, profile)[5].unlocked <==> profile.favoriteSubjects != []
  {
  }

  /** Completing more tasks never locks an achievement nor lowers a progress. */
  lemma MonotoneInCompleted(c1: nat, c2: nat, profile: UserProfile)
    requires c1 <= c2
    ensures forall i :: 0 <= i < 6 ==> (Table(c1, profile)[i].unlocked ==> Table(c2, profile)[i].unlocked)
    ensures forall i :: 0 <= i < 6 ==> Table(c1, profile)[i].progress <= Table(c2, profile)[i].progress
  {
    var t1, t2 := Table(c1, profile), Table(c2, profile);
    forall i | 0 <= i < 6
      ensures (t1[i].unlocked ==> t2[i].unlocked) && t1[i].progress <= t2[i].progress
    {
      if i == 0 || i == 1 || i == 4 {
        var target := if i == 0 then 1 else if i == 1 then 10 else 5;
        assert t1[i] == TaskCountBadge(Ids[i], c1, target) && t2[i] == TaskCountBadge(Ids[i], c2, target);
      } else {
        assert t1[i] == t2[i];
      }
    }
  }

  /** `unlockedAchievements`. */
  function Unlocked(table: seq<Achievement>): seq<Achievement> {
    Filter(table, (a: Achievement) => a.unlocked)
  }

  /** `nextAchievements`: the first three still locked. */
  function Next(table: seq<Achievement>): seq<Achievement> {
    var locked := Filter(table, (a: Achievement) => !a.unlocked);
    locked[..Min(|locked|, 3)]
  }

  /** The two lists do not share an achievement; the next list holds at most
      three locked achievements in declaration order, and it is short only
      when every other achievement is unlocked. */
  lemma UnlockedAndNext(table: seq<Achievement>)
    ensures forall a :: a in Unlocked(table) ==> a in table && a.unlocked
    ensures forall a :: a in Next(table) ==> a in table && !a.unlocked
    ensures forall a :: !(a in Unlocked(table) && a in Next(table))
    ensures |Next(table)| <= 3
    ensures SubsequenceOf(Next(table), table)
    ensures |Next(table)| < 3 ==> |Unlocked(table)| + |Next(table)| == |table|
    ensures |Next(table)| == Min(|table| - |Unlocked(table)|, 3)
  {
    var locked := Filter(table, (a: Achievement) => !a.unlocked);
    var n := Next(table);
    forall a | a in n ensures a in locked {
      var i :| 0 <= i < |n| && n[i] == a;
      assert locked[i] == a;
    }
    PrefixSubsequence(locked, Min(|locked|, 3));
    FilterSubsequence(table, (a: Achievement) => !a.unlocked);
    SubsequenceTrans(n, locked, table);
    CountSplit(table, (a: Achievement) => a.unlocked, (a: Achievement) => !a.unlocked);
  }

  /** The next list takes the FIRST locked achievements: a locked achievement
      preceded by fewer than three locked ones is listed. */
  lemma NextTakesFirstLocked(table: seq<Achievement>, j: int)
    requires 0 <= j < |table| && !table[j].unlocked
    requires Count(table[..j], (a: Achievement) => !a.unlocked) < 3
    ensures table[j] in Next(table)
  {
    var locked := Filter(table, (a: Achievement) => !a.unlocked);
    var before := Filter(table[..j], (a: Achievement) => !a.unlocked);
    assert table == table[..j] + ([table[j]] + table[j + 1..]);
    FilterConcat(table[..j], [table[j]] + table[j + 1..], (a: Achievement) => !a.unlocked);
    FilterCons(table[j], table[j + 1..], (a: Achievement) => !a.unlocked);
    assert locked == before + ([table[j]] + Filter(table[j + 1..], (a: Achievement) => !a.unlocked));
    assert locked[|before|] == table[j];
    assert Next(table)[|before|] == table[j];
  }

  /** A prefix is a subsequence. */
  lemma {:induction false} PrefixSubsequence<T>(s: seq<T>, n: nat)
    requires n <= |s|
    ensures SubsequenceOf(s[..n], s)
  {
    if n > 0 {
      PrefixSubsequence(s[1..], n - 1);
      assert s[..n][1..] == s[1..][..n - 1];
    }
  }

  lemma {:induction false} SubsequenceTrans<T>(a: seq<T>, b: seq<T>, c: seq<T>)
    requires SubsequenceOf(a, b) && SubsequenceOf(b, c)
    ensures SubsequenceOf(a, c)
    decreases |c|
  {
    if a != [] && c != [] {
      if b[0] == c[0] && SubsequenceOf(b[1..], c[1..]) {
        if a[0] == b[0] && SubsequenceOf(a[1..], b[1..]) {
          SubsequenceTrans(a[1..], b[1..], c[1..]);
        } else {
          SubsequenceTrans(a, b[1..], c[1..]);
        }
      } else {
        SubsequenceTrans(a, b, c[1..]);
      }
    }
  }
}
