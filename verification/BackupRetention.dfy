/**
 Which backups survive a deployment (deploy/backup_retention.py). Times are seconds since the epoch
 in UTC; the list is sorted newest first, as `list_backups` returns it.
 */
module BackupRetention {
  import Sets

  datatype Backup = Backup(path: string, modifiedAt: int)

  function Day(t: int): int { t / 86400 }

  /** The ISO week as the number of its Monday-to-Sunday week; the epoch fell on a Thursday. */
  function Week(day: int): int { (day + 3) / 7 }

  function Age(b: Backup, today: int): int { today - Day(b.modifiedAt) }

  predicate Daily(b: Backup, today: int) { 0 <= Age(b, today) < 7 }

  predicate Weekly(b: Backup, today: int) { 7 <= Age(b, today) < 35 }

  const NEWEST := 3
  const WEEKS := 4

  /** The recent days that the list mentions. */
  function DaysSeen(bs: seq<Backup>, today: int): set<int> {
    if bs == [] then {}
    else
      var last := bs[|bs| - 1];
      DaysSeen(bs[..|bs| - 1], today) + if Daily(last, today) then {Day(last.modifiedAt)} else {}
  }

  /** The weeks, between seven and 34 days back, that the list mentions. */
  function WeeksSeen(bs: seq<Backup>, today: int): set<int> {
    if bs == [] then {}
    else
      var last := bs[|bs| - 1];
      WeeksSeen(bs[..|bs| - 1], today) + if Weekly(last, today) then {Week(Day(last.modifiedAt))} else {}
  }

  predicate FirstOfDay(before: seq<Backup>, b: Backup, today: int) {
    Daily(b, today) && Day(b.modifiedAt) !in DaysSeen(before, today)
  }

  predicate FirstOfWeek(before: seq<Backup>, b: Backup, today: int) {
    Weekly(b, today) && Week(Day(b.modifiedAt)) !in WeeksSeen(before, today) && |WeeksSeen(before, today)| < WEEKS
  }

  /** Whether `b` is kept when it comes after `before` in the list. */
  predicate Keeps(before: seq<Backup>, b: Backup, today: int) {
    || |before| < NEWEST
    || Age(b, today) < 0
    || FirstOfDay(before, b, today)
    || FirstOfWeek(before, b, today)
  }

  /** The kept backups, in order. */
  function Kept(bs: seq<Backup>, today: int): seq<Backup> {
    if bs == [] then []
    else
      var (before, last) := (bs[..|bs| - 1], bs[|bs| - 1]);
      Kept(before, today) + if Keeps(before, last, today) then [last] else []
  }

  function Paths(bs: seq<Backup>): set<string> {
    set b | b in bs :: b.path
  }

  /** The loop's record of weeks: all that were seen, until there are four. */
  ghost predicate Records(weekly: set<int>, seen: set<int>) {
    && weekly <= seen && |weekly| <= WEEKS
    && (|weekly| < WEEKS ==> weekly == seen)
  }

  /** Whether one backup is due for its day or week, or dated in the future, and the dates then on record. */
  method Mark(ghost before: seq<Backup>, b: Backup, today: int, daily: set<int>, weekly: set<int>)
    returns (keep: bool, daily': set<int>, weekly': set<int>)
    requires daily == DaysSeen(before, today) && Records(weekly, WeeksSeen(before, today))
    ensures keep <==> Age(b, today) < 0 || FirstOfDay(before, b, today) || FirstOfWeek(before, b, today)
    ensures daily' == DaysSeen(before + [b], today) && Records(weekly', WeeksSeen(before + [b], today))
  {
    hide Kept, DaysSeen, WeeksSeen, Paths;
    OneMoreExactly(before, b, today);
    Sets.SubsetSize(weekly, WeeksSeen(before, today));
    keep, daily', weekly' := false, daily, weekly;
    var age := today - Day(b.modifiedAt);
    if age < 0 {
      keep := true;
    } else if age < 7 && Day(b.modifiedAt) !in daily {
      keep, daily' := true, daily + {Day(b.modifiedAt)};
    } else if 7 <= age < 35 {
      var week := Week(Day(b.modifiedAt));
      if week !in weekly && |weekly| < WEEKS {
        keep, weekly' := true, weekly + {week};
      }
    }
  }

  method SelectRetained(backups: seq<Backup>, now: int) returns (retained: set<string>)
    ensures retained == Paths(Kept(backups, Day(now)))
  {
    hide Kept, DaysSeen, WeeksSeen, Records, FirstOfDay, FirstOfWeek, Age;
    var today := Day(now);
    var newest := if |backups| < NEWEST then backups else backups[..NEWEST];
    retained := Paths(newest);
    NothingSeen(today);
    var daily: set<int>, weekly: set<int> := {}, {};
    ghost var before: seq<Backup>, kept, first := [], Paths([]), Paths(newest);
    hide *;
    var i := 0;
    while i < |backups|
      invariant 0 <= i <= |backups| && before == backups[..i]
      invariant kept == Paths(Kept(before, today)) && retained == kept + first
      invariant daily == DaysSeen(before, today) && Records(weekly, WeeksSeen(before, today))
    {
      var b := backups[i];
      OneMoreExactly(before, b, today);
      var keep;
      keep, daily, weekly := Mark(before, b, today, daily, weekly);
      KeepsOrNewest(before, b, today, keep, newest, backups);
      UnionStep(kept, first, b.path, keep, Keeps(before, b, today));
      if keep {
        retained := retained + {b.path};
      }
      kept := if Keeps(before, b, today) then kept + {b.path} else kept;
      PrefixGrows(backups, i);
      before := before + [b];
      i := i + 1;
    }
    assert before == backups;
    NewestPathsKept(backups, newest, today);
  }

  lemma PrefixGrows(bs: seq<Backup>, i: nat)
    requires i < |bs|
    ensures bs[..i + 1] == bs[..i] + [bs[i]]
  {}

  lemma UnionStep(kept: set<string>, first: set<string>, path: string, keep: bool, keeps: bool)
    requires (keep ==> keeps) && (keeps && !keep ==> path in first)
    ensures (if keep then kept + first + {path} else kept + first) == (if keeps then kept + {path} else kept) + first
  {}

  /** Within the newest three a backup is kept whatever its dates; later, by its dates alone. */
  lemma KeepsOrNewest(before: seq<Backup>, b: Backup, today: int, keep: bool, newest: seq<Backup>, all: seq<Backup>)
    requires |before| < |all| && before == all[..|before|] && b == all[|before|]
    requires newest == if |all| < NEWEST then all else all[..NEWEST]
    requires keep <==> Age(b, today) < 0 || FirstOfDay(before, b, today) || FirstOfWeek(before, b, today)
    ensures keep ==> Keeps(before, b, today)
    ensures Keeps(before, b, today) && !keep ==> b.path in Paths(newest)
  {
    hide FirstOfDay, FirstOfWeek, Age;
    if |before| < NEWEST {
      assert newest[|before|] == b;
      PathOf(newest, b);
    }
  }

  /** What one more backup adds, and nothing when it is no news. */
  lemma OneMoreExactly(before: seq<Backup>, b: Backup, today: int)
    ensures DaysSeen(before + [b], today)
            == if FirstOfDay(before, b, today) then DaysSeen(before, today) + {Day(b.modifiedAt)} else DaysSeen(before, today)
    ensures WeeksSeen(before + [b], today)
            == if Weekly(b, today) && Week(Day(b.modifiedAt)) !in WeeksSeen(before, today)
               then WeeksSeen(before, today) + {Week(Day(b.modifiedAt))} else WeeksSeen(before, today)
    ensures Paths(Kept(before + [b], today))
            == if Keeps(before, b, today) then Paths(Kept(before, today)) + {b.path} else Paths(Kept(before, today))
  {
    hide Kept, DaysSeen, WeeksSeen, Paths;
    OneMore(before, b, today);
  }

  lemma PathOf(bs: seq<Backup>, b: Backup)
    requires b in bs
    ensures b.path in Paths(bs)
  {}

  lemma NewestPathsKept(bs: seq<Backup>, newest: seq<Backup>, today: int)
    requires newest == if |bs| < NEWEST then bs else bs[..NEWEST]
    ensures Paths(Kept(bs, today)) + Paths(newest) == Paths(Kept(bs, today))
  {
    NewestKept(bs, today);
    assert forall b :: b in newest ==> b in Kept(bs, today);
  }

  lemma NothingSeen(today: int)
    ensures Kept([], today) == [] && Paths([]) == {} && DaysSeen([], today) == {}
    ensures WeeksSeen([], today) == {} && Records({}, {})
  {}

  lemma OneMore(before: seq<Backup>, b: Backup, today: int)
    ensures DaysSeen(before + [b], today) == DaysSeen(before, today) + if Daily(b, today) then {Day(b.modifiedAt)} else {}
    ensures WeeksSeen(before + [b], today) == WeeksSeen(before, today) + if Weekly(b, today) then {Week(Day(b.modifiedAt))} else {}
    ensures Kept(before + [b], today) == Kept(before, today) + if Keeps(before, b, today) then [b] else []
    ensures Paths(Kept(before + [b], today)) == Paths(Kept(before, today)) + if Keeps(before, b, today) then {b.path} else {}
  {
    assert (before + [b])[..|before|] == before;
  }

  lemma {:induction false} NewestKept(bs: seq<Backup>, today: int)
    ensures forall b :: b in bs && (|bs| < NEWEST || b in bs[..NEWEST]) ==> b in Kept(bs, today)
  {
    if bs != [] {
      var before, last := bs[..|bs| - 1], bs[|bs| - 1];
      NewestKept(before, today);
      forall b | b in bs && (|bs| < NEWEST || b in bs[..NEWEST]) ensures b in Kept(bs, today) {
        if |bs| > NEWEST { assert bs[..NEWEST] == before[..NEWEST]; }
        if |bs| == NEWEST { assert bs[..NEWEST] == bs; }
        assert b in before || b == last;
      }
    }
  }

  // ---------- exactly which are kept ----------

  /** The fifth day of 1970 was the first Monday. */
  predicate IsMonday(day: int) { day % 7 == 4 }

  ghost predicate InSameWeek(a: int, b: int) {
    exists monday: int :: IsMonday(monday) && monday <= a < monday + 7 && monday <= b < monday + 7
  }

  /** Weeks run from Monday to Sunday. */
  lemma WeekIsMondayToSunday(a: int, b: int)
    ensures Week(a) == Week(b) <==> InSameWeek(a, b)
  {
    if Week(a) == Week(b) { assert IsMonday(7 * Week(a) - 3); }
  }

  function DayOf(b: Backup): int { b.modifiedAt / 86400 }

  ghost predicate SevenToThirtyFour(b: Backup, today: int) { today - 34 <= DayOf(b) <= today - 7 }

  /** The weeks of the backups in the monthly range. */
  function WeeksMet(bs: seq<Backup>, today: int): set<int> {
    set x | x in bs && today - 34 <= DayOf(x) <= today - 7 :: Week(DayOf(x))
  }

  /** The rules by dates: among the newest three, dated in the future, the first of one of the last seven
      days, or the first of its week between seven and 34 days back after fewer than four such weeks. */
  ghost predicate Deserves(before: seq<Backup>, b: Backup, today: int) {
    || |before| < 3
    || DayOf(b) > today
    || (today - 6 <= DayOf(b) <= today && forall x :: x in before ==> DayOf(x) != DayOf(b))
    || (&& SevenToThirtyFour(b, today) && |WeeksMet(before, today)| < 4
        && forall x :: x in before && SevenToThirtyFour(x, today) ==> !InSameWeek(DayOf(x), DayOf(b)))
  }

  lemma {:induction false} DaysAre(bs: seq<Backup>, today: int, day: int)
    ensures day in DaysSeen(bs, today) <==> today - 6 <= day <= today && exists x :: x in bs && DayOf(x) == day
  {
    if bs != [] {
      var before, last := bs[..|bs| - 1], bs[|bs| - 1];
      DaysAre(before, today, day);
      assert last in bs && forall x :: x in bs <==> x in before || x == last;
    }
  }

  lemma {:induction false} WeeksAre(bs: seq<Backup>, today: int)
    ensures WeeksSeen(bs, today) == WeeksMet(bs, today)
  {
    if bs != [] {
      var before, last := bs[..|bs| - 1], bs[|bs| - 1];
      WeeksAre(before, today);
      assert last in bs && forall x :: x in bs <==> x in before || x == last;
    }
  }

  lemma KeepsDeserving(before: seq<Backup>, b: Backup, today: int)
    ensures Keeps(before, b, today) <==> Deserves(before, b, today)
  {
    DaysAre(before, today, DayOf(b));
    WeeksAre(before, today);
    hide DaysSeen, WeeksSeen, Week, InSameWeek;
    if Weekly(b, today) {
      forall x | x in before && SevenToThirtyFour(x, today)
        ensures Week(DayOf(x)) == Week(DayOf(b)) <==> InSameWeek(DayOf(x), DayOf(b))
      {
        WeekIsMondayToSunday(DayOf(x), DayOf(b));
      }
    }
  }

  /** A backup is kept exactly when its place in the list deserves it. */
  lemma {:induction false} KeptExactly(bs: seq<Backup>, today: int, b: Backup)
    ensures b in Kept(bs, today) <==> exists i :: 0 <= i < |bs| && bs[i] == b && Deserves(bs[..i], b, today)
  {
    hide Keeps, Deserves;
    if bs != [] {
      var before, last := bs[..|bs| - 1], bs[|bs| - 1];
      KeptExactly(before, today, b);
      KeepsDeserving(before, last, today);
      assert forall i :: 0 <= i < |before| ==> before[i] == bs[i] && before[..i] == bs[..i];
      assert bs[|before|] == last && bs[..|before|] == before;
    }
  }

  // ---------- selecting again keeps everything ----------

  lemma {:induction false} KeptIsSmaller(bs: seq<Backup>, today: int)
    ensures |Kept(bs, today)| <= |bs|
    ensures DaysSeen(Kept(bs, today), today) <= DaysSeen(bs, today)
    ensures WeeksSeen(Kept(bs, today), today) <= WeeksSeen(bs, today)
  {
    if bs != [] {
      var before, last := bs[..|bs| - 1], bs[|bs| - 1];
      KeptIsSmaller(before, today);
      if Keeps(before, last, today) {
        OneMore(Kept(before, today), last, today);
      } else {
        assert Kept(before, today) + [] == Kept(before, today);
      }
    }
  }

  /** A backup kept after a list is also kept after what that list keeps. */
  lemma KeepsAfterKept(before: seq<Backup>, b: Backup, today: int)
    requires Keeps(before, b, today)
    ensures Keeps(Kept(before, today), b, today)
  {
    hide Kept, DaysSeen, WeeksSeen;
    KeptIsSmaller(before, today);
    Sets.SubsetSize(WeeksSeen(Kept(before, today), today), WeeksSeen(before, today));
  }

  /** Retention is idempotent: selecting from what was kept, at the same time, keeps all of it. */
  lemma {:induction false} KeptTwice(bs: seq<Backup>, today: int)
    ensures Kept(Kept(bs, today), today) == Kept(bs, today)
  {
    if bs != [] {
      var before, last := bs[..|bs| - 1], bs[|bs| - 1];
      KeptTwice(before, today);
      if Keeps(before, last, today) {
        KeepsAfterKept(before, last, today);
        OneMore(Kept(before, today), last, today);
      } else {
        assert Kept(before, today) + [] == Kept(before, today);
      }
    }
  }

  // ---------- what is certain to survive ----------

  ghost predicate NewestFirst(bs: seq<Backup>) {
    forall i, j :: 0 <= i < j < |bs| ==> bs[i].modifiedAt >= bs[j].modifiedAt
  }

  ghost predicate NewestOnDay(bs: seq<Backup>, b: Backup, day: int) {
    b in bs && Day(b.modifiedAt) == day && forall x :: x in bs && Day(x.modifiedAt) == day ==> x.modifiedAt <= b.modifiedAt
  }

  predicate InWeek(b: Backup, today: int, week: int) {
    Weekly(b, today) && Week(Day(b.modifiedAt)) == week
  }

  ghost predicate NewestInWeek(bs: seq<Backup>, b: Backup, today: int, week: int) {
    b in bs && InWeek(b, today, week) && forall x :: x in bs && InWeek(x, today, week) ==> x.modifiedAt <= b.modifiedAt
  }

  /** The first four weeks that the list mentions, newest first. */
  function FirstWeeks(bs: seq<Backup>, today: int): set<int> {
    if bs == [] then {}
    else
      var (before, last) := (bs[..|bs| - 1], bs[|bs| - 1]);
      FirstWeeks(before, today)
      + if Weekly(last, today) && |WeeksSeen(before, today)| < WEEKS then {Week(Day(last.modifiedAt))} else {}
  }

  /** The newest backup of each of the last seven days is kept. */
  lemma {:induction false} NewestOfDayKept(bs: seq<Backup>, today: int, day: int)
    requires NewestFirst(bs) && day in DaysSeen(bs, today)
    ensures exists b :: b in Kept(bs, today) && NewestOnDay(bs, b, day)
  {
    var before, last := bs[..|bs| - 1], bs[|bs| - 1];
    if day in DaysSeen(before, today) {
      NewestOfDayKept(before, today, day);
      var b :| b in Kept(before, today) && NewestOnDay(before, b, day);
      assert last.modifiedAt <= b.modifiedAt;
      assert NewestOnDay(bs, b, day);
    } else {
      DayNotSeen(before, today, day);
      assert Keeps(before, last, today);
      assert forall x :: x in bs ==> x in before || x == last;
      assert NewestOnDay(bs, last, day);
    }
  }

  lemma {:induction false} DayNotSeen(bs: seq<Backup>, today: int, day: int)
    requires day !in DaysSeen(bs, today) && 0 <= today - day < 7
    ensures forall x :: x in bs ==> Day(x.modifiedAt) != day
  {
    if bs != [] {
      DayNotSeen(bs[..|bs| - 1], today, day);
      assert forall x :: x in bs ==> x in bs[..|bs| - 1] || x == bs[|bs| - 1];
    }
  }

  /** The newest backup of each of the first four weeks of the monthly range is kept. */
  lemma {:induction false} NewestOfWeekKept(bs: seq<Backup>, today: int, week: int)
    requires NewestFirst(bs) && week in FirstWeeks(bs, today)
    ensures exists b :: b in Kept(bs, today) && NewestInWeek(bs, b, today, week)
  {
    var before, last := bs[..|bs| - 1], bs[|bs| - 1];
    if week in FirstWeeks(before, today) {
      NewestOfWeekKept(before, today, week);
      var b :| b in Kept(before, today) && NewestInWeek(before, b, today, week);
      assert last.modifiedAt <= b.modifiedAt;
      assert NewestInWeek(bs, b, today, week);
    } else {
      FirstWeeksSeen(before, today);
      WeekNotSeen(before, today, week);
      assert Keeps(before, last, today);
      assert forall x :: x in bs ==> x in before || x == last;
      assert NewestInWeek(bs, last, today, week);
    }
  }

  /** While fewer than four weeks were seen, the first four are all of them. */
  lemma {:induction false} FirstWeeksSeen(bs: seq<Backup>, today: int)
    ensures |WeeksSeen(bs, today)| <= WEEKS ==> FirstWeeks(bs, today) == WeeksSeen(bs, today)
  {
    if bs != [] {
      FirstWeeksSeen(bs[..|bs| - 1], today);
      Sets.SubsetSize(WeeksSeen(bs[..|bs| - 1], today), WeeksSeen(bs, today));
    }
  }

  lemma {:induction false} WeekNotSeen(bs: seq<Backup>, today: int, week: int)
    requires week !in WeeksSeen(bs, today)
    ensures forall x :: x in bs ==> !InWeek(x, today, week)
  {
    if bs != [] {
      WeekNotSeen(bs[..|bs| - 1], today, week);
      assert forall x :: x in bs ==> x in bs[..|bs| - 1] || x == bs[|bs| - 1];
    }
  }

  // ---------- how many survive ----------

  function CountPast(bs: seq<Backup>, today: int): nat {
    if bs == [] then 0
    else CountPast(bs[..|bs| - 1], today) + if Age(bs[|bs| - 1], today) >= 0 then 1 else 0
  }

  /** Kept only for being among the newest three. */
  function NewestOnly(bs: seq<Backup>, today: int): nat {
    if bs == [] then 0
    else
      var (before, last) := (bs[..|bs| - 1], bs[|bs| - 1]);
      NewestOnly(before, today)
      + if |before| < NEWEST && Age(last, today) >= 0 && !FirstOfDay(before, last, today) && !FirstOfWeek(before, last, today)
        then 1 else 0
  }

  /** What the kept backups that are not dated in the future are kept for. */
  function Reasons(bs: seq<Backup>, today: int): nat {
    NewestOnly(bs, today) + |DaysSeen(bs, today)| + if |WeeksSeen(bs, today)| < WEEKS then |WeeksSeen(bs, today)| else WEEKS
  }

  lemma NewestOnlyGrows(before: seq<Backup>, b: Backup, today: int)
    ensures NewestOnly(before + [b], today) == NewestOnly(before, today)
              + if |before| < NEWEST && Age(b, today) >= 0 && !FirstOfDay(before, b, today) && !FirstOfWeek(before, b, today)
                then 1 else 0
  {
    assert (before + [b])[..|before|] == before;
  }

  /** Each kept one adds a reason. */
  lemma ReasonsGrow(before: seq<Backup>, b: Backup, today: int)
    ensures Reasons(before + [b], today) >= Reasons(before, today)
              + if Keeps(before, b, today) && Age(b, today) >= 0 then 1 else 0
  {
    hide Kept, DaysSeen, WeeksSeen, Paths, NewestOnly, Age, Daily, Weekly;
    OneMoreExactly(before, b, today);
    NewestOnlyGrows(before, b, today);
    Sets.SubsetSize(WeeksSeen(before, today), WeeksSeen(before + [b], today));
    Sets.SubsetSize(DaysSeen(before, today), DaysSeen(before + [b], today));
  }

  lemma CountGrows(kept: seq<Backup>, b: Backup, today: int)
    ensures CountPast(kept + [b], today) == CountPast(kept, today) + if Age(b, today) >= 0 then 1 else 0
  {
    assert (kept + [b])[..|kept|] == kept;
  }

  lemma CountOfKept(before: seq<Backup>, b: Backup, today: int)
    ensures CountPast(Kept(before + [b], today), today)
              == CountPast(Kept(before, today), today) + if Keeps(before, b, today) && Age(b, today) >= 0 then 1 else 0
  {
    hide CountPast, Keeps, Age;
    CountGrows(Kept(before, today), b, today);
    assert (before + [b])[..|before|] == before && Kept(before, today) + [] == Kept(before, today);
  }

  lemma {:induction false} KeptCount(bs: seq<Backup>, today: int)
    ensures CountPast(Kept(bs, today), today) <= Reasons(bs, today)
  {
    if bs == [] {
      NothingAtAll(today);
    } else {
      hide Reasons, CountPast, Keeps, Age, Kept;
      var (before, last) := (bs[..|bs| - 1], bs[|bs| - 1]);
      KeptCount(before, today);
      ReasonsGrow(before, last, today);
      CountOfKept(before, last, today);
      assert bs == before + [last];
    }
  }

  lemma {:induction false} NewestOnlyAtMost(bs: seq<Backup>, today: int)
    requires NewestFirst(bs)
    ensures NewestOnly(bs, today) <= NEWEST && NewestOnly(bs, today) <= |bs|
    ensures bs != [] && Age(bs[0], today) < 35 ==> NewestOnly(bs, today) < NEWEST && NewestOnly(bs, today) < |bs|
    ensures bs != [] && Age(bs[0], today) >= 35 ==> DaysSeen(bs, today) == {} && WeeksSeen(bs, today) == {}
  {
    if bs != [] {
      var before, last := bs[..|bs| - 1], bs[|bs| - 1];
      NewestOnlyAtMost(before, today);
      if before != [] {
        assert before[0] == bs[0];
        assert bs[0].modifiedAt >= last.modifiedAt;
        DayMonotone(last.modifiedAt, bs[0].modifiedAt);
      }
      NewestOnlyStops(bs, today);
    }
  }

  lemma DayMonotone(a: int, b: int)
    requires a <= b
    ensures Day(a) <= Day(b)
  {}

  lemma {:induction false} NewestOnlyStops(bs: seq<Backup>, today: int)
    ensures |bs| > NEWEST ==> NewestOnly(bs, today) == NewestOnly(bs[..NEWEST], today)
  {
    if |bs| > NEWEST {
      NewestOnlyStops(bs[..|bs| - 1], today);
      assert bs[..|bs| - 1][..NEWEST] == bs[..NEWEST];
      if |bs| == NEWEST + 1 { assert bs[..|bs| - 1] == bs[..NEWEST]; }
    }
  }

  lemma {:induction false} SevenDays(bs: seq<Backup>, today: int)
    ensures DaysSeen(bs, today) <= {today, today - 1, today - 2, today - 3, today - 4, today - 5, today - 6}
  {
    if bs != [] { SevenDays(bs[..|bs| - 1], today); }
  }

  /** However many backups exist, at most thirteen that are not dated in the future survive. */
  lemma AtMostThirteenSurvive(bs: seq<Backup>, today: int)
    requires NewestFirst(bs)
    ensures CountPast(Kept(bs, today), today) <= 13
  {
    hide Kept, DaysSeen, WeeksSeen, NewestOnly, CountPast;
    KeptCount(bs, today);
    NewestOnlyAtMost(bs, today);
    SevenDays(bs, today);
    Sets.SubsetSize(DaysSeen(bs, today), {today, today - 1, today - 2, today - 3, today - 4, today - 5, today - 6});
    if bs == [] { NothingAtAll(today); }
  }

  lemma NothingAtAll(today: int)
    ensures CountPast(Kept([], today), today) == 0
  {}
}
