/**
 * The member dashboard: the workout streak, the week's and the last 30
 * days' workout counts, recent activity, upcoming classes, achievements,
 * the community summary and social totals, and the forms that log a
 * workout, a progress photo or a goal.
 */
module Dashboard {
  import opened Wrappers
  import opened Strings
  import opened Seqs
  import opened Calendar
  import opened Storage
  import Toast
  import Community

  function WorkoutDate(w: Workout): int {
    w.date
  }

  /**
   * The streak counted from `current` down a newest-first list: each
   * workout no more than one whole day before the previous counted date
   * (or after it) adds one and becomes the new reference.
   */
  function StreakFrom(ws: seq<Workout>, current: int): (n: nat)
    ensures n <= |ws|
  {
    if ws == [] then 0
    else if (current - ws[0].date) / DayMs <= 1 then 1 + StreakFrom(ws[1..], ws[0].date)
    else 0
  }

  /** The engine's `sort` with the newest-first comparator, applied to the caller's array. */
  method SortNewestFirst(a: array<Workout>)
    modifies a
    ensures a[..] == SortByKeyDesc(old(a[..]), WorkoutDate)
  {
    var sorted := SortByKeyDesc(a[..], WorkoutDate);
    var i := 0;
    while i < a.Length
      invariant 0 <= i <= a.Length
      invariant forall k :: 0 <= k < i ==> a[k] == sorted[k]
    {
      a[i] := sorted[i];
      i := i + 1;
    }
  }

  /**
   * `calculateCurrentStreak`: sorts the caller's array newest first, then
   * counts workouts from now while each lies within one day of the last
   * one counted.
   */
  method CalculateCurrentStreak(workouts: array<Workout>, now: int) returns (streak: nat)
    modifies workouts
    ensures workouts.Length == 0 ==> streak == 0
    ensures workouts[..] == SortByKeyDesc(old(workouts[..]), WorkoutDate)
    ensures streak == StreakFrom(workouts[..], now) && streak <= workouts.Length
  {
    if workouts.Length == 0 {
      return 0;
    }
    SortNewestFirst(workouts);
    var current := now;
    streak := 0;
    var i := 0;
    while i < workouts.Length
      invariant 0 <= i <= workouts.Length
      invariant streak == i
      invariant StreakFrom(workouts[..], now) == i + StreakFrom(workouts[i..], current)
    {
      var w := workouts[i];
      var daysDiff := (current - w.date) / DayMs;
      assert workouts[i..][1..] == workouts[i + 1..];
      if daysDiff <= 1 {
        streak := streak + 1;
        current := w.date;
      } else {
        break;
      }
      i := i + 1;
    }
    if i == workouts.Length {
      assert workouts[i..] == [];
    }
  }

  /** The streak over the stored workouts, as the achievements read it. */
  function CurrentStreak(ws: seq<Workout>, now: int): (n: nat)
    ensures n <= |ws|
  {
    StreakFrom(SortByKeyDesc(ws, WorkoutDate), now)
  }

  /** The streak counts workouts, not days: three workouts logged today make a streak of three. */
  lemma SameDayWorkoutsEachCount(w: Workout, now: int)
    requires w.date == now
    ensures StreakFrom([w, w, w], now) == 3
  {
    assert [w][1..] == [];
    assert StreakFrom([w], now) == 1;
    assert [w, w][1..] == [w];
    assert StreakFrom([w, w], now) == 2;
    assert [w, w, w][1..] == [w, w];
  }

  /** A workout dated after the reference still counts, since the day difference is negative. */
  lemma FutureWorkoutCounts(w: Workout, now: int)
    requires w.date > now
    ensures StreakFrom([w], now) == 1
  {
    assert [w][1..] == [];
  }

  /** A gap of two whole days ends the streak. */
  lemma GapEndsStreak(ws: seq<Workout>, current: int)
    requires ws != [] && ws[0].date <= current - 2 * DayMs
    ensures StreakFrom(ws, current) == 0
  {
  }

  /** Instant at which the local week holding `now` begins: Sunday 00:00. */
  function StartOfWeek(now: int, offset: int): (r: int)
    ensures r <= now < r + 7 * DayMs
    ensures Weekday(LocalDay(r, offset)) == 0
  {
    var today := LocalDay(now, offset);
    WeekStartBounds(now, offset);
    LocalMidnight(today - Weekday(today), offset)
  }

  /** The last Sunday midnight, at most seven days before now. */
  lemma WeekStartBounds(now: int, offset: int)
    ensures var today := LocalDay(now, offset);
            var start := LocalMidnight(today - Weekday(today), offset);
            start <= now < start + 7 * DayMs && Weekday(LocalDay(start, offset)) == 0
  {
    var today := LocalDay(now, offset);
    var first := today - Weekday(today);
    MidnightBounds(now, offset);
    assert LocalDay(LocalMidnight(first, offset), offset) == first;
    assert (first + 4) % 7 == 0 by {
      assert first + 4 == (today + 4) - (today + 4) % 7;
    }
  }

  predicate DatedFrom(w: Workout, start: int) {
    w.date >= start
  }

  /** `calculateWorkoutsThisWeek`: workouts dated at or after the start of this week. */
  function WorkoutsThisWeek(ws: seq<Workout>, now: int, offset: int): (n: nat)
    ensures n <= |ws|
  {
    var start := StartOfWeek(now, offset);
    |Filter(ws, (w: Workout) => DatedFrom(w, start))|
  }

  /** Logging a workout now adds exactly one to this week's count. */
  lemma LoggedWorkoutCountsThisWeek(ws: seq<Workout>, w: Workout, now: int, offset: int)
    requires w.date == now
    ensures WorkoutsThisWeek(ws + [w], now, offset) == WorkoutsThisWeek(ws, now, offset) + 1
  {
    var start := StartOfWeek(now, offset);
    FilterAppend(ws, [w], (x: Workout) => DatedFrom(x, start));
    assert [w][1..] == [];
  }

  const TargetWorkouts: int := 12

  /** `calculateConsistencyProgress`: workouts of the last 30 days against 12, capped at 100. */
  function ConsistencyProgress(ws: seq<Workout>, now: int): (r: real)
    ensures 0.0 <= r <= 100.0
    ensures ws == [] ==> r == 0.0
  {
    if ws == [] then 0.0
    else
      var since := now - 30 * DayMs;
      var actual := |Filter(ws, (w: Workout) => DatedFrom(w, since))|;
      var progress := (actual as real / TargetWorkouts as real) * 100.0;
      if progress < 100.0 then progress else 100.0
  }

  /** The bar is full exactly when at least 12 workouts fall in the last 30 days. */
  lemma ConsistencyFull(ws: seq<Workout>, now: int)
    requires ws != []
    ensures ConsistencyProgress(ws, now) == 100.0 <==>
            |Filter(ws, (w: Workout) => DatedFrom(w, now - 30 * DayMs))| >= TargetWorkouts
  {
  }

  /** Which achievements are unlocked. */
  datatype Achievements = Achievements(firstWorkout: bool, fiveClasses: bool, tenWorkouts: bool, thirtyStreak: bool)

  /** `loadAchievements`: the four unlock thresholds. */
  function AchievementsOf(ws: seq<Workout>, bs: seq<Booking>, now: int): (r: Achievements)
    ensures r.tenWorkouts ==> r.firstWorkout
    ensures r.thirtyStreak ==> r.tenWorkouts
  {
    Achievements(|ws| >= 1, |bs| >= 5, |ws| >= 10, CurrentStreak(ws, now) >= 30)
  }

  /** A 30-day streak needs 30 workouts, so it comes with the two workout-count achievements. */
  lemma StreakImpliesCounts(ws: seq<Workout>, bs: seq<Booking>, now: int)
    ensures AchievementsOf(ws, bs, now).thirtyStreak ==>
            AchievementsOf(ws, bs, now).tenWorkouts && AchievementsOf(ws, bs, now).firstWorkout
  {
  }

  /** More workouts and more bookings never lock a count achievement again. */
  lemma CountAchievementsMonotone(ws: seq<Workout>, bs: seq<Booking>, ws': seq<Workout>, bs': seq<Booking>, now: int)
    requires |ws| <= |ws'| && |bs| <= |bs'|
    ensures var a := AchievementsOf(ws, bs, now);
            var b := AchievementsOf(ws', bs', now);
            (a.firstWorkout ==> b.firstWorkout) && (a.fiveClasses ==> b.fiveClasses) &&
            (a.tenWorkouts ==> b.tenWorkouts)
  {
  }

  /** The text of `showAchievementDetails`. */
  function AchievementDetail(id: string): (text: string)
    ensures text != ""
  {
    if id == "first-workout" then "Complete your first workout to unlock this achievement!"
    else if id == "five-classes" then "Book and attend 5 classes to unlock this achievement!"
    else if id == "ten-workouts" then "Complete 10 workouts to unlock this achievement!"
    else if id == "thirty-streak" then "Maintain a 30-day workout streak to unlock this achievement!"
    else "Achievement details not found."
  }

  /** A click on an achievement: an info toast with its details. */
  method ShowAchievementDetails(toasts: Toast.ToastNotification, id: string) returns (t: nat)
    requires toasts.Valid()
    modifies toasts`toasts, toasts`container, toasts`timers
    ensures toasts.Valid()
    ensures toasts.toasts == old(toasts.toasts) + [Toast.Toast(Toast.Info, "Achievement Details",
                                                               AchievementDetail(id), 5000, toasts.now, false, false)]
    ensures toasts.State() == Toast.WithToast(old(toasts.State()), Toast.Info, "Achievement Details",
                                              AchievementDetail(id), 5000)
  {
    t := toasts.ShowKind(Toast.Info, "Achievement Details", AchievementDetail(id), None);
  }

  /** An entry of the recent activity list. */
  datatype Activity = Activity(kind: string, title: string, description: string, date: int, icon: string)

  function ActivityDate(a: Activity): int {
    a.date
  }

  /** `getWorkoutIcon`: the icon of a known workout type, the runner otherwise. */
  function WorkoutIcon(kind: string): (icon: string)
    ensures kind !in {"cardio", "strength", "yoga", "boxing", "pilates"} ==> icon == "fas fa-running"
  {
    if kind == "cardio" then "fas fa-heartbeat"
    else if kind == "strength" then "fas fa-dumbbell"
    else if kind == "yoga" then "fas fa-leaf"
    else if kind == "boxing" then "fas fa-fist-raised"
    else if kind == "pilates" then "fas fa-spa"
    else "fas fa-running"
  }

  function WorkoutActivity(w: Workout): Activity {
    Activity("workout", w.kind + " Workout",
             Community.DurationText(w.duration) + " minutes - " + w.intensity + " intensity",
             w.date, WorkoutIcon(w.kind))
  }

  function BookingActivity(b: Booking): Activity {
    Activity("booking", "Booked " + b.className, b.day + " at " + b.time, b.bookingDate, "fas fa-calendar-check")
  }

  /** Every workout, then every booking, as activities. */
  function Activities(ws: seq<Workout>, bs: seq<Booking>): (r: seq<Activity>)
    ensures |r| == |ws| + |bs|
  {
    seq(|ws|, i requires 0 <= i < |ws| => WorkoutActivity(ws[i]))
    + seq(|bs|, i requires 0 <= i < |bs| => BookingActivity(bs[i]))
  }

  /** `loadRecentActivity`: all activities newest first, at most five. */
  function RecentActivity(ws: seq<Workout>, bs: seq<Booking>): (r: seq<Activity>)
    ensures |r| <= 5 && |r| == if |ws| + |bs| < 5 then |ws| + |bs| else 5
    ensures forall i, j :: 0 <= i < j < |r| ==> r[i].date >= r[j].date
    ensures forall i :: 0 <= i < |r| ==> r[i] in Activities(ws, bs)
    ensures multiset(r) <= multiset(Activities(ws, bs))
  {
    SortedPrefixMembers(Activities(ws, bs), ActivityDate, 5);
    Take(SortByKeyDesc(Activities(ws, bs), ActivityDate), 5)
  }

  /** Nothing left out of the recent activity list is newer than what it shows. */
  lemma RecentIsNewest(ws: seq<Workout>, bs: seq<Booking>, x: Activity)
    requires x in Activities(ws, bs)
    ensures var r := RecentActivity(ws, bs);
            x in r || forall i :: 0 <= i < |r| ==> r[i].date >= x.date
  {
    var s := SortByKeyDesc(Activities(ws, bs), ActivityDate);
    var r := RecentActivity(ws, bs);
    assert x in multiset(Activities(ws, bs));
    assert x in multiset(s);
    var j :| 0 <= j < |s| && s[j] == x;
    if j < 5 {
      assert r[j] == x;
    } else {
      forall i | 0 <= i < |r| ensures r[i].date >= x.date {
        assert r[i] == s[i];
        assert ActivityDate(s[i]) >= ActivityDate(s[j]);
      }
    }
  }

  /** `loadUpcomingClasses`: the first three bookings as stored. */
  function UpcomingClasses(bs: seq<Booking>): (r: seq<Booking>)
    ensures |r| <= 3 && |r| <= |bs| && r == bs[..|r|]
    ensures |r| == if |bs| < 3 then |bs| else 3
  {
    Take(bs, 3)
  }

  function PostTime(p: Post): int {
    p.timestamp
  }

  /** A post by the member or by someone with a friend's name. */
  predicate FromCircle(p: Post, friends: seq<Friend>) {
    p.userId == Community.CurrentUser || exists i :: 0 <= i < |friends| && friends[i].name == p.userName
  }

  /** `loadCommunityActivity`: the three newest posts by the member and friends. */
  function CommunityActivity(posts: seq<Post>, friends: seq<Friend>): (r: seq<Post>)
    ensures |r| <= 3
    ensures forall i, j :: 0 <= i < j < |r| ==> r[i].timestamp >= r[j].timestamp
    ensures multiset(r) <= multiset(Filter(posts, (p: Post) => FromCircle(p, friends)))
  {
    Take(SortByKeyDesc(Filter(posts, (p: Post) => FromCircle(p, friends)), PostTime), 3)
  }

  /** Every post shown is one of the stored posts, by the member or a friend. */
  lemma CommunityActivityFromCircle(posts: seq<Post>, friends: seq<Friend>, i: nat)
    requires i < |CommunityActivity(posts, friends)|
    ensures CommunityActivity(posts, friends)[i] in posts
    ensures FromCircle(CommunityActivity(posts, friends)[i], friends)
  {
    var circle := Filter(posts, (p: Post) => FromCircle(p, friends));
    var sorted := SortByKeyDesc(circle, PostTime);
    var x := CommunityActivity(posts, friends)[i];
    assert x == sorted[i];
    SortKeepsMembers(circle, PostTime, x);
    var k :| 0 <= k < |circle| && circle[k] == x;
  }

  /** A post by the member or a friend among the stored ones is shown unless three newer ones are. */
  lemma CircleShownUnlessOutdated(posts: seq<Post>, friends: seq<Friend>, p: Post)
    requires p in posts && FromCircle(p, friends)
    ensures var r := CommunityActivity(posts, friends);
            p in r || (|r| == 3 && forall i :: 0 <= i < 3 ==> r[i].timestamp >= p.timestamp)
  {
    var circle := Filter(posts, (q: Post) => FromCircle(q, friends));
    var sorted := SortByKeyDesc(circle, PostTime);
    var r := CommunityActivity(posts, friends);
    var k :| 0 <= k < |posts| && posts[k] == p;
    assert p in circle;
    SortKeepsMembers(circle, PostTime, p);
    var j :| 0 <= j < |sorted| && sorted[j] == p;
    if j < 3 {
      assert r[j] == p;
    } else {
      forall i | 0 <= i < 3 ensures r[i].timestamp >= p.timestamp {
        assert r[i] == sorted[i];
        assert PostTime(sorted[i]) >= PostTime(sorted[j]);
      }
    }
  }

  /** The preview of a post: up to 50 characters, with '...' when cut. */
  function Preview(content: string): (r: string)
    ensures |content| <= 50 ==> r == content
    ensures |content| > 50 ==> |r| == 53 && r[..50] == content[..50] && r[50..] == "..."
  {
    if |content| > 50 then content[..50] + "..." else content
  }

  predicate IsOwn(p: Post) {
    p.userId == Community.CurrentUser
  }

  function PostLikes(p: Post): int {
    p.likes
  }

  function PostComments(p: Post): int {
    p.comments
  }

  /** The three social totals. */
  datatype SocialStats = SocialStats(likes: int, comments: int, friends: nat)

  /** `loadSocialStats`: likes and comments over the member's own posts, and the number of friends. */
  function SocialStatsOf(posts: seq<Post>, friends: seq<Friend>): (r: SocialStats)
    ensures r.friends == |friends|
  {
    var own := Filter(posts, IsOwn);
    SocialStats(Sum(own, PostLikes), Sum(own, PostComments), |friends|)
  }

  /** A fresh post (no likes, no comments) leaves the totals as they were. */
  lemma NewPostKeepsTotals(p: Post, posts: seq<Post>, friends: seq<Friend>)
    requires p.likes == 0 && p.comments == 0
    ensures SocialStatsOf([p] + posts, friends) == SocialStatsOf(posts, friends)
  {
    var own, head := Filter(posts, IsOwn), Filter([p], IsOwn);
    var all := Filter([p] + posts, IsOwn);
    assert all == head + own by {
      FilterAppend([p], posts, IsOwn);
    }
    assert Sum(head, PostLikes) == 0 && Sum(head, PostComments) == 0 by {
      FilterOfOne(p, IsOwn);
      assert [p][1..] == [];
    }
    assert Sum(all, PostLikes) == Sum(own, PostLikes) by {
      SumAppend(head, own, PostLikes);
    }
    assert Sum(all, PostComments) == Sum(own, PostComments) by {
      SumAppend(head, own, PostComments);
    }
  }

  /** Only the member's own posts count: posts by others never change the totals. */
  lemma OthersPostsIgnored(posts: seq<Post>, others: seq<Post>, friends: seq<Friend>)
    requires forall p :: p in others ==> !IsOwn(p)
    ensures SocialStatsOf(others + posts, friends) == SocialStatsOf(posts, friends)
  {
    FilterAppend(others, posts, IsOwn);
    FilterKeepsNone(others, IsOwn);
    assert Filter(others, IsOwn) + Filter(posts, IsOwn) == Filter(posts, IsOwn);
  }

  /** `logWorkout`: one workout appended, its duration read with `parseInt`. */
  method LogWorkout(storage: LocalStorage, kind: string, duration: string, intensity: string, notes: string, now: int)
    modifies storage`workouts
    ensures storage.workouts == old(storage.workouts) + [Workout(now, kind, ParseInt(duration), intensity, notes, now)]
  {
    var workout := Workout(now, kind, ParseInt(duration), intensity, notes, now);
    storage.workouts := storage.workouts + [workout];
  }

  /** `parseFloat(weight) || null`: a weight of 0 is stored as missing, like one that did not parse. */
  function StoredWeight(parsed: Option<real>): (w: Option<real>)
    ensures w.Some? ==> w.value != 0.0
    ensures parsed.Some? && parsed.value != 0.0 ==> w == parsed
  {
    if parsed.Some? && parsed.value != 0.0 then parsed else None
  }

  /** `saveProgressPhoto`: one photo appended; `weight` is what `parseFloat` read (`None` for NaN). */
  method SaveProgressPhoto(storage: LocalStorage, kind: string, weight: Option<real>, notes: string, now: int)
    modifies storage`photos
    ensures storage.photos == old(storage.photos) + [Photo(now, kind, StoredWeight(weight), notes, now)]
  {
    storage.photos := storage.photos + [Photo(now, kind, StoredWeight(weight), notes, now)];
  }

  /** `setGoal`: one goal appended; a target or current value that did not parse is stored as `null`. */
  method SetGoal(storage: LocalStorage, kind: string, target: Option<real>, current: Option<real>, targetDate: string,
                 description: string, now: int)
    modifies storage`goals
    ensures storage.goals == old(storage.goals) + [Goal(now, kind, target, current, targetDate, description, now)]
  {
    storage.goals := storage.goals + [Goal(now, kind, target, current, targetDate, description, now)];
  }
}
