/**
 * The community page: posting, sharing a photo or a workout, liking,
 * answering friend requests, searching workout buddies, the relative
 * time shown on a post and the challenge join button.
 */
module Community {
  import opened Wrappers
  import opened Strings
  import opened Seqs
  import opened Calendar
  import opened Dom
  import opened Storage
  import Toast

  const CurrentUser: string := "current_user"
  const OwnAvatar: string := "./images/trainer1.jpg"

  /** A new post by the signed-in member: no likes, no comments, not liked. */
  function NewPost(userName: string, now: int, content: string, attachment: Attachment): (p: Post)
    ensures p.userId == CurrentUser && p.userName == userName && p.content == content
    ensures p.likes == 0 && p.comments == 0 && !p.liked && p.id == now && p.timestamp == now
  {
    Post(now, CurrentUser, userName, OwnAvatar, content, attachment, 0, 0, now, false)
  }

  /**
   * `createPost`: text that is blank once trimmed is refused with a
   * warning; otherwise the trimmed text is posted at the head of the feed.
   */
  method CreatePost(storage: LocalStorage, toasts: Toast.ToastNotification, input: string, now: int)
    returns (posted: bool)
    requires toasts.Valid()
    modifies storage`posts, toasts`toasts, toasts`container, toasts`timers
    ensures toasts.Valid()
    ensures posted <==> !Blank(input)
    ensures !posted ==>
              toasts.State() == Toast.WithToast(old(toasts.State()), Toast.Warning, "Content Required",
                                                "Please enter some content for your post.", 6000)
    ensures posted ==> toasts.State() == old(toasts.State())
    ensures !posted ==>
              storage.posts == old(storage.posts) &&
              toasts.toasts == old(toasts.toasts) + [Toast.Toast(Toast.Warning, "Content Required",
                                                                 "Please enter some content for your post.", 6000,
                                                                 toasts.now, false, false)]
    ensures posted ==>
              storage.posts == [NewPost(storage.MemberName(), now, Trim(input), Text)] + old(storage.posts) &&
              toasts.toasts == old(toasts.toasts)
  {
    var content := Trim(input);
    posted := content != "";
    assert posted <==> !Blank(input) by { TrimEmptyIffBlank(input); }
    if posted {
      var post := NewPost(storage.MemberName(), now, content, Text);
      storage.posts := [post] + storage.posts;
    } else {
      WarnContentRequired(toasts);
    }
  }

  /** The warning `createPost` shows for blank content. */
  method WarnContentRequired(toasts: Toast.ToastNotification)
    requires toasts.Valid()
    modifies toasts`toasts, toasts`container, toasts`timers
    ensures toasts.Valid()
    ensures toasts.toasts == old(toasts.toasts) + [Toast.Toast(Toast.Warning, "Content Required",
                                                               "Please enter some content for your post.", 6000,
                                                               toasts.now, false, false)]
    ensures toasts.State() == Toast.WithToast(old(toasts.State()), Toast.Warning, "Content Required",
                                              "Please enter some content for your post.", 6000)
  {
    var _ := toasts.ShowKind(Toast.Warning, "Content Required", "Please enter some content for your post.", None);
  }

  /** `caption || 'Shared a progress photo!'` of the trimmed caption. */
  function PhotoCaption(caption: string): (c: string)
    ensures c != ""
  {
    var t := Trim(caption);
    if t == "" then "Shared a progress photo!" else t
  }

  /** A caption with any visible character is posted trimmed; a blank one gets the stock text. */
  lemma PhotoCaptionChoice(caption: string)
    ensures !Blank(caption) ==> PhotoCaption(caption) == Trim(caption)
    ensures Blank(caption) ==> PhotoCaption(caption) == "Shared a progress photo!"
  {
    TrimEmptyIffBlank(caption);
  }

  /** `sharePhoto`: always posts, with the caption or a stock one, and the privacy chosen. */
  method SharePhoto(storage: LocalStorage, caption: string, privacy: string, now: int)
    modifies storage`posts
    ensures storage.posts == [NewPost(storage.MemberName(), now, PhotoCaption(caption), PhotoShare(OwnAvatar, privacy))]
                             + old(storage.posts)
  {
    var content := PhotoCaption(caption);
    var post := NewPost(storage.MemberName(), now, content, PhotoShare(OwnAvatar, privacy));
    storage.posts := [post] + storage.posts;
  }

  /** The first workout whose id equals the selected option's value under `==`. */
  function FindWorkout(workouts: seq<Workout>, selected: string): (r: Option<Workout>)
    ensures r.Some? ==> r.value in workouts && IntegerText(selected) == Some(r.value.id)
    ensures r.None? ==> forall w :: w in workouts ==> IntegerText(selected) != Some(w.id)
  {
    if workouts == [] then None
    else if IntegerText(selected) == Some(workouts[0].id) then Some(workouts[0])
    else FindWorkout(workouts[1..], selected)
  }

  /** The duration as the template prints it: a duration that did not parse was stored as `null`. */
  function DurationText(duration: Option<int>): string {
    match duration
    case None => "null"
    case Some(d) => IntToString(d)
  }

  /** `message || \`Just completed a ${type} workout for ${duration} minutes!\``. */
  function WorkoutMessage(message: string, w: Workout): (r: string)
    ensures r != []
    ensures !Blank(message) ==> r == Trim(message)
  {
    TrimEmptyIffBlank(message);
    var t := Trim(message);
    if t != "" then t
    else "Just completed a " + w.kind + " workout for " + DurationText(w.duration) + " minutes!"
  }

  /**
   * `shareWorkout`: no selection gives a warning; a selection matching a
   * stored workout is posted with that workout attached; a selection
   * matching none does nothing.
   */
  method ShareWorkout(storage: LocalStorage, toasts: Toast.ToastNotification, selected: string, message: string,
                      privacy: string, now: int)
    requires toasts.Valid()
    modifies storage`posts, toasts`toasts, toasts`container, toasts`timers
    ensures toasts.Valid()
    ensures selected == "" ==>
              storage.posts == old(storage.posts) &&
              toasts.toasts == old(toasts.toasts) + [Toast.Toast(Toast.Warning, "Workout Required",
                                                                 "Please select a workout to share.", 6000,
                                                                 toasts.now, false, false)]
    ensures selected != "" ==> toasts.toasts == old(toasts.toasts)
    ensures selected == "" ==>
              toasts.State() == Toast.WithToast(old(toasts.State()), Toast.Warning, "Workout Required",
                                                "Please select a workout to share.", 6000)
    ensures selected != "" ==> toasts.State() == old(toasts.State())
    ensures selected != "" && FindWorkout(storage.workouts, selected).None? ==> storage.posts == old(storage.posts)
    ensures selected != "" && FindWorkout(storage.workouts, selected).Some? ==>
              var w := FindWorkout(storage.workouts, selected).value;
              storage.posts == [NewPost(storage.MemberName(), now, WorkoutMessage(message, w), WorkoutShare(w, privacy))]
                               + old(storage.posts)
  {
    if selected == "" {
      var _ := toasts.ShowKind(Toast.Warning, "Workout Required", "Please select a workout to share.", None);
      return;
    }
    var workout := FindWorkout(storage.workouts, selected);
    if workout.Some? {
      var post := NewPost(storage.MemberName(), now, WorkoutMessage(message, workout.value), WorkoutShare(workout.value, privacy));
      storage.posts := [post] + storage.posts;
    }
  }

  /** Every workout offered in the picker can be found again from its option's value. */
  lemma OfferedWorkoutIsFound(workouts: seq<Workout>, k: nat)
    requires k < |workouts|
    requires forall j :: 0 <= j < k ==> workouts[j].id != workouts[k].id
    ensures FindWorkout(workouts, IntToString(workouts[k].id)) == Some(workouts[k])
  {
    IntegerTextOfPrinted(workouts[k].id);
    FindWorkoutAt(workouts, IntToString(workouts[k].id), k);
  }

  lemma {:induction false} FindWorkoutAt(workouts: seq<Workout>, selected: string, k: nat)
    requires k < |workouts| && IntegerText(selected) == Some(workouts[k].id)
    requires forall j :: 0 <= j < k ==> workouts[j].id != workouts[k].id
    ensures FindWorkout(workouts, selected) == Some(workouts[k])
    decreases k
  {
    if k > 0 {
      FindWorkoutAt(workouts[1..], selected, k - 1);
    }
  }

  /** A blank selection that is not empty still matches a workout with id 0, as `' ' == 0` does. */
  lemma BlankSelectionMatchesZero(w: Workout)
    requires w.id == 0
    ensures FindWorkout([w], " ") == Some(w)
  {
    assert IsSpace(' ');
    assert TrimStart(" ") == "";
  }

  /** The post with its like switched: liking adds one, unliking takes one away. */
  function Toggled(p: Post): (r: Post)
    ensures r.liked == !p.liked
    ensures r.likes == if p.liked then p.likes - 1 else p.likes + 1
    ensures r.(likes := p.likes, liked := p.liked) == p
  {
    if p.liked then p.(likes := p.likes - 1, liked := false)
    else p.(likes := p.likes + 1, liked := true)
  }

  /** `posts.find(p => p.id === postId)`, as an index. */
  function FirstPost(posts: seq<Post>, postId: int): (k: Option<nat>)
    ensures k.Some? ==> k.value < |posts| && posts[k.value].id == postId
    ensures k.Some? ==> forall i :: 0 <= i < k.value ==> posts[i].id != postId
    ensures k.None? ==> forall i :: 0 <= i < |posts| ==> posts[i].id != postId
  {
    if posts == [] then None
    else if posts[0].id == postId then Some(0)
    else match FirstPost(posts[1..], postId)
      case None => None
      case Some(k) => Some(k + 1)
  }

  /** The feed after `toggleLike(postId)`. */
  function LikeToggled(posts: seq<Post>, postId: int): seq<Post> {
    match FirstPost(posts, postId)
    case None => posts
    case Some(k) => posts[k := Toggled(posts[k])]
  }

  /**
   * `toggleLike`: the first post with that id has its like switched and
   * nothing else changes; an unknown id changes nothing.
   */
  method ToggleLike(storage: LocalStorage, postId: int)
    modifies storage`posts
    ensures storage.posts == LikeToggled(old(storage.posts), postId)
    ensures |storage.posts| == |old(storage.posts)|
    ensures forall i :: 0 <= i < |storage.posts| ==>
              storage.posts[i] == if Some(i) == FirstPost(old(storage.posts), postId)
                                  then Toggled(old(storage.posts)[i]) else old(storage.posts)[i]
  {
    var found := FirstPost(storage.posts, postId);
    if found.Some? {
      var k := found.value;
      storage.posts := storage.posts[k := Toggled(storage.posts[k])];
    }
  }

  /** Liking twice gives the feed back exactly as it was. */
  lemma ToggleTwiceRestores(posts: seq<Post>, postId: int)
    ensures LikeToggled(LikeToggled(posts, postId), postId) == posts
  {
    var found := FirstPost(posts, postId);
    if found.Some? {
      var k := found.value;
      var once := posts[k := Toggled(posts[k])];
      assert forall i :: 0 <= i < |once| && i != k ==> once[i] == posts[i];
      assert FirstPost(once, postId) == Some(k) by {
        FirstPostUnique(once, postId, k);
      }
      assert Toggled(Toggled(posts[k])) == posts[k];
      assert once[k := Toggled(once[k])] == posts;
    }
  }

  lemma FirstPostUnique(posts: seq<Post>, postId: int, k: nat)
    requires k < |posts| && posts[k].id == postId
    requires forall i :: 0 <= i < k ==> posts[i].id != postId
    ensures FirstPost(posts, postId) == Some(k)
  {
    var r := FirstPost(posts, postId);
    assert r.Some?;
    if r.value < k {
    } else if r.value > k {
    }
  }

  /** `requests.find(r => r.id === requestId)`. */
  function FindRequest(requests: seq<FriendRequest>, requestId: int): (r: Option<FriendRequest>)
    ensures r.Some? ==> r.value in requests && r.value.id == requestId
    ensures r.None? ==> forall q :: q in requests ==> q.id != requestId
  {
    if requests == [] then None
    else if requests[0].id == requestId then Some(requests[0])
    else FindRequest(requests[1..], requestId)
  }

  /** `find` returns the first request with that id, not merely some request with it. */
  lemma {:induction false} FindRequestFirst(requests: seq<FriendRequest>, requestId: int)
    requires FindRequest(requests, requestId).Some?
    ensures exists k :: 0 <= k < |requests| && FindRequest(requests, requestId).value == requests[k]
                        && forall j :: 0 <= j < k ==> requests[j].id != requestId
  {
    if requests[0].id != requestId {
      var tail := requests[1..];
      FindRequestFirst(tail, requestId);
      var k :| 0 <= k < |tail| && FindRequest(tail, requestId).value == tail[k]
               && forall j :: 0 <= j < k ==> tail[j].id != requestId;
      assert requests[k + 1] == tail[k];
      forall j | 0 <= j < k + 1
        ensures requests[j].id != requestId
      {
        if j > 0 { assert requests[j] == tail[j - 1]; }
      }
    } else {
      assert FindRequest(requests, requestId).value == requests[0];
    }
  }

  /** `requests.filter(r => r.id !== requestId)`. */
  function OtherRequests(requests: seq<FriendRequest>, requestId: int): (r: seq<FriendRequest>)
    ensures forall i :: 0 <= i < |r| ==> r[i].id != requestId
    ensures forall q :: q in requests && q.id != requestId ==> q in r
  {
    Filter(requests, (q: FriendRequest) => q.id != requestId)
  }

  /**
   * `acceptFriendRequest`: the first request with that id becomes a new
   * offline friend and every request with that id goes; an unknown id
   * changes nothing.
   */
  method AcceptFriendRequest(storage: LocalStorage, requestId: int, now: int)
    modifies storage`friends, storage`requests
    ensures FindRequest(old(storage.requests), requestId).None? ==>
              storage.friends == old(storage.friends) && storage.requests == old(storage.requests)
    ensures FindRequest(old(storage.requests), requestId).Some? ==>
              var q := FindRequest(old(storage.requests), requestId).value;
              storage.friends == old(storage.friends) + [Friend(now, q.name, q.avatar, "offline", "Unknown", 0)] &&
              storage.requests == OtherRequests(old(storage.requests), requestId)
  {
    var request := FindRequest(storage.requests, requestId);
    if request.Some? {
      storage.friends := storage.friends + [Friend(now, request.value.name, request.value.avatar, "offline", "Unknown", 0)];
      storage.requests := OtherRequests(storage.requests, requestId);
    }
  }

  /** `declineFriendRequest`: the requests with that id go; the friends stay as they are. */
  method DeclineFriendRequest(storage: LocalStorage, requestId: int)
    modifies storage`requests
    ensures storage.requests == OtherRequests(old(storage.requests), requestId)
  {
    storage.requests := OtherRequests(storage.requests, requestId);
  }

  /** Once a request is answered, no request with its id is left. */
  lemma AnsweredRequestIsGone(requests: seq<FriendRequest>, requestId: int)
    ensures FindRequest(OtherRequests(requests, requestId), requestId).None?
  {
  }

  /** Whether the lower-cased search term `t` occurs in a buddy's lower-cased name, fitness level or one of the goals. */
  predicate BuddyMatches(b: Buddy, t: string) {
    Contains(Lower(b.name), t) || Contains(Lower(b.fitnessLevel), t)
    || exists i :: 0 <= i < |b.goals| && Contains(Lower(b.goals[i]), t)
  }

  /** `filterBuddies(searchTerm)`: the matching buddies, in stored order. */
  function FilterBuddies(buddies: seq<Buddy>, term: string): (r: seq<Buddy>)
    ensures |r| <= |buddies|
    ensures forall i :: 0 <= i < |r| ==> r[i] in buddies && BuddyMatches(r[i], Lower(term))
  {
    Matching(buddies, Lower(term))
  }

  /** The buddies that match a lower-cased term. */
  function Matching(buddies: seq<Buddy>, t: string): seq<Buddy> {
    Filter(buddies, (b: Buddy) => BuddyMatches(b, t))
  }

  /** The buddies kept by a search are exactly the ones that match it, in order. */
  lemma {:induction false} FilterBuddiesKeeps(buddies: seq<Buddy>, term: string)
    ensures forall b :: b in FilterBuddies(buddies, term) <==> b in buddies && BuddyMatches(b, Lower(term))
  {
    var r := FilterBuddies(buddies, term);
    forall b | b in r ensures b in buddies && BuddyMatches(b, Lower(term)) {
      var i :| 0 <= i < |r| && r[i] == b;
    }
    forall b | b in buddies && BuddyMatches(b, Lower(term)) ensures b in r {
      var i :| 0 <= i < |buddies| && buddies[i] == b;
    }
  }

  /** An empty search keeps every buddy. */
  lemma EmptySearchKeepsAll(buddies: seq<Buddy>)
    ensures FilterBuddies(buddies, "") == buddies
  {
    assert Lower("") == "";
    forall b | b in buddies ensures BuddyMatches(b, "") {
      ContainsEmpty(Lower(b.name));
    }
    FilterKeepsAll(buddies, (b: Buddy) => BuddyMatches(b, ""));
  }

  /** Searching ignores the case of ASCII letters in the term. */
  lemma SearchIgnoresCase(buddies: seq<Buddy>, term: string, term': string)
    requires Lower(term) == Lower(term')
    ensures FilterBuddies(buddies, term) == FilterBuddies(buddies, term')
  {
  }

  /**
   * `filterBuddiesByTime(timeFilter)`: every buddy for 'all', otherwise
   * those whose preferred time equals the filter ignoring case.
   */
  function FilterBuddiesByTime(buddies: seq<Buddy>, timeFilter: string): (r: seq<Buddy>)
    ensures timeFilter == "all" ==> r == buddies
    ensures timeFilter != "all" ==> forall i :: 0 <= i < |r| ==> Lower(r[i].preferredTime) == Lower(timeFilter)
    ensures timeFilter != "all" ==>
              forall b :: b in buddies && Lower(b.preferredTime) == Lower(timeFilter) ==> b in r
  {
    if timeFilter == "all" then buddies
    else Filter(buddies, (b: Buddy) => Lower(b.preferredTime) == Lower(timeFilter))
  }

  /** 'All' is not the 'all' filter: it keeps only the buddies whose preferred time reads 'all'. */
  lemma CapitalAllIsAFilter(b: Buddy)
    requires b.preferredTime == "morning"
    ensures FilterBuddiesByTime([b], "All") == []
  {
    assert Lower("morning")[0] == 'm' && Lower("All")[0] == 'a';
  }

  /** How long ago a post was made, as `formatTimestamp` buckets it. */
  datatype Age = JustNow | HoursAgo(hours: int) | DaysAgo(days: int)

  /** `Math.floor((now - postTime) / 3600000)` and the bucket it falls in. */
  function AgeOf(now: int, postTime: int): (a: Age)
    ensures a.HoursAgo? ==> 1 <= a.hours < 24
    ensures a.DaysAgo? ==> a.days >= 1
  {
    var hours := (now - postTime) / HourMs;
    if hours < 1 then JustNow
    else if hours < 24 then HoursAgo(hours)
    else DaysAgo(hours / 24)
  }

  /** The text shown for an age. */
  function AgeText(a: Age): string {
    match a
    case JustNow => "Just now"
    case HoursAgo(h) => IntToString(h) + "h ago"
    case DaysAgo(d) => IntToString(d) + "d ago"
  }

  /** `formatTimestamp(timestamp)` at instant `now`. */
  function FormatTimestamp(now: int, postTime: int): (r: string)
    ensures now - postTime < HourMs ==> r == "Just now"
    ensures now - postTime >= HourMs ==> |r| > 4 && r[|r| - 4..] == " ago"
  {
    AgeBuckets(now, postTime);
    AgoSuffix(AgeOf(now, postTime));
    AgeText(AgeOf(now, postTime))
  }

  /** Every age but 'Just now' reads as so much " ago". */
  lemma AgoSuffix(a: Age)
    ensures a != JustNow ==> |AgeText(a)| > 4 && AgeText(a)[|AgeText(a)| - 4..] == " ago"
  {
    if a.HoursAgo? {
      var n := IntToString(a.hours);
      assert AgeText(a) == n + "h" + " ago";
    } else if a.DaysAgo? {
      var n := IntToString(a.days);
      assert AgeText(a) == n + "d" + " ago";
    }
  }

  /**
   * The buckets in terms of elapsed time: under an hour (or in the
   * future) is 'Just now'; then whole hours below a day; then whole days.
   */
  lemma AgeBuckets(now: int, postTime: int)
    ensures AgeOf(now, postTime) == JustNow <==> now - postTime < HourMs
    ensures AgeOf(now, postTime).HoursAgo? ==>
              var h := AgeOf(now, postTime).hours;
              h * HourMs <= now - postTime < (h + 1) * HourMs
    ensures AgeOf(now, postTime).DaysAgo? ==>
              var d := AgeOf(now, postTime).days;
              d * DayMs <= now - postTime < (d + 1) * DayMs
    ensures AgeOf(now, postTime).DaysAgo? <==> now - postTime >= DayMs
  {
    var diff := now - postTime;
    var hours := diff / HourMs;
    assert hours * HourMs <= diff < (hours + 1) * HourMs;
    if hours >= 24 {
      var d := hours / 24;
      assert d * 24 <= hours < (d + 1) * 24;
      assert d * DayMs == (d * 24) * HourMs;
      assert (d + 1) * DayMs == ((d + 1) * 24) * HourMs;
    }
  }

  /** A future time shows 'Just now'. */
  lemma FutureIsJustNow(now: int, postTime: int)
    requires postTime > now
    ensures FormatTimestamp(now, postTime) == "Just now"
  {
    AgeBuckets(now, postTime);
  }

  /** The challenge button's label and colours after a click. */
  function ChallengeClicked(e: ElementState): (r: ElementState)
    ensures e.TextContent() == "Join Challenge" ==> r.innerHTML == "Joined!"
    ensures e.TextContent() != "Join Challenge" ==> r.innerHTML == "Join Challenge"
    ensures r.disabled == e.disabled && r.classes == e.classes && r.dataset == e.dataset
  {
    if e.TextContent() == "Join Challenge" then
      e.(innerHTML := "Joined!", style := e.style["backgroundColor" := "#28a745"]["borderColor" := "#28a745"])
    else
      e.(innerHTML := "Join Challenge",
         style := e.style["backgroundColor" := "transparent"]["borderColor" := "yellowgreen"])
  }

  /** Joining then leaving brings the label back; any other label is treated as joined. */
  lemma JoinThenLeave(e: ElementState)
    requires e.TextContent() == "Join Challenge"
    ensures ChallengeClicked(ChallengeClicked(e)).TextContent() == "Join Challenge"
    ensures ChallengeClicked(e).TextContent() == "Joined!"
  {
    StripTagsOfPlainText("Joined!");
    StripTagsOfPlainText("Join Challenge");
  }

  /** The join button: swaps the label and colours; the message of the notice shown is returned. */
  method JoinChallengeClicked(button: Element, challengeName: string) returns (notice: string)
    modifies button`innerHTML, button`style
    ensures button.State() == ChallengeClicked(old(button.State()))
    ensures notice == if old(button.TextContent()) == "Join Challenge"
                      then "Joined \"" + challengeName + "\" challenge!"
                      else "Left \"" + challengeName + "\" challenge."
  {
    if button.TextContent() == "Join Challenge" {
      button.innerHTML := "Joined!";
      button.style := button.style["backgroundColor" := "#28a745"];
      button.style := button.style["borderColor" := "#28a745"];
      notice := "Joined \"" + challengeName + "\" challenge!";
    } else {
      button.innerHTML := "Join Challenge";
      button.style := button.style["backgroundColor" := "transparent"];
      button.style := button.style["borderColor" := "yellowgreen"];
      notice := "Left \"" + challengeName + "\" challenge.";
    }
  }
}
