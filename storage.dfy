/**
 * The records the pages keep in the browser's local storage, and the
 * storage itself. Every list key holds a JSON array that the pages read
 * with `JSON.parse(getItem(key) || '[]')`, so a missing key reads as the
 * empty list; instants are milliseconds since the epoch.
 */
module Storage {
  import opened Wrappers

  /** A class booking (`userBookings`). */
  datatype Booking = Booking(id: int, classId: string, className: string, day: string, time: string,
                             trainer: string, bookingDate: int)

  /** A logged workout (`userWorkouts`); a duration that did not parse is `None`. */
  datatype Workout = Workout(id: int, kind: string, duration: Option<int>, intensity: string,
                             notes: string, date: int)

  /** A progress photo (`userPhotos`); a weight that did not parse is `None`. */
  datatype Photo = Photo(id: int, kind: string, weight: Option<real>, notes: string, date: int)

  /** A personal goal (`userGoals`). */
  datatype Goal = Goal(id: int, kind: string, target: Option<real>, current: Option<real>,
                       targetDate: string, description: string, createdAt: int)

  /** What a community post carries besides its text. */
  datatype Attachment =
    | Text
    | PhotoShare(image: string, privacy: string)
    | WorkoutShare(workout: Workout, privacy: string)

  /** A community post (`communityPosts`). */
  datatype Post = Post(id: int, userId: string, userName: string, userAvatar: string, content: string,
                       attachment: Attachment, likes: int, comments: int, timestamp: int, liked: bool)

  /** A friend (`communityFriends`). */
  datatype Friend = Friend(id: int, name: string, avatar: string, status: string, lastWorkout: string,
                           mutualFriends: int)

  /** A pending friend request (`friendRequests`). */
  datatype FriendRequest = FriendRequest(id: int, name: string, avatar: string)

  /** A potential workout buddy (`communityBuddies`). */
  datatype Buddy = Buddy(id: int, name: string, avatar: string, fitnessLevel: string, preferredTime: string,
                         workoutsThisWeek: int, streak: int, goals: seq<string>)

  /** A logged meal (`userMeals`); calories that did not parse are `None`. */
  datatype Meal = Meal(id: int, kind: string, foodItem: string, calories: Option<int>, protein: real,
                       carbs: real, fat: real, notes: string, date: int)

  /** A logged glass count (`userWater`); an amount that did not parse is `None`. */
  datatype WaterEntry = WaterEntry(id: int, amount: Option<int>, time: string, notes: string, date: int)

  /** One entry of the `nutritionGoals` object, in insertion order. */
  datatype GoalEntry = GoalEntry(key: string, value: int)

  /** The value of `key` in a goals object, if present. */
  function Lookup(goals: seq<GoalEntry>, key: string): Option<int> {
    if goals == [] then None
    else if goals[0].key == key then Some(goals[0].value)
    else Lookup(goals[1..], key)
  }

  /** The browser's local storage, one field per key the pages use. */
  class LocalStorage {
    /** Keys holding plain strings: `userLoggedIn`, `memberName` and the theme preference. */
    var strings: map<string, string>
    var bookings: seq<Booking>
    var workouts: seq<Workout>
    var photos: seq<Photo>
    var goals: seq<Goal>
    var posts: seq<Post>
    var friends: seq<Friend>
    var requests: seq<FriendRequest>
    var buddies: seq<Buddy>
    var meals: seq<Meal>
    var water: seq<WaterEntry>
    /** `nutritionGoals`, `None` while the key is absent. */
    var nutritionGoals: Option<seq<GoalEntry>>

    /** A storage holding only the given string keys. */
    constructor (initial: map<string, string>)
      ensures strings == initial
      ensures bookings == [] && workouts == [] && photos == [] && goals == [] && posts == []
      ensures friends == [] && requests == [] && buddies == [] && meals == [] && water == []
      ensures nutritionGoals == None
    {
      strings := initial;
      bookings, workouts, photos, goals, posts := [], [], [], [], [];
      friends, requests, buddies, meals, water := [], [], [], [], [];
      nutritionGoals := None;
    }

    /** `localStorage.getItem(key)` of a string key; `None` for a missing key. */
    function GetItem(key: string): Option<string>
      reads this`strings
    {
      if key in strings then Some(strings[key]) else None
    }

    /** `localStorage.getItem('userLoggedIn') === 'true'`. */
    predicate LoggedIn()
      reads this`strings
    {
      GetItem("userLoggedIn") == Some("true")
    }

    /** `localStorage.getItem('memberName') || 'Member'`. */
    function MemberName(): (name: string)
      reads this`strings
      ensures name != ""
    {
      if "memberName" in strings && strings["memberName"] != "" then strings["memberName"] else "Member"
    }

    /** `localStorage.setItem(key, value)` of a string key. */
    method SetItem(key: string, value: string)
      modifies this`strings
      ensures strings == old(strings)[key := value]
    {
      strings := strings[key := value];
    }
  }
}
