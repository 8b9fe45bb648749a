/**
 * The nutrition page: the default goals, today's calorie, protein and
 * water totals and their capped progress bars, the week calendar's days,
 * the meal and water logs, and the recipe search.
 */
module Nutrition {
  import opened Wrappers
  import opened Strings
  import opened Seqs
  import opened Calendar
  import opened Storage

  /** The goals written when `nutritionGoals` is absent, in their insertion order. */
  const DefaultGoals: seq<GoalEntry> := [GoalEntry("calories", 2000), GoalEntry("protein", 150),
                                         GoalEntry("water", 8), GoalEntry("carbs", 250), GoalEntry("fat", 65)]

  /** Where a logged-out visitor is sent. */
  const RegisterPage: string := "index.html#register1"

  /**
   * `initializeNutritionPage`: a logged-out visitor is redirected and
   * nothing is written; otherwise the default goals are stored when no
   * goals are stored yet, and stored goals are kept.
   */
  method InitializeNutritionPage(storage: LocalStorage) returns (redirect: Option<string>)
    modifies storage`nutritionGoals
    ensures !storage.LoggedIn() ==> redirect == Some(RegisterPage) && storage.nutritionGoals == old(storage.nutritionGoals)
    ensures storage.LoggedIn() ==> redirect == None
    ensures storage.LoggedIn() && old(storage.nutritionGoals).None? ==> storage.nutritionGoals == Some(DefaultGoals)
    ensures old(storage.nutritionGoals).Some? ==> storage.nutritionGoals == old(storage.nutritionGoals)
  {
    if !storage.LoggedIn() {
      return Some(RegisterPage);
    }
    if storage.nutritionGoals.None? {
      storage.nutritionGoals := Some(DefaultGoals);
    }
    return None;
  }

  /** `new Date(date).toDateString() === new Date().toDateString()`: the same local day. */
  predicate SameDay(date: int, now: int, offset: int) {
    LocalDay(date, offset) == LocalDay(now, offset)
  }

  predicate MealToday(m: Meal, now: int, offset: int) {
    SameDay(m.date, now, offset)
  }

  predicate WaterToday(w: WaterEntry, now: int, offset: int) {
    SameDay(w.date, now, offset)
  }

  function TodaysMeals(meals: seq<Meal>, now: int, offset: int): seq<Meal> {
    Filter(meals, (m: Meal) => MealToday(m, now, offset))
  }

  function TodaysWater(water: seq<WaterEntry>, now: int, offset: int): seq<WaterEntry> {
    Filter(water, (w: WaterEntry) => WaterToday(w, now, offset))
  }

  /** `meal.calories || 0`: calories that did not parse add nothing. */
  function MealCalories(m: Meal): int {
    m.calories.GetOr(0)
  }

  /** `entry.amount || 0`. */
  function WaterAmount(w: WaterEntry): int {
    w.amount.GetOr(0)
  }

  /** The sum of the meals' protein. */
  function ProteinSum(meals: seq<Meal>): real {
    if meals == [] then 0.0 else meals[0].protein + ProteinSum(meals[1..])
  }

  lemma {:induction false} ProteinSumAppend(a: seq<Meal>, b: seq<Meal>)
    ensures ProteinSum(a + b) == ProteinSum(a) + ProteinSum(b)
  {
    if a == [] {
      assert a + b == b;
    } else {
      assert (a + b)[1..] == a[1..] + b;
      ProteinSumAppend(a[1..], b);
    }
  }

  /** Today's totals: calories, protein and glasses of water. */
  datatype Totals = Totals(calories: int, protein: real, water: int)

  /** `loadTodayNutrition`: the sums over the entries dated today. */
  function TodayTotals(meals: seq<Meal>, water: seq<WaterEntry>, now: int, offset: int): (r: Totals)
    ensures (forall m :: m in meals ==> !MealToday(m, now, offset)) ==> r.calories == 0 && r.protein == 0.0
    ensures (forall w :: w in water ==> !WaterToday(w, now, offset)) ==> r.water == 0
  {
    var ms := TodaysMeals(meals, now, offset);
    Totals(Sum(ms, MealCalories), ProteinSum(ms), Sum(TodaysWater(water, now, offset), WaterAmount))
  }

  /** A meal logged now adds its calories and protein to today's totals; the water total stays. */
  lemma LoggedMealCountsToday(meals: seq<Meal>, water: seq<WaterEntry>, m: Meal, now: int, offset: int)
    requires m.date == now
    ensures var before := TodayTotals(meals, water, now, offset);
            var after := TodayTotals(meals + [m], water, now, offset);
            after == Totals(before.calories + MealCalories(m), before.protein + m.protein, before.water)
  {
    var p := (x: Meal) => MealToday(x, now, offset);
    FilterAppend(meals, [m], p);
    assert [m][1..] == [];
    assert Filter([m], p) == [m];
    SumAppend(Filter(meals, p), [m], MealCalories);
    ProteinSumAppend(Filter(meals, p), [m]);
    assert Sum([m], MealCalories) == MealCalories(m) + Sum([m][1..], MealCalories);
    assert ProteinSum([m]) == m.protein + ProteinSum([m][1..]);
  }

  /** A meal dated on another day changes nothing today. */
  lemma OtherDayMealIgnored(meals: seq<Meal>, water: seq<WaterEntry>, m: Meal, now: int, offset: int)
    requires !SameDay(m.date, now, offset)
    ensures TodayTotals(meals + [m], water, now, offset) == TodayTotals(meals, water, now, offset)
  {
    var p := (x: Meal) => MealToday(x, now, offset);
    FilterAppend(meals, [m], p);
    assert [m][1..] == [];
    assert Filter([m], p) == [];
    assert Filter(meals, p) + [] == Filter(meals, p);
  }

  /** Water logged now adds its glasses to today's water total. */
  lemma LoggedWaterCountsToday(meals: seq<Meal>, water: seq<WaterEntry>, w: WaterEntry, now: int, offset: int)
    requires w.date == now
    ensures TodayTotals(meals, water + [w], now, offset).water == TodayTotals(meals, water, now, offset).water + WaterAmount(w)
  {
    var p := (x: WaterEntry) => WaterToday(x, now, offset);
    FilterAppend(water, [w], p);
    assert [w][1..] == [];
    assert Filter([w], p) == [w];
    SumAppend(Filter(water, p), [w], WaterAmount);
    assert Sum([w], WaterAmount) == WaterAmount(w) + Sum([w][1..], WaterAmount);
  }

  /** `goals[key] || fallback`: a missing or zero goal falls back. */
  function GoalOr(goals: seq<GoalEntry>, key: string, fallback: int): (g: int)
    requires fallback != 0
    ensures g != 0
    ensures Lookup(goals, key).Some? && Lookup(goals, key).value != 0 ==> g == Lookup(goals, key).value
    ensures Lookup(goals, key).None? ==> g == fallback
  {
    match Lookup(goals, key)
    case Some(v) => if v != 0 then v else fallback
    case None => fallback
  }

  /** `Math.min(total / goal * 100, 100)`. */
  function Progress(total: real, goal: int): (r: real)
    requires goal != 0
    ensures r <= 100.0
    ensures goal > 0 ==> (r == 100.0 <==> total >= goal as real)
    ensures goal > 0 && total >= 0.0 ==> r >= 0.0
  {
    var p := total / goal as real * 100.0;
    if p < 100.0 then p else 100.0
  }

  /** The three bars' widths, in percent. */
  datatype Bars = Bars(calories: real, protein: real, water: real)

  /**
   * `updateProgressBars`: today's totals against the stored goals, with
   * 2000, 150 and 8 standing in for a missing or zero goal. Without
   * stored goals every goal falls back.
   */
  function ProgressBars(goals: Option<seq<GoalEntry>>, meals: seq<Meal>, water: seq<WaterEntry>, now: int, offset: int): (r: Bars)
    ensures r.calories <= 100.0 && r.protein <= 100.0 && r.water <= 100.0
    ensures goals.None? ==>
              var t := TodayTotals(meals, water, now, offset);
              && (r.calories == 100.0 <==> t.calories >= 2000)
              && (r.protein == 100.0 <==> t.protein >= 150.0)
              && (r.water == 100.0 <==> t.water >= 8)
  {
    var gs := goals.GetOr([]);
    var t := TodayTotals(meals, water, now, offset);
    Bars(Progress(t.calories as real, GoalOr(gs, "calories", 2000)),
         Progress(t.protein, GoalOr(gs, "protein", 150)),
         Progress(t.water as real, GoalOr(gs, "water", 8)))
  }

  /** With the default goals, 8 glasses of water fill the water bar. */
  lemma EightGlassesFillWaterBar(meals: seq<Meal>, water: seq<WaterEntry>, now: int, offset: int)
    requires TodayTotals(meals, water, now, offset).water >= 8
    ensures ProgressBars(Some(DefaultGoals), meals, water, now, offset).water == 100.0
    ensures ProgressBars(None, meals, water, now, offset).water == 100.0
  {
    assert GoalOr(DefaultGoals, "water", 8) == 8;
  }

  /** The unit shown after a goal's target. */
  function GoalUnit(key: string): (unit: string)
    ensures unit in {"glasses", "cal", "g"}
    ensures unit == "glasses" <==> key == "water"
    ensures unit == "cal" <==> key == "calories"
  {
    if key == "water" then "glasses" else if key == "calories" then "cal" else "g"
  }

  /** The default goals read as 2000 cal, 150 g of protein, 8 glasses, 250 g of carbs and 65 g of fat. */
  lemma DefaultGoalUnits()
    ensures forall i :: 0 <= i < |DefaultGoals| ==>
              GoalUnit(DefaultGoals[i].key) == ["cal", "g", "glasses", "g", "g"][i]
  {
  }

  /**
   * `getWeekDates`: seven instants a day apart, the first at the same
   * clock time on the Sunday of the given date's week.
   */
  method GetWeekDates(date: int, offset: int) returns (week: seq<int>)
    ensures |week| == 7
    ensures forall i :: 0 <= i < 7 ==> week[i] == date + (i - Weekday(LocalDay(date, offset))) * DayMs
  {
    week := [];
    var startOfWeek := date - Weekday(LocalDay(date, offset)) * DayMs;
    for i := 0 to 7
      invariant |week| == i
      invariant forall k :: 0 <= k < i ==> week[k] == startOfWeek + k * DayMs
    {
      var day := startOfWeek + i * DayMs;
      week := week + [day];
    }
  }

  /** The week's days run Sunday to Saturday, and the given date is the day of its own weekday. */
  lemma WeekDatesCoverWeek(date: int, offset: int, week: seq<int>)
    requires |week| == 7
    requires forall i :: 0 <= i < 7 ==> week[i] == date + (i - Weekday(LocalDay(date, offset))) * DayMs
    ensures forall i :: 0 <= i < 7 ==> Weekday(LocalDay(week[i], offset)) == i
    ensures week[Weekday(LocalDay(date, offset))] == date
  {
    var today := LocalDay(date, offset);
    var w := Weekday(today);
    forall i | 0 <= i < 7 ensures Weekday(LocalDay(week[i], offset)) == i {
      DayShift(date, offset, i - w);
      assert LocalDay(week[i], offset) == today + (i - w);
      assert (today + 4) % 7 == w;
      assert (today + (i - w) + 4) == (today + 4 - w) + i;
      assert (today + 4 - w) % 7 == 0 by {
        assert today + 4 - w == ((today + 4) / 7) * 7;
      }
    }
  }

  /** Moving an instant by whole days moves its local day by as many. */
  lemma DayShift(t: int, offset: int, k: int)
    ensures LocalDay(t + k * DayMs, offset) == LocalDay(t, offset) + k
  {
    assert t + k * DayMs + offset == (t + offset) + k * DayMs;
  }

  /** The value `parseFloat` read from a macro field, or `None` for NaN; `|| 0` makes NaN 0. */
  function MacroOrZero(parsed: Option<real>): real {
    parsed.GetOr(0.0)
  }

  /** The meal record `logMeal` builds. */
  function NewMeal(now: int, kind: string, foodItem: string, calories: string, protein: Option<real>,
                   carbs: Option<real>, fat: Option<real>, notes: string): (m: Meal)
    ensures m.date == now && m.calories == ParseInt(calories)
    ensures protein.None? ==> m.protein == 0.0
    ensures carbs.None? ==> m.carbs == 0.0
    ensures fat.None? ==> m.fat == 0.0
  {
    Meal(now, kind, foodItem, ParseInt(calories), MacroOrZero(protein), MacroOrZero(carbs), MacroOrZero(fat), notes, now)
  }

  /** `logMeal`: one meal appended to `userMeals`, the earlier ones unchanged. */
  method LogMeal(storage: LocalStorage, now: int, kind: string, foodItem: string, calories: string,
                 protein: Option<real>, carbs: Option<real>, fat: Option<real>, notes: string)
    modifies storage`meals
    ensures storage.meals == old(storage.meals) + [NewMeal(now, kind, foodItem, calories, protein, carbs, fat, notes)]
  {
    var meal := NewMeal(now, kind, foodItem, calories, protein, carbs, fat, notes);
    storage.meals := storage.meals + [meal];
  }

  /** `logWater`: one entry appended to `userWater`, its amount read with `parseInt`. */
  method LogWater(storage: LocalStorage, now: int, amount: string, time: string, notes: string)
    modifies storage`water
    ensures storage.water == old(storage.water) + [WaterEntry(now, ParseInt(amount), time, notes, now)]
  {
    storage.water := storage.water + [WaterEntry(now, ParseInt(amount), time, notes, now)];
  }

  /** A recipe of the search's fixed list. */
  datatype Recipe = Recipe(name: string, description: string, calories: int, time: string, protein: string,
                           image: string)

  const Recipes: seq<Recipe> := [
    Recipe("Greek Yogurt Parfait", "High protein breakfast with berries", 250, "10 min", "20g", "./images/2.jpg"),
    Recipe("Quinoa Power Bowl", "Nutritious lunch with vegetables", 450, "25 min", "15g", "./images/3.jpg"),
    Recipe("Grilled Salmon", "Omega-3 rich dinner option", 320, "20 min", "35g", "./images/4.jpg")
  ]

  /** `recipe.calories <= limit`, where a limit that did not parse (NaN) admits nothing. */
  predicate WithinLimit(r: Recipe, limit: Option<int>) {
    limit.Some? && r.calories <= limit.value
  }

  /**
   * `searchRecipes`: all recipes when the calorie field is empty, otherwise
   * those within `parseInt` of it, in list order. The diet type is not
   * consulted.
   */
  function SearchRecipes(dietType: string, maxCalories: string): (r: seq<Recipe>)
    ensures maxCalories == "" ==> r == Recipes
    ensures forall i :: 0 <= i < |r| ==> r[i] in Recipes
    ensures maxCalories != "" ==> forall i :: 0 <= i < |r| ==> WithinLimit(r[i], ParseInt(maxCalories))
    ensures maxCalories != "" ==> forall i :: 0 <= i < |Recipes| && WithinLimit(Recipes[i], ParseInt(maxCalories)) ==> Recipes[i] in r
  {
    if maxCalories == "" then Recipes
    else
      var limit := ParseInt(maxCalories);
      Filter(Recipes, (x: Recipe) => WithinLimit(x, limit))
  }

  /** A limit that does not parse as a number finds nothing. */
  lemma UnparsableLimitFindsNothing(dietType: string, maxCalories: string)
    requires maxCalories != "" && ParseInt(maxCalories).None?
    ensures SearchRecipes(dietType, maxCalories) == []
  {
  }

  /** The diet type never changes the result. */
  lemma DietTypeIgnored(a: string, b: string, maxCalories: string)
    ensures SearchRecipes(a, maxCalories) == SearchRecipes(b, maxCalories)
  {
  }

  /** A 300-calorie limit leaves only the parfait. */
  lemma ThreeHundredCalories(dietType: string)
    ensures SearchRecipes(dietType, "300") == [Recipes[0]]
  {
    ParseThreeHundred();
    FilterOfThree(Recipes[0], Recipes[1], Recipes[2], (x: Recipe) => WithinLimit(x, Some(300)));
  }

  lemma FilterOfThree<T>(a: T, b: T, c: T, p: T -> bool)
    ensures Filter([a, b, c], p) == (if p(a) then [a] else []) + (if p(b) then [b] else []) + (if p(c) then [c] else [])
  {
    assert [a, b, c][1..] == [b, c];
    assert [b, c][1..] == [c];
    assert [c][1..] == [];
    assert Filter([c], p) == if p(c) then [c] else [];
    assert Filter([b, c], p) == (if p(b) then [b] else []) + Filter([c], p);
  }

  lemma ParseThreeHundred()
    ensures ParseInt("300") == Some(300)
  {
    assert IntToString(300) == "300" by {
      assert NatToString(300) == "300";
    }
    ParseIntOfPrinted(300, "");
    assert IntToString(300) + "" == "300";
  }
}
