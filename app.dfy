/** The request handlers of app.py as one in-memory application object: the
    four tables and the session are fields, each handler is a method. */
module App {
  import opened Rows
  import Text
  import ShoppingList
  import ActivityLog
  import Budget
  import Accounts

  datatype AddResult = Added | AlreadyInList
  datatype BudgetResult = BudgetUpdated | BudgetNotLoggedIn | InvalidAmount
  datatype LoginResult = LoggedIn(session: SessionInfo) | InvalidCredentials
  datatype SignupResult = SignedUp | AlreadyExists
  datatype CallbackResult = CallbackLoggedIn(session: SessionInfo) | BackToLogin

  /** What the dashboard page is rendered with, less the float budget figures. */
  datatype DashboardView = DashboardView(
    username: string,
    email: string,
    totalSearches: nat,
    recipesFound: nat,
    shoppingItems: nat,
    recentActivities: seq<Activity>,
    monthlyBudget: real)

  datatype DashboardResult = Shown(view: DashboardView) | DashboardNotLoggedIn

  /** The provider's `userinfo`; either key may be absent. */
  datatype UserInfo = UserInfo(email: Option<string>, name: Option<string>)

  /** `user_info.get('name', email.split('@')[0])`. */
  function ProviderUsername(info: UserInfo, email: string): (username: string)
    ensures info.name.Some? ==> username == info.name.value
    ensures info.name.None? ==> username <= email && '@' !in username
    ensures info.name.None? ==> |username| < |email| ==> email[|username|] == '@'
  {
    match info.name
    case Some(name) => name
    case None => Text.LocalPart(email)
  }

  class RecipeApp {
    /** The password digest (SHA-256 as hex in app.py); not assumed injective. */
    const digest: string -> string

    var users: seq<User>
    var activity: seq<Activity>
    var shoppingList: seq<Item>
    var budgets: Budget.Budgets
    var session: Option<SessionInfo>

    /** Auto-increment counters and the insertion clock. */
    var nextUserId: UserId
    var nextItemId: nat
    var clock: nat

    /** The user table's keys, and the counter that issues new ids. */
    ghost predicate UsersValid()
      reads this`users, this`nextUserId
    {
      && Accounts.WellKeyed(users)
      && forall k :: 0 <= k < |users| ==> users[k].id < nextUserId
    }

    /** One unpurchased row per name; ids and timestamps issued in order. */
    ghost predicate ShoppingValid()
      reads this`shoppingList, this`nextItemId, this`clock
    {
      && ShoppingList.AddedInOrder(shoppingList)
      && ShoppingList.AtMostOneUnpurchased(shoppingList)
      && forall k :: 0 <= k < |shoppingList| ==>
           shoppingList[k].id < nextItemId && shoppingList[k].dateAdded < clock
    }

    ghost predicate ActivityValid()
      reads this`activity, this`clock
    {
      && ActivityLog.Chronological(activity)
      && forall k :: 0 <= k < |activity| ==> activity[k].date < clock
    }

    /** A session always copies the id, username and e-mail of some user row. */
    ghost predicate SessionValid()
      reads this`session, this`users
    {
      session.Some? ==> exists k :: 0 <= k < |users| && SessionOf(users[k]) == session.value
    }

    ghost predicate Valid()
      reads this
    {
      && (forall p :: Text.IsHexDigest(digest(p)))
      && UsersValid()
      && ShoppingValid()
      && ActivityValid()
      && SessionValid()
    }

    constructor (digest: string -> string)
      requires forall p :: Text.IsHexDigest(digest(p))
      ensures Valid()
      ensures this.digest == digest
      ensures users == [] && activity == [] && shoppingList == [] && budgets == map[]
      ensures session == None
    {
      this.digest := digest;
      users, activity, shoppingList, budgets := [], [], [], map[];
      session := None;
      nextUserId, nextItemId, clock := 1, 1, 0;
    }

    /** `INSERT INTO user_activity` for the session's user. */
    method Record(kind: ActivityKind, details: string)
      requires Valid() && session.Some?
      modifies this`activity, this`clock
      ensures Valid()
      ensures activity == old(activity) + [Activity(session.value.userId, kind, details, old(clock))]
      ensures clock == old(clock) + 1
    {
      activity := activity + [Activity(session.value.userId, kind, details, clock)];
      clock := clock + 1;
    }

    /** The activity-tracking part of search_recipes. */
    method SearchRecipes(ingredients: seq<string>)
      requires Valid()
      modifies this`activity, this`clock
      ensures Valid()
      ensures session.Some? ==>
        activity == old(activity) +
          [Activity(session.value.userId, ActivityKind.Search, Text.SearchDetails(ingredients), old(clock))]
      ensures session.Some? ==> clock == old(clock) + 1
      ensures session.None? ==> activity == old(activity) && clock == old(clock)
    {
      if session.Some? {
        Record(ActivityKind.Search, Text.SearchDetails(ingredients));
      }
    }

    /** The INSERT of add_to_list, made only after the duplicate check failed. */
    method InsertItem(name: string)
      requires Valid() && !ShoppingList.HasUnpurchased(shoppingList, name)
      modifies this`shoppingList, this`nextItemId, this`clock
      ensures Valid()
      ensures shoppingList == old(shoppingList) + [Item(old(nextItemId), name, false, old(clock))]
      ensures nextItemId == old(nextItemId) + 1 && clock == old(clock) + 1
    {
      var item := Item(nextItemId, name, false, clock);
      ShoppingList.AddKeepsAtMostOne(shoppingList, item);
      shoppingList := shoppingList + [item];
      nextItemId := nextItemId + 1;
      clock := clock + 1;
    }

    /** add_to_list: refuse a name that has an unpurchased row, else insert it
        and, for a logged-in user, log the addition. */
    method AddToList(ingredient: string) returns (r: AddResult)
      requires Valid()
      modifies this`shoppingList, this`nextItemId, this`activity, this`clock
      ensures Valid()
      ensures r == AlreadyInList <==> ShoppingList.HasUnpurchased(old(shoppingList), ingredient)
      ensures r == AlreadyInList ==>
        && shoppingList == old(shoppingList) && activity == old(activity)
        && nextItemId == old(nextItemId) && clock == old(clock)
      ensures r == Added ==>
        && shoppingList == old(shoppingList) + [Item(old(nextItemId), ingredient, false, old(clock))]
        && nextItemId == old(nextItemId) + 1
        && activity == (if session.Some?
                        then old(activity) + [Activity(session.value.userId, ActivityKind.AddToList, ingredient, old(clock) + 1)]
                        else old(activity))
        && clock == old(clock) + (if session.Some? then 2 else 1)
    {
      if ShoppingList.HasUnpurchased(shoppingList, ingredient) {
        return AlreadyInList;
      }
      InsertItem(ingredient);
      if session.Some? {
        Record(ActivityKind.AddToList, ingredient);
      }
      r := Added;
    }

    /** get_shopping_list: exactly the unpurchased rows, newest first. */
    method GetShoppingList() returns (rows: seq<Item>)
      requires Valid()
      ensures forall x :: x in rows <==> x in shoppingList && !x.purchased
      ensures forall i, j :: 0 <= i < j < |rows| ==> rows[i].dateAdded > rows[j].dateAdded
    {
      rows := ShoppingList.ListView(shoppingList);
      ShoppingList.ListViewNewestFirst(shoppingList);
    }

    /** mark_purchased: an unconditional UPDATE by id. */
    method MarkPurchased(id: int)
      requires Valid()
      modifies this`shoppingList
      ensures Valid()
      ensures shoppingList == ShoppingList.SetPurchased(old(shoppingList), id)
    {
      ShoppingList.MarkKeepsInvariants(shoppingList, id);
      shoppingList := ShoppingList.SetPurchased(shoppingList, id);
    }

    /** The database part of dashboard: the user's search count, the count of
        unpurchased items, the five newest activities and the month's budget,
        created with the default when missing. */
    method Dashboard(month: string) returns (r: DashboardResult)
      requires Valid()
      modifies this`budgets
      ensures Valid()
      ensures session.None? ==> r == DashboardNotLoggedIn && budgets == old(budgets)
      ensures session.Some? ==>
        var uid := session.value.userId;
        var searches := ActivityLog.CountKind(activity, uid, ActivityKind.Search);
        var (amount, after) := Budget.GetOrCreate(old(budgets), BudgetKey(uid, month));
        && budgets == after
        && r == Shown(DashboardView(session.value.username, session.value.email,
                                    searches, searches * RecipesPerSearch,
                                    |ShoppingList.Unpurchased(shoppingList)|,
                                    ActivityLog.Recent(activity, uid), amount))
    {
      if session.None? {
        return DashboardNotLoggedIn;
      }
      var uid := session.value.userId;
      var totalSearches := ActivityLog.CountKind(activity, uid, ActivityKind.Search);
      var shoppingItems := |ShoppingList.Unpurchased(shoppingList)|;
      var recent := ActivityLog.Recent(activity, uid);
      var key := BudgetKey(uid, month);
      var monthlyBudget: real;
      if key in budgets {
        monthlyBudget := budgets[key];
      } else {
        budgets := budgets[key := DefaultBudget];
        monthlyBudget := DefaultBudget;
      }
      r := Shown(DashboardView(session.value.username, session.value.email,
                               totalSearches, totalSearches * RecipesPerSearch,
                               shoppingItems, recent, monthlyBudget));
    }

    /** update_budget: needs a session and a positive amount, then upserts. */
    method UpdateBudget(month: string, amount: Option<real>) returns (r: BudgetResult)
      requires Valid()
      modifies this`budgets
      ensures Valid()
      ensures session.None? ==> r == BudgetNotLoggedIn && budgets == old(budgets)
      ensures session.Some? && !Budget.AmountAccepted(amount) ==>
        r == InvalidAmount && budgets == old(budgets)
      ensures session.Some? && Budget.AmountAccepted(amount) ==>
        && r == BudgetUpdated
        && budgets == Budget.Upsert(old(budgets), BudgetKey(session.value.userId, month), amount.value)
    {
      if session.None? {
        return BudgetNotLoggedIn;
      }
      if amount.None? || amount.value == 0.0 || amount.value <= 0.0 {
        return InvalidAmount;
      }
      budgets := budgets[BudgetKey(session.value.userId, month) := amount.value];
      r := BudgetUpdated;
    }

    /** login: a row with this e-mail and the password's digest opens a session. */
    method Login(email: string, password: string) returns (r: LoginResult)
      requires Valid()
      modifies this`session
      ensures Valid()
      ensures var found := Accounts.FindByCredentials(users, email, digest(password));
        && (found.Some? ==> r == LoggedIn(SessionOf(found.value)) && session == Some(SessionOf(found.value)))
        && (found.None? ==> r == InvalidCredentials && session == old(session))
    {
      var hashed := digest(password);
      var user := Accounts.FindByCredentials(users, email, hashed);
      if user.Some? {
        session := Some(SessionOf(user.value));
        r := LoggedIn(SessionOf(user.value));
      } else {
        r := InvalidCredentials;
      }
    }

    /** signup: insert a row with the password's digest unless the username or
        e-mail is taken; the session is left alone. */
    method Signup(username: string, email: string, password: string) returns (r: SignupResult)
      requires Valid()
      modifies this`users, this`nextUserId
      ensures Valid()
      ensures r == SignedUp <==> Accounts.Available(old(users), username, email)
      ensures r == SignedUp ==>
        && users == old(users) + [User(old(nextUserId), username, email, digest(password))]
        && nextUserId == old(nextUserId) + 1
      ensures r == AlreadyExists ==> users == old(users) && nextUserId == old(nextUserId)
    {
      var hashed := digest(password);
      if !Accounts.Available(users, username, email) {
        return AlreadyExists;
      }
      var u := User(nextUserId, username, email, hashed);
      Accounts.InsertKeepsWellKeyed(users, u);
      users := users + [u];
      nextUserId := nextUserId + 1;
      assert forall k :: 0 <= k < |old(users)| ==> users[k] == old(users)[k];
      r := SignedUp;
    }

    /** google_callback, from the provider's user info on: log into the row
        with that e-mail, or create one with the federated marker as password
        and log into it; a failed INSERT or missing info goes back to login. */
    method GoogleCallback(info: Option<UserInfo>) returns (r: CallbackResult)
      requires Valid()
      modifies this`users, this`nextUserId, this`session
      ensures Valid()
      ensures info.None? || info.value.email.None? ==>
        r == BackToLogin && users == old(users) && nextUserId == old(nextUserId) && session == old(session)
      ensures info.Some? && info.value.email.Some? ==>
        var email := info.value.email.value;
        var username := ProviderUsername(info.value, email);
        var existing := Accounts.FindByEmail(old(users), email);
        && (existing.Some? ==>
              && users == old(users) && nextUserId == old(nextUserId)
              && r == CallbackLoggedIn(SessionOf(existing.value))
              && session == Some(SessionOf(existing.value)))
        && (existing.None? && Accounts.Available(old(users), username, email) ==>
              && users == old(users) + [User(old(nextUserId), username, email, OAuthPassword)]
              && nextUserId == old(nextUserId) + 1
              && r == CallbackLoggedIn(SessionInfo(old(nextUserId), username, email))
              && session == Some(SessionInfo(old(nextUserId), username, email)))
        && (existing.None? && !Accounts.Available(old(users), username, email) ==>
              r == BackToLogin && users == old(users) && nextUserId == old(nextUserId) && session == old(session))
    {
      if info.None? || info.value.email.None? {
        return BackToLogin;
      }
      var email := info.value.email.value;
      var username := ProviderUsername(info.value, email);
      var user := Accounts.FindByEmail(users, email);
      if user.Some? {
        session := Some(SessionOf(user.value));
        return CallbackLoggedIn(SessionOf(user.value));
      }
      if !Accounts.Available(users, username, email) {
        return BackToLogin;
      }
      var info := CreateOAuthUser(username, email);
      r := CallbackLoggedIn(info);
    }

    /** The new-user branch of google_callback: insert a row with the
        placeholder password, fetch it back by e-mail and log in as it. */
    method CreateOAuthUser(username: string, email: string) returns (info: SessionInfo)
      requires Valid() && Accounts.Available(users, username, email)
      modifies this`users, this`nextUserId, this`session
      ensures Valid()
      ensures users == old(users) + [User(old(nextUserId), username, email, OAuthPassword)]
      ensures nextUserId == old(nextUserId) + 1
      ensures info == SessionInfo(old(nextUserId), username, email) && session == Some(info)
    {
      var u := User(nextUserId, username, email, OAuthPassword);
      Accounts.InsertKeepsWellKeyed(users, u);
      Accounts.CreatedUserIsFound(users, u);
      users := users + [u];
      nextUserId := nextUserId + 1;
      var created := Accounts.FindByEmail(users, email);
      info := SessionOf(created.value);
      session := Some(info);
    }

    /** logout: `session.clear()`. */
    method Logout()
      requires Valid()
      modifies this`session
      ensures Valid()
      ensures session == None
    {
      session := None;
    }
  }

  /** A signup followed by a login with the same e-mail and password logs in
      as the row the signup created. */
  method SignupThenLogin(app: RecipeApp, username: string, email: string, password: string)
    returns (signup: SignupResult, login: LoginResult)
    requires app.Valid()
    modifies app
    ensures signup == SignedUp <==> Accounts.Available(old(app.users), username, email)
    ensures signup == SignedUp ==> login == LoggedIn(SessionInfo(old(app.nextUserId), username, email))
    ensures signup == SignedUp ==> app.session == Some(SessionInfo(old(app.nextUserId), username, email))
  {
    signup := app.Signup(username, email, password);
    if signup == SignedUp {
      Accounts.SignupThenLogin(old(app.users), User(old(app.nextUserId), username, email, app.digest(password)));
    }
    login := app.Login(email, password);
  }

  /** Repeating a provider callback with the same user info lands on the same
      account and creates no second row. */
  method CallbackTwice(app: RecipeApp, info: Option<UserInfo>)
    returns (first: CallbackResult, second: CallbackResult, ghost between: seq<User>)
    requires app.Valid()
    modifies app
    ensures first == second
    ensures |between| <= |old(app.users)| + 1
    ensures old(app.users) <= between
    ensures app.users == between
  {
    first := app.GoogleCallback(info);
    between := app.users;
    if first.CallbackLoggedIn? && |between| > |old(app.users)| {
      Accounts.CreatedUserIsFound(old(app.users), between[|between| - 1]);
      assert between == old(app.users) + [between[|between| - 1]];
    }
    second := app.GoogleCallback(info);
  }
}
