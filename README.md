# Recipe Roulette bookkeeping, modelled in Dafny

Recipe Roulette is a small Flask web application. Users search for recipes by
ingredient, keep one shopping list shared by everyone, track a monthly grocery
budget, and see their recent activity on a dashboard. Under the web, database
and HTTP plumbing, each request handler in `app.py` is a small deterministic
operation on four tables (`users`, `user_activity`, `shopping_list`,
`user_budget`) and a session. This project models those operations and proves
what they guarantee.

Layout (one module per concern, all given to Dafny together):

- `rows.dfy`: module `Rows` holds the table rows, the session record and the
  constants of `app.py`: the 3000.00 default budget, the `'google_oauth'`
  password marker, `LIMIT 5` and the 6 recipes per search. Module `Seqs` holds
  `Reverse`, the `ORDER BY ... DESC` over rows kept in insertion order.
- `text.dfy`: module `Text` holds `email.split('@')[0]`, `', '.join(...)`, the
  search activity's `"With: ..."` summary, and the shape of a SHA-256 hex digest.
- `shopping.dfy`: module `ShoppingList` holds the duplicate check, the
  `UPDATE ... SET purchased = TRUE`, the unpurchased view and their laws.
- `activity.dfy`: module `ActivityLog` holds the per-user count, the
  five-newest query and their laws.
- `budget.dfy`: module `Budget` holds amount validation, get-or-create with the
  default, and the upsert.
- `accounts.dfy`: module `Accounts` holds `fetchone` over a `WHERE` and the
  lookups by e-mail and by e-mail plus digest. It also holds the uniqueness of
  usernames and e-mails and the signup/login laws.
- `app.dfy`: module `App` has class `RecipeApp`. Its fields are the four tables,
  the session, and the counters that issue ids and insertion times. It has one
  method per handler, each with a field-level `modifies` frame. The `ensures`
  of each method give the new tables and session in terms of the old ones and
  the functions above. `Valid()` is the object invariant, kept by every
  method:
  - user ids, usernames and e-mails are unique;
  - there is at most one unpurchased row per ingredient name;
  - ids and insertion times increase along each table;
  - a session always copies some user row.

Stand-ins for what the program gets from outside:

- The password digest is a constant function `digest` of the object. It is not
  assumed injective. The only thing assumed of it is that every value is
  64 lower-case hex digits, which is what `hexdigest()` returns.
- The current month key (`datetime.now().strftime('%Y-%m')`) is a parameter.
- Row ids and insertion times come from monotonic counters.
- The provider's `userinfo` is a parameter of type `Option<UserInfo>`.

Two behaviours of the code worth stating:

- Signup does not open a session. `app.py:344` redirects to the login page.
- The upstream recipe API's failures are not surfaced. `app.py:163-164` passes
  the response through, and they are not modelled either.

## Model

| member | source | states |
|---|---|---|
| `Rows.SessionOf` | app.py:265-267 | the session keys copy the user row's id, username and e-mail (also at app.py:299-301 and 311-313) |
| `ShoppingList.HasUnpurchased` | app.py:190-193 | an add is refused iff the name is on the displayed (unpurchased) list |
| `App.ProviderUsername` | app.py:289 | the username is the provider's name when given, else the e-mail's text before the first '@' (all of it when there is none) |
| `Seqs.Reverse` | app.py:219 | the descending order is the table order reversed, position by position, with the same rows |
| `Seqs.ReverseAppend` | app.py:219 | the newest row heads a descending listing |
| `Text.LocalPart` | app.py:289 | the default username is the longest prefix of the e-mail without '@', ending where the first '@' stands |
| `Text.Join` | app.py:170 | joining no parts gives the empty string, one part gives the part; with more parts, the first part and the separator begin the result |
| `Text.SearchDetails` | app.py:170 | a search's activity details always start with "With: " |
| `Text.SearchDetailsCases` | app.py:170 | the details are "With: " followed by the first one, two or three ingredients separated by ", " |
| `Text.SearchDetailsIgnoresRest` | app.py:170 | ingredients after the third do not change the recorded details |
| `ShoppingList.SetPurchased` | app.py:236 | the update keeps every row's id, name and date; a row is purchased afterwards iff it was before or has the given id |
| `ShoppingList.Unpurchased` | app.py:57 | `WHERE purchased = FALSE` keeps exactly the unpurchased rows |
| `ShoppingList.ListView` | app.py:219 | the shopping-list view holds exactly the unpurchased rows |
| `ShoppingList.UnpurchasedInOrder` | app.py:219 | filtering keeps the insertion order of ids and dates |
| `ShoppingList.ListViewNewestFirst` | app.py:219 | the view is exactly the unpurchased rows, strictly ordered by `date_added` descending |
| `ShoppingList.UnpurchasedAppend` | app.py:199 | inserting an unpurchased row adds exactly that row to the unpurchased rows, at the end |
| `ShoppingList.AddShowsFirst` | app.py:199-225 | after an insert the new row is first in the view and the rest is unchanged |
| `ShoppingList.AddThenAddRefused` | app.py:190-199 | after adding a name, the duplicate check finds it, so a second add of the same name is refused |
| `ShoppingList.AddKeepsAtMostOne` | app.py:189-199 | inserting only when the check finds no unpurchased row of that name keeps at most one unpurchased row per name |
| `ShoppingList.MarkKeepsInvariants` | app.py:236 | marking keeps at most one unpurchased row per name and the order of ids and dates |
| `ShoppingList.MarkIdempotent` | app.py:236 | marking the same id twice leaves the table as marking it once |
| `ShoppingList.MarkUnknownIsNoOp` | app.py:236 | marking an id that no row has leaves the table unchanged |
| `ShoppingList.MarkLeavesView` | app.py:236 | after marking, the view is the old view without the rows of that id |
| `ActivityLog.OfUser` | app.py:63 | `WHERE user_id = %s` keeps exactly that user's activities |
| `ActivityLog.CountKind` | app.py:53 | the count is zero iff no activity of that user has that type |
| `ActivityLog.CountKindAppend` | app.py:53 | one more logged activity raises the count of its user and type by one and leaves the other counts |
| `ActivityLog.Recent` | app.py:60-67 | the dashboard's recent list has at most five entries, all activities of that user |
| `ActivityLog.OfUserChronological` | app.py:60-66 | one user's activities stay in the order of their dates |
| `ActivityLog.RecentAt` | app.py:60-67 | entry k of the recent list is the user's k-th newest activity, and there are min(5, total) entries |
| `ActivityLog.RecentIsNewestFirst` | app.py:60-67 | the recent list is strictly newest first and holds all of the user's activities when there are at most five |
| `ActivityLog.NewestPrefixOmitsOnlyOlder` | app.py:64-65 | a newest-first prefix of a dated log omits only entries older than every entry it keeps |
| `ActivityLog.RecentOmitsOnlyOlder` | app.py:60-67 | every activity of the user left out of the recent list is older than every activity in it |
| `Budget.AmountAccepted` | app.py:124-125 | an amount is accepted iff it is present and positive; missing, zero and negative amounts are rejected |
| `Budget.GetOrCreate` | app.py:72-88 | an existing (user, month) row is returned unchanged; otherwise 3000.00 is inserted and returned; no other row changes |
| `Budget.Upsert` | app.py:134-138 | after the upsert the (user, month) row holds the new amount and no other row changes |
| `Budget.GetOrCreateTwice` | app.py:72-88 | a second dashboard view of the same month returns the same budget and inserts nothing |
| `Budget.UpsertThenGetOrCreate` | app.py:134-138 | after an update the dashboard shows the updated amount and inserts nothing |
| `Budget.UpsertTwice` | app.py:134-138 | of two updates of the same month the last one wins |
| `Accounts.FirstWhere` | app.py:256-257 | `fetchone` returns nothing iff no row matches, else the first matching row |
| `Accounts.FindByEmail` | app.py:294-295 | the e-mail lookup finds a row iff some row has that e-mail, and the row it finds has it |
| `Accounts.FindByCredentials` | app.py:256-257 | the login lookup finds a row iff some row has that e-mail and that digest, and the row it finds has both |
| `Accounts.InsertKeepsWellKeyed` | app.py:339-340 | an insert that violates no unique key keeps ids, usernames and e-mails unique |
| `Accounts.InsertWellKeyedIffAvailable` | app.py:338-348 | on a table with unique keys, an insert with a fresh id keeps them unique iff neither the username nor the e-mail is taken; otherwise the INSERT fails (also at app.py:304-305) |
| `Accounts.FirstWhereFindsAppended` | app.py:309-310 | when no earlier row matches, `fetchone` returns the row just inserted |
| `Accounts.SignupThenLogin` | app.py:333-340 | a successful signup's row is what a login with the same e-mail and password finds |
| `Accounts.CreatedUserIsFound` | app.py:304-310 | the callback's re-select after its insert finds the row it inserted |
| `Accounts.FindByEmailUnique` | app.py:294-301 | with unique e-mails the lookup by a row's e-mail returns that row |
| `Accounts.WrongPasswordFails` | app.py:256-270 | a password whose digest differs from the stored one finds no row |
| `Accounts.PasswordLoginNeverReachesOAuthAccount` | app.py:305 | no password login reaches an account whose password column holds the federated marker |
| `App.RecipeApp.Record` | app.py:204-205 | one activity row for the session user, dated now, is appended and nothing else changes |
| `App.RecipeApp.SearchRecipes` | app.py:166-175 | with a session, one `search` activity with the three-ingredient summary is appended; without one, nothing changes |
| `App.RecipeApp.AddToList` | app.py:181-211 | refused, with nothing changed, iff an unpurchased row has the name; otherwise exactly one unpurchased row is appended, plus an `add_to_list` activity, dated after the row, iff a session exists |
| `App.RecipeApp.InsertItem` | app.py:199-200 | once the duplicate check has failed, one unpurchased row with a fresh id, dated now, is appended and the one-unpurchased-row-per-name invariant holds |
| `App.RecipeApp.GetShoppingList` | app.py:214-225 | returns exactly the unpurchased rows, strictly ordered by `date_added` descending |
| `App.RecipeApp.MarkPurchased` | app.py:228-241 | the table becomes the id-update of the old one; nothing else changes |
| `App.RecipeApp.Dashboard` | app.py:38-100 | without a session, redirects and changes nothing; otherwise returns the search count, 6 x searches, the unpurchased count, the five newest activities and the month's budget, created with the default if missing |
| `App.RecipeApp.UpdateBudget` | app.py:116-144 | refused without a session or with a missing, zero or negative amount, changing nothing; otherwise the month's row is upserted |
| `App.RecipeApp.Login` | app.py:244-270 | the session becomes the found row's id, username and e-mail iff a row has that e-mail and the password's digest; otherwise it is unchanged |
| `App.RecipeApp.Signup` | app.py:327-348 | inserts one row with the password's digest iff neither username nor e-mail is taken; otherwise nothing changes; the session is untouched |
| `App.RecipeApp.GoogleCallback` | app.py:282-324 | logs into the row with that e-mail without inserting; else inserts one row with the federated marker and logs into it; missing info or a failed insert changes nothing |
| `App.RecipeApp.CreateOAuthUser` | app.py:304-313 | a free username and e-mail give exactly one new row with the federated marker, and the session is that row's |
| `App.RecipeApp.Logout` | app.py:353-356 | the session is cleared |
| `App.SignupThenLogin` | app.py:327-344 | a signup succeeds iff the username and e-mail are free, and a login that follows with the same credentials logs in as, and leaves the session on, the new user id |
| `App.CallbackTwice` | app.py:294-313 | a second callback with the same user info gives the same outcome and leaves the users table as the first left it; the first only extends the table, so the two create at most one row |

## Left out

- Flask routing, `render_template`, `jsonify`, redirects and status codes. Handler outcomes are result values. The GET-only routes (`/`, `/auth/google`, the form pages of `/login` and `/signup`) only render or redirect.
- The `mysql.connector` connections, cursors and commits (`app.py:27-28`). These are I/O; the tables are fields. A database error other than a unique-key violation is not modelled.
- The table schema is not part of the source, so it is assumed here:
  - `users.username` and `users.email` are unique;
  - `(user_id, month_year)` is the key of `user_budget`;
  - `shopping_list.purchased` defaults to false;
  - insertion dates are set by the database.
- String comparison is exact. MySQL's usual collations compare case- and accent-insensitively; PAD SPACE collations also ignore trailing spaces.
- Insertion times come from one strictly increasing counter, so `ORDER BY ... DESC` has no ties. MySQL timestamps have one-second resolution, and rows inserted in the same second may come back in either order.
- The Spoonacular request and the passthrough of its JSON (`app.py:156-164`, `app.py:177`) are a network call. SearchRecipes records the activity as if the call returned; in the source, an exception from the call would skip the record.
- The OAuth token exchange (`app.py:284`) is a foreign call. A missing `email` key in the user info (the KeyError at `app.py:288`) is modelled as a return to the login page with nothing changed; any other exception except a failed user insert is not modelled. The user info is an input.
- SHA-256 is abstract. The model assumes only the hex-digest shape: 64 lower-case hex digits.
- `datetime.now()` (`app.py:70`, `app.py:128`). The month key is a parameter and its `YYYY-MM` format is not checked.
- Dashboard: the float figures at `app.py:91-94` are not returned. These are the fixed spent amount, the remainder and the truncated percentage. The recent activities are returned as whole rows, not as the three selected columns.
- Budget.Upsert / UpdateBudget: the amount is stored as an exact real. The Python float and any rounding by the `monthly_budget` column's type (typically DECIMAL(·,2)) are not modelled. If the column rounds, a positive amount below 0.005 is accepted but stored as 0.00, and the next dashboard divides by zero at `app.py:93`.
- UpdateBudget: the amount is a JSON number or missing. A string is parsed by `float()` in the source and may raise; booleans and NaN are also not modelled.
- AddToList: the ingredient is a string. A missing `ingredient` key, which would insert NULL, is not modelled.
- Login and Signup: a missing form field makes `request.form[...]` raise inside the handler (`app.py:247-248`, `app.py:330-332`), before anything has changed; the error response is not modelled.
- The debug prints and `config_template.py`, which holds placeholder constants only.
- The check-then-insert race between concurrent adds. The model is sequential.
