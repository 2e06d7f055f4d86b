/** The rows of the application's four tables, the session record and the
    constants that app.py hard-codes. */
module Rows {

  datatype Option<+T> = None | Some(value: T)

  type UserId = nat

  /** A row of `users`; `password` holds a digest or the federated-login marker. */
  datatype User = User(id: UserId, username: string, email: string, password: string)

  datatype ActivityKind = Search | AddToList

  /** A row of `user_activity`; `date` is the insertion time. */
  datatype Activity = Activity(userId: UserId, kind: ActivityKind, details: string, date: nat)

  /** A row of `shopping_list`; the list is shared by all users. */
  datatype Item = Item(id: nat, name: string, purchased: bool, dateAdded: nat)

  /** The composite key of `user_budget`: a user and a `YYYY-MM` month. */
  datatype BudgetKey = BudgetKey(userId: UserId, month: string)

  /** What a logged-in session carries. */
  datatype SessionInfo = SessionInfo(userId: UserId, username: string, email: string)

  /** Budget inserted by the dashboard for a month that has none yet. */
  const DefaultBudget: real := 3000.0

  /** Password column value of accounts created by federated login. */
  const OAuthPassword: string := "google_oauth"

  /** Number of activities the dashboard shows. */
  const RecentLimit: nat := 5

  /** Results requested per recipe search, also the dashboard's estimate factor. */
  const RecipesPerSearch: nat := 6

  /** The three session keys that login writes from a user row. */
  function SessionOf(u: User): SessionInfo
  {
    SessionInfo(u.id, u.username, u.email)
  }
}

/** Sequence helpers shared by the queries. */
module Seqs {

  /** `ORDER BY ... DESC` over rows kept in ascending order. */
  function Reverse<T>(s: seq<T>): (r: seq<T>)
    ensures |r| == |s|
    ensures forall k :: 0 <= k < |s| ==> r[k] == s[|s| - 1 - k]
    ensures multiset(r) == multiset(s)
  {
    if s == [] then []
    else
      assert s == [s[0]] + s[1..];
      Reverse(s[1..]) + [s[0]]
  }

  lemma {:induction false} ReverseAppend<T>(s: seq<T>, x: T)
    ensures Reverse(s + [x]) == [x] + Reverse(s)
  {
    var r, e := Reverse(s + [x]), [x] + Reverse(s);
    assert |r| == |e|;
    forall k | 0 <= k < |r| ensures r[k] == e[k] {
      if k > 0 {
        assert (s + [x])[|s| - k] == s[|s| - k];
      }
    }
  }
}
