/** The `user_budget` table: one amount per (user, month), created lazily by
    the dashboard and overwritten by update_budget. */
module Budget {
  import opened Rows

  type Budgets = map<BudgetKey, real>

  /** update_budget's validation: `not new_budget or float(new_budget) <= 0`
      rejects, where a missing amount and zero are falsy. */
  function AmountAccepted(amount: Option<real>): (ok: bool)
    ensures ok <==> amount.Some? && amount.value > 0.0
  {
    !(amount.None? || amount.value == 0.0) && !(amount.value <= 0.0)
  }

  /** The dashboard's SELECT, and the INSERT of the default when no row exists:
      returns the month's budget and the table afterwards. */
  function GetOrCreate(budgets: Budgets, key: BudgetKey): (res: (real, Budgets))
    ensures res.1.Keys == budgets.Keys + {key}
    ensures key in res.1 && res.1[key] == res.0
    ensures key in budgets ==> res.0 == budgets[key]
    ensures key !in budgets ==> res.0 == DefaultBudget
    ensures forall k :: k in budgets ==> res.1[k] == budgets[k]
  {
    if key in budgets then (budgets[key], budgets)
    else (DefaultBudget, budgets[key := DefaultBudget])
  }

  /** `INSERT ... ON DUPLICATE KEY UPDATE monthly_budget = %s`. */
  function Upsert(budgets: Budgets, key: BudgetKey, amount: real): (r: Budgets)
    ensures r.Keys == budgets.Keys + {key}
    ensures r[key] == amount
    ensures forall k :: k in budgets && k != key ==> r[k] == budgets[k]
  {
    budgets[key := amount]
  }

  /** Viewing the dashboard twice in a month: same budget, no second row. */
  lemma GetOrCreateTwice(budgets: Budgets, key: BudgetKey)
    ensures var (amount, after) := GetOrCreate(budgets, key);
      GetOrCreate(after, key) == (amount, after)
  {
  }

  /** An update is what the dashboard shows afterwards, and creates nothing more. */
  lemma UpsertThenGetOrCreate(budgets: Budgets, key: BudgetKey, amount: real)
    ensures GetOrCreate(Upsert(budgets, key, amount), key) == (amount, Upsert(budgets, key, amount))
  {
  }

  /** The last update of a month wins. */
  lemma UpsertTwice(budgets: Budgets, key: BudgetKey, first: real, second: real)
    ensures Upsert(Upsert(budgets, key, first), key, second) == Upsert(budgets, key, second)
  {
  }
}
