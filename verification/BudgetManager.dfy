/** The budget manager: a ledger of costs per user, with a breakdown per model and resets
    that fall due by the clock. */
module BudgetManager {
  import opened Options

  /** Only budgets with a duration carry it. */
  datatype Period = Period(days: nat, createdAt: real, lastUpdatedAt: real)

  /** A user's entry; an option is `None` while its key is missing. */
  datatype Budget = Budget(
    total: real, period: Option<Period>, currentCost: Option<real>, modelCost: Option<map<string, real>>)

  type Ledger = map<string, Budget>

  datatype Charge = Charge(model: string, cost: real)

  datatype Outcome = Done | KeyError | ValueError

  // ---------- the effect of each operation on one entry ----------

  function DurationDays(duration: string): Option<nat> {
    if duration == "daily" then Some(1)
    else if duration == "weekly" then Some(7)
    else if duration == "monthly" then Some(28)
    else if duration == "yearly" then Some(365)
    else None
  }

  function Seconds(days: nat): real {
    (days * 24 * 60 * 60) as real
  }

  /** The new entry; an unknown duration raises, but only after the user's old entry has been
      replaced by one without a duration. */
  function NewBudget(total: real, duration: Option<string>, createdAt: real): Budget {
    if duration.Some? && DurationDays(duration.value).Some?
    then Budget(total, Some(Period(DurationDays(duration.value).value, createdAt, createdAt)), None, None)
    else Budget(total, None, None, None)
  }

  function CostOf(b: Budget, model: string): real {
    if b.modelCost.Some? && model in b.modelCost.value then b.modelCost.value[model] else 0.0
  }

  function AddCharge(b: Budget, c: Charge): Budget {
    var current := Some(c.cost + b.currentCost.GetOr(0.0));
    var byModel :=
      if b.modelCost.Some?
      then b.modelCost.value[c.model := c.cost + CostOf(b, c.model)]
      else map[c.model := c.cost];
    b.(currentCost := current, modelCost := Some(byModel))
  }

  function ClearCosts(b: Budget): Budget {
    b.(currentCost := Some(0.0), modelCost := Some(map[]))
  }

  predicate Due(b: Budget, now: real) {
    b.period.Some? && now - b.period.value.lastUpdatedAt >= Seconds(b.period.value.days)
  }

  function ResetIfDue(b: Budget, now: real): Budget {
    if Due(b, now)
    then ClearCosts(b).(period := Some(b.period.value.(lastUpdatedAt := now)))
    else b
  }

  // ---------- the ledger as a state machine ----------

  datatype Op =
    | Create(user: string, total: real, duration: Option<string>, createdAt: real)
    | Update(user: string, charge: Option<Charge>)
    | Reset(user: string)
    | ResetDue(user: string, now: real)
    | UpdateAll(clock: string -> real)

  function NextLedger(l: Ledger, op: Op): Ledger {
    match op
    case Create(u, total, duration, createdAt) => l[u := NewBudget(total, duration, createdAt)]
    case Update(u, charge) => if u in l && charge.Some? then l[u := AddCharge(l[u], charge.value)] else l
    case Reset(u) => if u in l then l[u := ClearCosts(l[u])] else l
    case ResetDue(u, now) => if u in l then l[u := ResetIfDue(l[u], now)] else l
    case UpdateAll(clock) => map u | u in l :: ResetIfDue(l[u], clock(u))
  }

  function LedgerAfter(ops: seq<Op>): Ledger {
    if ops == [] then map[] else NextLedger(LedgerAfter(ops[..|ops| - 1]), ops[|ops| - 1])
  }

  // ---------- the object ----------

  class BudgetManager {
    var userDict: Ledger

    constructor ()
      ensures userDict == map[]
    {
      userDict := map[];
    }

    method CreateBudget(total: real, user: string, duration: Option<string>, createdAt: real) returns (r: Outcome)
      modifies this
      ensures userDict == NextLedger(old(userDict), Create(user, total, duration, createdAt))
      ensures r == if duration.Some? && DurationDays(duration.value).None? then ValueError else Done
      ensures user in userDict && userDict == old(userDict)[user := userDict[user]]
      ensures userDict[user].total == total && userDict[user].currentCost == None && userDict[user].modelCost == None
      ensures
        var days := if duration == Some("daily") then 1 else if duration == Some("weekly") then 7
                    else if duration == Some("monthly") then 28 else if duration == Some("yearly") then 365 else 0;
        && userDict[user].period == (if days == 0 then None else Some(Period(days, createdAt, createdAt)))
        && r == if days == 0 && duration.Some? then ValueError else Done
    {
      userDict := userDict[user := Budget(total, None, None, None)];
      if duration.None? {
        return Done;
      }
      var days := DurationDays(duration.value);
      if days.None? {
        return ValueError;
      }
      userDict := userDict[user := Budget(total, Some(Period(days.value, createdAt, createdAt)), None, None)];
      return Done;
    }

    /** The charge is the priced text if model and both texts are given, else the priced
        completion, else there is none and the call raises. */
    method UpdateCost(user: string, completion: Option<Charge>, model: string, inputText: string, outputText: string,
                      textCost: (string, string, string) -> real) returns (r: Outcome)
      modifies this
      ensures var charge := if model != "" && inputText != "" && outputText != ""
                            then Some(Charge(model, textCost(model, inputText, outputText))) else completion;
        && userDict == NextLedger(old(userDict), Update(user, charge))
        && r == (if charge.None? then ValueError else if user !in old(userDict) then KeyError else Done)
        && (r != Done ==> userDict == old(userDict))
        && (r == Done ==>
              var b, c := old(userDict)[user], charge.value;
              var spent := if b.currentCost.Some? then b.currentCost.value else 0.0;
              var others := if b.modelCost.Some? then b.modelCost.value else map[];
              var onModel := if c.model in others then others[c.model] else 0.0;
              userDict == old(userDict)[user := Budget(b.total, b.period, Some(spent + c.cost),
                                                       Some(others[c.model := onModel + c.cost]))])
    {
      var cost, chargedModel := 0.0, model;
      if model != "" && inputText != "" && outputText != "" {
        cost := textCost(model, inputText, outputText);
      } else if completion.Some? {
        cost, chargedModel := completion.value.cost, completion.value.model;
      } else {
        return ValueError;
      }
      if user !in userDict {
        return KeyError;
      }
      var b := userDict[user];
      userDict := userDict[user := b.(currentCost := Some(cost + b.currentCost.GetOr(0.0)))];
      if b.modelCost.Some? {
        var byModel := b.modelCost.value;
        var before := if chargedModel in byModel then byModel[chargedModel] else 0.0;
        userDict := userDict[user := userDict[user].(modelCost := Some(byModel[chargedModel := cost + before]))];
      } else {
        userDict := userDict[user := userDict[user].(modelCost := Some(map[chargedModel := cost]))];
      }
      return Done;
    }

    method ResetCost(user: string) returns (r: Outcome)
      modifies this
      ensures userDict == NextLedger(old(userDict), Reset(user))
      ensures user in old(userDict) ==>
        userDict == old(userDict)[user := old(userDict)[user].(currentCost := Some(0.0), modelCost := Some(map[]))]
      ensures user !in old(userDict) ==> userDict == old(userDict)
      ensures r == if user in old(userDict) then Done else KeyError
    {
      if user !in userDict {
        return KeyError;
      }
      userDict := userDict[user := userDict[user].(currentCost := Some(0.0))];
      userDict := userDict[user := userDict[user].(modelCost := Some(map[]))];
      return Done;
    }

    method ResetOnDuration(user: string, now: real) returns (r: Outcome)
      modifies this
      ensures userDict == NextLedger(old(userDict), ResetDue(user, now))
      ensures user in old(userDict) && old(userDict)[user].period.Some? ==>
        var b := old(userDict)[user];
        var p := b.period.value;
        if now - p.lastUpdatedAt >= (p.days * 86400) as real
        then
          var renewed := Budget(b.total, Some(Period(p.days, p.createdAt, now)), Some(0.0), Some(map[]));
          userDict == old(userDict)[user := renewed]
        else userDict == old(userDict)
      ensures !(user in old(userDict) && old(userDict)[user].period.Some?) ==> userDict == old(userDict)
      ensures r == if user in old(userDict) && old(userDict)[user].period.Some? then Done else KeyError
    {
      if user !in userDict || userDict[user].period.None? {
        return KeyError;
      }
      var period := userDict[user].period.value;
      if now - period.lastUpdatedAt >= Seconds(period.days) {
        var _ := ResetCost(user);
        userDict := userDict[user := userDict[user].(period := Some(period.(lastUpdatedAt := now)))];
      }
      return Done;
    }

    /** Visits the users in any order; `clock(u)` is the time read for user `u`. */
    method UpdateBudgetAllUsers(clock: string -> real)
      modifies this
      ensures userDict == NextLedger(old(userDict), UpdateAll(clock))
      ensures forall u :: u in userDict && userDict[u].period.Some? ==>
        clock(u) - userDict[u].period.value.lastUpdatedAt < (userDict[u].period.value.days * 86400) as real
        || userDict[u].period.value.days == 0
      ensures userDict.Keys == old(userDict).Keys
      ensures forall u :: u in old(userDict) ==>
        var b := old(userDict)[u];
        if b.period.Some? && clock(u) - b.period.value.lastUpdatedAt >= (b.period.value.days * 86400) as real
        then userDict[u] == Budget(b.total, Some(b.period.value.(lastUpdatedAt := clock(u))), Some(0.0), Some(map[]))
        else userDict[u] == b
    {
      var users := userDict.Keys;
      while users != {}
        invariant userDict.Keys == old(userDict).Keys && users <= userDict.Keys
        invariant forall u :: u in users ==> userDict[u] == old(userDict)[u]
        invariant forall u :: u in userDict && u !in users ==> userDict[u] == ResetIfDue(old(userDict)[u], clock(u))
        decreases |users|
      {
        var user :| user in users;
        if userDict[user].period.Some? {
          var _ := ResetOnDuration(user, clock(user));
        }
        users := users - {user};
      }
    }
  }

  // ---------- sums ----------

  ghost function Sum(m: map<string, real>): real
    decreases |m|
  {
    if m == map[] then 0.0
    else
      var k :| k in m;
      FewerKeys(m, k);
      m[k] + Sum(m - {k})
  }

  lemma FewerKeys(m: map<string, real>, k: string)
    requires k in m
    ensures |m - {k}| < |m|
  {
    assert (m - {k}).Keys == m.Keys - {k};
  }

  lemma {:induction false} SumWithout(m: map<string, real>, k: string)
    requires k in m
    ensures Sum(m) == m[k] + Sum(m - {k})
    decreases |m|
  {
    var x :| x in m && Sum(m) == m[x] + Sum(m - {x});
    if x != k {
      FewerKeys(m, x);
      FewerKeys(m, k);
      SumWithout(m - {x}, k);
      SumWithout(m - {k}, x);
      assert m - {x} - {k} == m - {k} - {x};
    }
  }

  lemma SumUpdate(m: map<string, real>, k: string, v: real)
    ensures Sum(m[k := v]) == Sum(m) - (if k in m then m[k] else 0.0) + v
  {
    SumWithout(m[k := v], k);
    if k in m {
      SumWithout(m, k);
      assert m[k := v] - {k} == m - {k};
    } else {
      assert m[k := v] - {k} == m;
    }
  }

  function TotalCharged(charges: seq<Charge>): real {
    if charges == [] then 0.0 else TotalCharged(charges[..|charges| - 1]) + charges[|charges| - 1].cost
  }

  function ChargedTo(charges: seq<Charge>, model: string): real {
    if charges == [] then 0.0
    else
      var last := charges[|charges| - 1];
      ChargedTo(charges[..|charges| - 1], model) + if last.model == model then last.cost else 0.0
  }

  // ---------- runs ----------

  /** One user's entry with its history: the charges since the last create or reset, and the
      number of timed resets since the last create. */
  datatype Account = Account(budget: Budget, charges: seq<Charge>, resets: nat)

  function Tick(a: Account, now: real): Account {
    Account(ResetIfDue(a.budget, now), if Due(a.budget, now) then [] else a.charges,
            a.resets + if Due(a.budget, now) then 1 else 0)
  }

  /** The account of `user` after an operation; `None` while the user has none. */
  function NextAccount(a: Option<Account>, user: string, op: Op): Option<Account> {
    match op
    case Create(u, total, duration, createdAt) =>
      if u == user then Some(Account(NewBudget(total, duration, createdAt), [], 0)) else a
    case Update(u, charge) =>
      if u == user && a.Some? && charge.Some?
      then Some(a.value.(budget := AddCharge(a.value.budget, charge.value),
                         charges := a.value.charges + [charge.value]))
      else a
    case Reset(u) =>
      if u == user && a.Some? then Some(a.value.(budget := ClearCosts(a.value.budget), charges := [])) else a
    case ResetDue(u, now) =>
      if u == user && a.Some? then Some(Tick(a.value, now)) else a
    case UpdateAll(clock) =>
      if a.Some? then Some(Tick(a.value, clock(user))) else a
  }

  function AccountAfter(ops: seq<Op>, user: string): Option<Account> {
    if ops == [] then None
    else NextAccount(AccountAfter(ops[..|ops| - 1], user), user, ops[|ops| - 1])
  }

  /** The ledger is one account per user: an operation affects the users it names and leaves
      every other one as it was. */
  lemma {:induction false} LedgerIsAccounts(ops: seq<Op>, user: string)
    ensures user in LedgerAfter(ops) <==> AccountAfter(ops, user).Some?
    ensures user in LedgerAfter(ops) ==> LedgerAfter(ops)[user] == AccountAfter(ops, user).value.budget
  {
    if ops != [] {
      LedgerIsAccounts(ops[..|ops| - 1], user);
    }
  }

  /** A user's current cost is what was charged since the last create or reset, and the
      breakdown says how much of it went to each model. */
  ghost predicate AddsUp(a: Account) {
    && a.budget.currentCost.GetOr(0.0) == TotalCharged(a.charges)
    && a.budget.currentCost.GetOr(0.0) == Sum(a.budget.modelCost.GetOr(map[]))
    && forall m :: CostOf(a.budget, m) == ChargedTo(a.charges, m)
  }

  lemma ChargeAddsUp(a: Account, c: Charge)
    requires AddsUp(a)
    ensures AddsUp(a.(budget := AddCharge(a.budget, c), charges := a.charges + [c]))
  {
    assert (a.charges + [c])[..|a.charges|] == a.charges;
    SumUpdate(a.budget.modelCost.GetOr(map[]), c.model, c.cost + CostOf(a.budget, c.model));
    assert map[c.model := c.cost] == map[][c.model := c.cost];
    forall m ensures CostOf(AddCharge(a.budget, c), m) == CostOf(a.budget, m) + if m == c.model then c.cost else 0.0 {
    }
  }

  /** Conservation over every run of operations and every user. */
  lemma {:induction false} CostsAddUp(ops: seq<Op>, user: string)
    ensures AccountAfter(ops, user).Some? ==> AddsUp(AccountAfter(ops, user).value)
  {
    if ops != [] {
      var init, op := ops[..|ops| - 1], ops[|ops| - 1];
      CostsAddUp(init, user);
      var a := AccountAfter(init, user);
      if op.Update? && op.user == user && a.Some? && op.charge.Some? {
        ChargeAddsUp(a.value, op.charge.value);
      }
    }
  }

  // ---------- timed resets ----------

  /** The length of `k` periods. */
  function Span(k: nat, days: nat): real {
    k as real * Seconds(days)
  }

  lemma OneMorePeriod(k: nat, days: nat)
    ensures Span(k + 1, days) == Span(k, days) + Seconds(days)
  {
    var x, d := k as real, Seconds(days);
    assert (k + 1) as real == x + 1.0;
    assert (x + 1.0) * d == x * d + d;
  }

  /** Timed resets happen only to budgets with a duration, and are a period apart. */
  ghost predicate Spaced(a: Account) {
    match a.budget.period
    case None => a.resets == 0
    case Some(p) =>
      && p.days > 0
      && p.lastUpdatedAt >= p.createdAt + Span(a.resets, p.days)
  }

  lemma TickKeepsSpacing(a: Account, now: real)
    requires Spaced(a)
    ensures Spaced(Tick(a, now))
  {
    if Due(a.budget, now) {
      OneMorePeriod(a.resets, a.budget.period.value.days);
    }
  }

  /** After k timed resets, a budget was last updated at least k periods after it was
      created, whatever the clock does. */
  lemma {:induction false} ResetsAreSpaced(ops: seq<Op>, user: string)
    ensures AccountAfter(ops, user).Some? ==> Spaced(AccountAfter(ops, user).value)
  {
    if ops != [] {
      var init, op := ops[..|ops| - 1], ops[|ops| - 1];
      ResetsAreSpaced(init, user);
      var a := AccountAfter(init, user);
      if a.Some? {
        if op.ResetDue? { TickKeepsSpacing(a.value, op.now); }
        if op.UpdateAll? { TickKeepsSpacing(a.value, op.clock(user)); }
      }
    }
  }

  /** No clock value used for the user is later than `t`. */
  ghost predicate ReadBy(ops: seq<Op>, user: string, t: real) {
    forall op :: op in ops ==>
      && (op.Create? ==> op.createdAt <= t)
      && (op.ResetDue? ==> op.now <= t)
      && (op.UpdateAll? ==> op.clock(user) <= t)
  }

  lemma {:induction false} UpdatedBy(ops: seq<Op>, user: string, t: real)
    requires ReadBy(ops, user, t)
    ensures AccountAfter(ops, user).Some? && AccountAfter(ops, user).value.budget.period.Some?
        ==> AccountAfter(ops, user).value.budget.period.value.lastUpdatedAt <= t
  {
    if ops != [] {
      assert ops[|ops| - 1] in ops;
      UpdatedBy(ops[..|ops| - 1], user, t);
    }
  }

  /** By any time, at most as many timed resets have happened as whole periods have passed
      since the budget was created. */
  lemma ResetsAreBounded(ops: seq<Op>, user: string, t: real)
    requires ReadBy(ops, user, t)
    requires AccountAfter(ops, user).Some? && AccountAfter(ops, user).value.budget.period.Some?
    ensures var a := AccountAfter(ops, user).value; var p := a.budget.period.value;
      Span(a.resets, p.days) <= t - p.createdAt
  {
    ResetsAreSpaced(ops, user);
    UpdatedBy(ops, user, t);
    var a := AccountAfter(ops, user).value;
    var p := a.budget.period.value;
    var elapsed := Span(a.resets, p.days);
    assert p.lastUpdatedAt >= p.createdAt + elapsed;
  }

  /** After updating all users, every budget with a duration is within one period of its
      last update, by the clock value read for its user. */
  lemma NothingIsOverdue(ops: seq<Op>, clock: string -> real, user: string)
    requires user in LedgerAfter(ops + [UpdateAll(clock)])
    ensures var period := LedgerAfter(ops + [UpdateAll(clock)])[user].period;
      period.Some? ==> clock(user) - period.value.lastUpdatedAt < (period.value.days * 86400) as real
  {
    var all := ops + [UpdateAll(clock)];
    assert all[..|all| - 1] == ops;
    LedgerIsAccounts(ops, user);
    ResetsAreSpaced(ops, user);
  }
}
