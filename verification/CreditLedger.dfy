/**
 * The two-field credit ledger (backend/credit_service.py, backend/admin/users.py): plan credits used and overage.
 */
module CreditLedger {
  import opened Numbers
  import opened Text
  import opened BillingCycle

  datatype Balance = Balance(plan: string, allowance: nat, used: int, overage: int,
                             cycleStart: int, cycleEnd: int, cap: Option<int>)

  const FREE_PLAN: string := "free"
  const FREE_ALLOWANCE := 1_000

  function NewBalance(at: Instant): Balance {
    Balance(FREE_PLAN, FREE_ALLOWANCE, 0, 0, at.cycleStart, at.cycleEnd, None)
  }

  /** The auto-reset of `get_or_create_balance`. */
  function Renew(b: Balance, at: Instant): Balance {
    if at.now > b.cycleEnd then b.(used := 0, overage := 0, cycleStart := at.cycleStart, cycleEnd := at.cycleEnd) else b
  }

  function Record(b: Balance, charged: nat): Balance {
    var remaining := b.allowance - b.used;
    if remaining >= charged then b.(used := b.used + charged)
    else
      var planPortion := Max(0, remaining);
      b.(used := b.used + planPortion, overage := b.overage + (charged - planPortion))
  }

  /** `check_credits`: may the next interaction start? */
  predicate Allowed(b: Balance) {
    var remaining := b.allowance - b.used;
    if b.cap.Some? && b.plan != FREE_PLAN && remaining <= 0 && b.cap.value - b.overage <= 0 then false
    else remaining > 0 || b.plan != FREE_PLAN
  }

  /** `adjust_user_credits`: the new balance and the applied amount; positive amounts give credits back. */
  function Adjust(b: Balance, amount: int): (Balance, int) {
    if amount >= 0 then
      var toOverage := Min(b.overage, amount);
      var toUsage := Min(b.used, amount - toOverage);
      (Clamp(b.(overage := b.overage - toOverage, used := b.used - toUsage)), toOverage + toUsage)
    else
      var increase := -amount;
      var toUsage := Min(Max(b.allowance - b.used, 0), increase);
      (Clamp(b.(used := b.used + toUsage, overage := b.overage + (increase - toUsage))), -increase)
  }

  function Clamp(b: Balance): Balance {
    b.(used := Max(0, Min(b.used, b.allowance)), overage := Max(0, b.overage))
  }

  // ----- One counter behind the two fields -----

  function Total(b: Balance): int { b.used + b.overage }

  /** Plan credits first, overage only once they are spent. */
  predicate Canonical(b: Balance) {
    Total(b) >= 0 && b.used == Min(Total(b), b.allowance) && b.overage == Max(0, Total(b) - b.allowance)
  }

  datatype Op = OpUsage(at: Instant, charged: nat) | OpCheck(at: Instant) | OpAdjust(amount: int)

  function Apply(b: Balance, op: Op): Balance {
    match op
    case OpUsage(at, charged) => Record(Renew(b, at), charged)
    case OpCheck(at) => Renew(b, at)
    case OpAdjust(amount) => Adjust(b, amount).0
  }

  function Run(b: Balance, ops: seq<Op>): Balance
    decreases |ops|
  {
    if ops == [] then b else Run(Apply(b, ops[0]), ops[1..])
  }

  /** The specification: one running total and the end of its cycle. */
  datatype Counter = Counter(total: int, cycleEnd: int)

  function Tick(c: Counter, at: Instant): Counter {
    if at.now > c.cycleEnd then Counter(0, at.cycleEnd) else c
  }

  function Count(c: Counter, op: Op): Counter {
    match op
    case OpUsage(at, charged) => Tick(c, at).(total := Tick(c, at).total + charged)
    case OpCheck(at) => Tick(c, at)
    case OpAdjust(amount) => c.(total := Max(0, c.total - amount))
  }

  function CountAll(c: Counter, ops: seq<Op>): Counter
    decreases |ops|
  {
    if ops == [] then c else CountAll(Count(c, ops[0]), ops[1..])
  }

  lemma ApplyCounts(b: Balance, op: Op)
    requires Canonical(b)
    ensures var b' := Apply(b, op);
      && Canonical(b') && b'.allowance == b.allowance && b'.plan == b.plan && b'.cap == b.cap
      && Counter(Total(b'), b'.cycleEnd) == Count(Counter(Total(b), b.cycleEnd), op)
  {
  }

  /** For a fixed allowance every run of usage, checks and adjustments is one counter split at the allowance. */
  lemma {:induction false} LedgerRefinesCounter(b: Balance, ops: seq<Op>)
    requires Canonical(b)
    ensures var c, b' := CountAll(Counter(Total(b), b.cycleEnd), ops), Run(b, ops);
      && b'.used == Min(c.total, b.allowance) && b'.overage == Max(0, c.total - b.allowance)
      && b'.cycleEnd == c.cycleEnd && Canonical(b') && b'.allowance == b.allowance
    decreases |ops|
  {
    if ops != [] {
      ApplyCounts(b, ops[0]);
      LedgerRefinesCounter(Apply(b, ops[0]), ops[1..]);
    }
  }

  /** An adjustment is undone by adjusting with minus the applied amount. */
  lemma AdjustmentUndone(b: Balance, amount: int)
    requires Canonical(b)
    ensures var (b', applied) := Adjust(b, amount); Adjust(b', -applied).0 == b
  {
  }

  /**
   * The applied amount is what the total moved by exactly when the closing clamp has nothing to cut off: the used
   * credits fit the allowance (they need not, after a plan downgrade), or a credit covers the overage and the excess.
   */
  lemma AdjustConservesIff(b: Balance, amount: int)
    requires b.used >= 0 && b.overage >= 0
    ensures var (b', applied) := Adjust(b, amount);
      Total(b') == Total(b) - applied <==> b.used <= b.allowance || amount >= b.overage + (b.used - b.allowance)
  {
  }

  /** On a downgraded balance even an adjustment by nothing cuts the excess off. */
  lemma DowngradeLosesCredits(b: Balance)
    requires b.used > b.allowance && b.overage >= 0
    ensures Adjust(b, 0).1 == 0 && Total(Adjust(b, 0).0) == Total(b) - (b.used - b.allowance)
  {
  }

  /** `update_user_plan`: the balance is read (and so renewed), then given the new plan and allowance. */
  function ChangePlan(b: Balance, at: Instant, plan: string, allowance: nat): Balance {
    Renew(b, at).(plan := plan, allowance := allowance)
  }

  /** A plan change keeps the canonical form exactly if the allowance stays or both allowances cover what was used. */
  lemma PlanChangeIff(b: Balance, at: Instant, plan: string, allowance: nat)
    requires Canonical(b)
    ensures Canonical(ChangePlan(b, at, plan, allowance))
       <==> allowance == b.allowance || Total(Renew(b, at)) <= Min(allowance, b.allowance)
  {
  }

  /** A new balance, its allowance used up, and a plan with less: canonical until the change, and over it afterwards. */
  lemma DowngradeReached(at: Instant, plan: string, allowance: nat)
    requires at.now <= at.cycleEnd && allowance < FREE_ALLOWANCE
    ensures var b := Record(NewBalance(at), FREE_ALLOWANCE);
            var down := ChangePlan(b, at, plan, allowance);
      && Canonical(b) && down.used > down.allowance && down.overage == 0
      && Total(Adjust(down, 0).0) == Total(down) - (FREE_ALLOWANCE - allowance)
  {
    DowngradeLosesCredits(ChangePlan(Record(NewBalance(at), FREE_ALLOWANCE), at, plan, allowance));
  }

  // ----- Spending limits -----

  /** A charge is recorded only after an allowed check; credits may be given back at any time. */
  datatype Spend = Spend(checkAt: Instant, recordAt: Instant, charged: nat) | GiveBack(amount: nat)

  function DoSpend(b: Balance, s: Spend): Balance {
    match s
    case Spend(checkAt, recordAt, charged) =>
      var checked := Renew(b, checkAt);
      if Allowed(checked) then Record(Renew(checked, recordAt), charged) else checked
    case GiveBack(amount) => Adjust(b, amount).0
  }

  function SpendAll(b: Balance, spends: seq<Spend>): Balance
    decreases |spends|
  {
    if spends == [] then b else SpendAll(DoSpend(b, spends[0]), spends[1..])
  }

  /** What no run of guarded charges of at most c exceeds. */
  predicate WithinLimits(b: Balance, c: nat) {
    && (b.plan == FREE_PLAN ==> Total(b) <= b.allowance + c - 1)
    && (b.plan != FREE_PLAN && b.cap.Some? ==> b.overage <= Max(0, b.cap.value) + c - 1)
  }

  lemma {:induction false} GuardedSpendingIsLimited(b: Balance, spends: seq<Spend>, c: nat)
    requires c >= 1 && Canonical(b) && WithinLimits(b, c)
    requires forall s | s in spends :: s.Spend? ==> s.charged <= c
    ensures Canonical(SpendAll(b, spends)) && WithinLimits(SpendAll(b, spends), c)
    decreases |spends|
  {
    if spends != [] {
      assert spends[0] in spends;
      SpendStep(b, spends[0], c);
      GuardedSpendingIsLimited(DoSpend(b, spends[0]), spends[1..], c);
    }
  }

  lemma SpendStep(b: Balance, s: Spend, c: nat)
    requires c >= 1 && Canonical(b) && WithinLimits(b, c) && (s.Spend? ==> s.charged <= c)
    ensures Canonical(DoSpend(b, s)) && WithinLimits(DoSpend(b, s), c)
  {
  }

  /** The limits are attained: one credit short of the limit, a charge of c is still allowed. */
  lemma LimitsAreTight(b: Balance, at: Instant, c: nat)
    requires c >= 1 && Canonical(b) && at.now <= b.cycleEnd
    ensures b.plan == FREE_PLAN && Total(b) == b.allowance - 1 ==>
              Total(DoSpend(b, Spend(at, at, c))) == b.allowance + c - 1
    ensures (b.plan != FREE_PLAN && b.cap.Some? && b.cap.value >= 1 && b.overage == b.cap.value - 1
             && b.used == b.allowance)
            ==> DoSpend(b, Spend(at, at, c)).overage == b.cap.value + c - 1
  {
  }

  /**
   * The check in terms of the one counter: the free plan has its allowance, a paid plan with a cap its allowance and
   * the cap, and a paid plan without a cap is always allowed.
   */
  lemma AllowedIff(b: Balance)
    requires Canonical(b)
    ensures Allowed(b) <==> if b.plan == FREE_PLAN then Total(b) < b.allowance
                            else b.cap.Some? ==> Total(b) < b.allowance + Max(0, b.cap.value)
  {
  }

  /** A plan change takes effect at the next check: the new plan decides, the new allowance is what is left to use. */
  lemma PlanChangeDecides(b: Balance, at: Instant, plan: string, allowance: nat)
    requires b.used >= 0
    ensures var c := ChangePlan(b, at, plan, allowance);
      && c.used + c.overage == (if at.now > b.cycleEnd then 0 else b.used + b.overage) && c.cap == b.cap
      && (plan == FREE_PLAN ==> (Allowed(c) <==> c.used < allowance))
      && (plan != FREE_PLAN && b.cap == None ==> Allowed(c))
      && (plan != FREE_PLAN && b.cap.Some? ==> (Allowed(c) <==> c.used < allowance || c.overage < b.cap.value))
  {
  }

  // ----- Renewal -----

  /** The balance carries the cycle of the instant's month. */
  predicate CycleOf(b: Balance, i: Instant) {
    b.cycleStart == i.cycleStart && b.cycleEnd == i.cycleEnd
  }

  lemma RenewedCycle(b: Balance, before: Instant, at: Instant)
    requires HasCycleBounds(before) && HasCycleBounds(at) && before.now <= at.now && CycleOf(b, before)
    ensures CycleOf(Renew(b, at), at)
  {
    MonthContains(before.now);
    MonthContains(at.now);
    if at.now <= b.cycleEnd {
      SameMonth(before.now, at.now);
    }
  }

  /** A charge recorded in the present cycle survives the next read exactly if the cycle is not over. */
  lemma ChargeSurvives(r: Balance, at: Instant, charged: nat)
    requires CycleOf(r, at) && charged > 0 && r.used >= 0 && r.overage >= 0
    ensures Renew(Record(r, charged), at) == Record(r, charged) <==> at.now <= at.cycleEnd
    ensures at.now > at.cycleEnd ==> Total(Renew(Record(r, charged), at)) == 0
  {
    assert Total(Record(r, charged)) == Total(r) + charged;
  }

  /**
   * Reading a balance puts the present instant inside its cycle, and a charge recorded then survives the next read
   * at the same instant, exactly when the instant is outside its month's final open second. Inside that second the
   * balance looks expired on every read, and each read wipes what was charged.
   */
  lemma RenewalIff(b: Balance, before: Instant, at: Instant, charged: nat)
    requires HasCycleBounds(before) && HasCycleBounds(at) && before.now <= at.now && CycleOf(b, before)
    requires charged > 0 && b.used >= 0 && b.overage >= 0
    ensures var r := Renew(b, at);
      && (r.cycleStart <= at.now <= r.cycleEnd <==> !FinalOpenSecond(at.now))
      && (Renew(Record(r, charged), at) == Record(r, charged) <==> !FinalOpenSecond(at.now))
  {
    RenewedCycle(b, before, at);
    OpenIff(at);
    ChargeSurvives(Renew(b, at), at, charged);
  }

  lemma OpenIff(at: Instant)
    requires HasCycleBounds(at)
    ensures at.cycleStart <= at.now && (at.now > at.cycleEnd <==> FinalOpenSecond(at.now))
  {
    MonthContains(at.now);
  }

  /** In every month a balance created in the final open second loses each charge at the next read. */
  lemma OpenSecondWipes(now: int, charged: nat)
    requires Representable(now) && charged > 0
    ensures var last := NextStart(now) - 1;
      && Representable(last)
      && var at := InstantAt(last);
         var b := NewBalance(at);
         && CycleOf(b, at) && FinalOpenSecond(at.now)
         && Total(Record(Renew(b, at), charged)) == charged
         && Total(Renew(Record(Renew(b, at), charged), at)) == 0
  {
    FinalOpenSecondExists(now);
    var at := InstantAt(NextStart(now) - 1);
    OpenIff(at);
    WipedWhenOver(at, charged);
  }

  lemma WipedWhenOver(at: Instant, charged: nat)
    requires at.now > at.cycleEnd && charged > 0
    ensures var b := NewBalance(at);
      && Total(Record(Renew(b, at), charged)) == charged
      && Total(Renew(Record(Renew(b, at), charged), at)) == 0
  {
    ChargeSurvives(Renew(NewBalance(at), at), at, charged);
  }

  // ----- The record updated in place -----

  class CreditBalance {
    var plan: string
    var allowance: nat
    var used: int
    var overage: int
    var cycleStart: int
    var cycleEnd: int
    var cap: Option<int>

    ghost function View(): Balance
      reads this
    {
      Balance(plan, allowance, used, overage, cycleStart, cycleEnd, cap)
    }

    /** The row `get_or_create_balance` adds for a user without one. */
    constructor (at: Instant)
      ensures View() == NewBalance(at) && Canonical(View())
    {
      plan, allowance, used, overage, cap := FREE_PLAN, FREE_ALLOWANCE, 0, 0, None;
      cycleStart, cycleEnd := at.cycleStart, at.cycleEnd;
    }

    /** `at` is the present instant with the bounds of its month. */
    method ResetIfExpired(at: Instant)
      modifies this
      ensures View() == Renew(old(View()), at)
    {
      if at.now > cycleEnd {
        used, overage := 0, 0;
        cycleStart, cycleEnd := at.cycleStart, at.cycleEnd;
      }
    }

    method CheckCredits(at: Instant) returns (allowed: bool, remaining: int)
      modifies this
      ensures View() == Renew(old(View()), at)
      ensures allowed <==> Allowed(View())
      ensures remaining == Max(0, allowance - used)
    {
      ResetIfExpired(at);
      var left := allowance - used;
      allowed := left > 0 || plan != FREE_PLAN;
      if cap.Some? && plan != FREE_PLAN {
        var overageRoom := cap.value - overage;
        if left <= 0 && overageRoom <= 0 {
          allowed := false;
        }
      }
      remaining := Max(0, left);
    }

    method RecordUsage(at: Instant, charged: nat)
      modifies this
      ensures View() == Apply(old(View()), OpUsage(at, charged))
      ensures used + overage == (if at.now > old(cycleEnd) then 0 else old(used) + old(overage)) + charged
      ensures old(Canonical(View())) ==> Canonical(View())
    {
      ResetIfExpired(at);
      var remaining := allowance - used;
      if remaining >= charged {
        used := used + charged;
      } else {
        var planPortion := Max(0, remaining);
        var overagePortion := charged - planPortion;
        used := used + planPortion;
        overage := overage + overagePortion;
      }
    }

    method UpdateUserPlan(at: Instant, newPlan: string, newAllowance: nat)
      modifies this
      ensures View() == ChangePlan(old(View()), at, newPlan, newAllowance)
    {
      ResetIfExpired(at);
      plan, allowance := newPlan, newAllowance;
    }

    method AdjustUserCredits(amount: int) returns (applied: int)
      modifies this
      ensures (View(), applied) == Adjust(old(View()), amount)
      ensures old(Canonical(View())) ==> Canonical(View()) && used + overage == old(used) + old(overage) - applied
    {
      if amount >= 0 {
        var reduction := amount;
        var toOverage := Min(overage, reduction);
        overage := overage - toOverage;
        reduction := reduction - toOverage;
        var toUsage := Min(used, reduction);
        used := used - toUsage;
        applied := toOverage + toUsage;
      } else {
        var increase := -amount;
        var remaining := Max(allowance - used, 0);
        var toUsage := Min(remaining, increase);
        used := used + toUsage;
        var toOverage := increase - toUsage;
        overage := overage + toOverage;
        applied := -(toUsage + toOverage);
      }
      used := Max(0, Min(used, allowance));
      overage := Max(0, overage);
    }
  }
}
