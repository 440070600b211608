/** Charging tokens in whole credits (backend/credit_rates.py). Python floats are modelled as reals. */
module CreditRates {
  import opened Numbers

  datatype Rate = Rate(input: real, output: real)

  /** The rate table: provider, then model. */
  type Table = map<string, map<string, Rate>>

  const FALLBACK := Rate(1.0, 5.0)

  function GetRate(table: Table, provider: string, model: string): Rate {
    var p := if provider == "chronos" then "openrouter" else provider;
    if p in table && model in table[p] then table[p][model] else FALLBACK
  }

  /** `math.ceil`: the only integer n with n - 1 < x <= n. */
  function Ceil(x: real): (n: int)
    ensures (n - 1) as real < x <= n as real
  {
    if x.Floor as real == x then x.Floor else x.Floor + 1
  }

  datatype Charge = Charge(exact: real, charged: int, rawCost: real)

  function Exact(rate: Rate, input: int, output: int): real {
    input as real / 1000.0 * rate.input + output as real / 1000.0 * rate.output
  }

  function ChargeFor(rate: Rate, input: int, output: int): Charge {
    var exact := Exact(rate, input, output);
    if exact <= 0.0 then Charge(0.0, 0, 0.0) else Charge(exact, Max(1, Ceil(exact)), exact / 1.4 * 0.001)
  }

  function CalculateCredits(table: Table, provider: string, model: string, input: int, output: int): Charge {
    ChargeFor(GetRate(table, provider, model), input, output)
  }

  /** A charge never falls short of the exact credits and exceeds them by less than one. */
  lemma ChargeBounds(rate: Rate, input: int, output: int)
    ensures var c := ChargeFor(rate, input, output); c.exact <= c.charged as real < c.exact + 1.0
  {
    var exact := Exact(rate, input, output);
    if exact > 0.0 {
      var n := Ceil(exact);
      assert n as real > 0.0;
    }
  }

  datatype Usage = Usage(provider: string, model: string, input: int, output: int)

  function TotalExact(table: Table, calls: seq<Usage>): real {
    if calls == [] then 0.0
    else CalculateCredits(table, calls[0].provider, calls[0].model, calls[0].input, calls[0].output).exact
         + TotalExact(table, calls[1..])
  }

  function TotalCharged(table: Table, calls: seq<Usage>): int {
    if calls == [] then 0
    else CalculateCredits(table, calls[0].provider, calls[0].model, calls[0].input, calls[0].output).charged
         + TotalCharged(table, calls[1..])
  }

  /** Over n calls, whatever the models, the charges cover the exact credits and exceed them by less than n. */
  lemma {:induction false} RoundingOverCalls(table: Table, calls: seq<Usage>)
    ensures TotalExact(table, calls) <= TotalCharged(table, calls) as real
    ensures calls != [] ==> (TotalCharged(table, calls) as real) < TotalExact(table, calls) + |calls| as real
  {
    if calls != [] {
      var c := calls[0];
      RoundingOverCalls(table, calls[1..]);
      ChargeBounds(GetRate(table, c.provider, c.model), c.input, c.output);
      if calls[1..] == [] {
        assert TotalCharged(table, calls[1..]) == 0;
      }
    }
  }

  // ----- Looking up a rate -----

  /** A listed model is charged its own rate, one of chronos that of openrouter, any other 1 and 5 per thousand. */
  lemma RateFound(table: Table, provider: string, model: string)
    ensures GetRate(table, "chronos", model) == GetRate(table, "openrouter", model)
    ensures provider != "chronos" && provider in table && model in table[provider] ==>
              GetRate(table, provider, model) == table[provider][model]
    ensures provider != "chronos" && (provider !in table || model !in table[provider]) ==>
              GetRate(table, provider, model) == Rate(1.0, 5.0)
  {
  }

  /** Rates are per thousand tokens of each side; the raw cost is a thousandth of a credit less the 1.4 margin. */
  lemma PerThousand(table: Table, provider: string, model: string, input: nat, output: nat)
    ensures var rate := GetRate(table, provider, model);
            var c := CalculateCredits(table, provider, model, 1000 * input, 1000 * output);
      && (NonNegative(rate) ==> c.exact == input as real * rate.input + output as real * rate.output)
      && c.exact == c.rawCost * 1400.0
  {
    var rate := GetRate(table, provider, model);
    assert (1000 * input) as real / 1000.0 == input as real && (1000 * output) as real / 1000.0 == output as real;
    if NonNegative(rate) {
      Product(input as real, rate.input);
      Product(output as real, rate.output);
    }
  }

  /** A listed model with a zero rate is free, however many tokens it uses. */
  lemma ZeroRateIsFree(table: Table, provider: string, model: string, t: Tokens)
    requires provider != "chronos" && provider in table && model in table[provider]
    requires table[provider][model] == Rate(0.0, 0.0)
    ensures CalculateCredits(table, provider, model, t.input, t.output) == Charge(0.0, 0, 0.0)
  {
    FreeIff(Rate(0.0, 0.0), t);
  }

  // ----- Splitting one call -----

  datatype Tokens = Tokens(input: nat, output: nat)

  function SumTokens(parts: seq<Tokens>): Tokens {
    if parts == [] then Tokens(0, 0)
    else
      var rest := SumTokens(parts[1..]);
      Tokens(parts[0].input + rest.input, parts[0].output + rest.output)
  }

  function SumCharges(rate: Rate, parts: seq<Tokens>): int {
    if parts == [] then 0 else ChargeFor(rate, parts[0].input, parts[0].output).charged + SumCharges(rate, parts[1..])
  }

  predicate NonNegative(rate: Rate) { rate.input >= 0.0 && rate.output >= 0.0 }

  lemma ExactAdds(rate: Rate, a: Tokens, b: Tokens)
    ensures Exact(rate, a.input + b.input, a.output + b.output)
         == Exact(rate, a.input, a.output) + Exact(rate, b.input, b.output)
  {
    var i, o := rate.input, rate.output;
    assert (a.input + b.input) as real / 1000.0 * i == a.input as real / 1000.0 * i + b.input as real / 1000.0 * i;
    assert (a.output + b.output) as real / 1000.0 * o == a.output as real / 1000.0 * o + b.output as real / 1000.0 * o;
  }

  lemma ExactNonNegative(rate: Rate, t: Tokens)
    requires NonNegative(rate)
    ensures Exact(rate, t.input, t.output) >= 0.0
  {
    assert t.input as real / 1000.0 >= 0.0 && t.output as real / 1000.0 >= 0.0;
    Product(t.input as real / 1000.0, rate.input);
    Product(t.output as real / 1000.0, rate.output);
  }

  lemma Product(a: real, b: real)
    requires a >= 0.0 && b >= 0.0
    ensures a * b >= 0.0
  {
  }

  /** For a non-negative rate the charge is the exact credits rounded up. */
  lemma ChargeIsCeil(rate: Rate, t: Tokens)
    requires NonNegative(rate)
    ensures var c := ChargeFor(rate, t.input, t.output).charged;
            (c - 1) as real < Exact(rate, t.input, t.output) <= c as real
  {
    ExactNonNegative(rate, t);
    ChargeBounds(rate, t.input, t.output);
  }

  lemma {:induction false} SplitBounds(rate: Rate, parts: seq<Tokens>)
    requires NonNegative(rate)
    ensures var t := SumTokens(parts);
            Exact(rate, t.input, t.output) <= SumCharges(rate, parts) as real
            && (parts != [] ==> (SumCharges(rate, parts) as real) < Exact(rate, t.input, t.output) + |parts| as real)
  {
    if parts == [] {
      assert 0 as real / 1000.0 == 0.0;
      assert Exact(rate, 0, 0) == 0.0;
    } else {
      SplitBounds(rate, parts[1..]);
      ExactAdds(rate, parts[0], SumTokens(parts[1..]));
      ChargeIsCeil(rate, parts[0]);
      if parts[1..] == [] {
        assert SumTokens(parts[1..]) == Tokens(0, 0);
        assert 0 as real / 1000.0 == 0.0;
      }
    }
  }

  /** Splitting one call's tokens into n calls never lowers the charge and raises it by at most n - 1. */
  lemma SplittingACall(rate: Rate, parts: seq<Tokens>)
    requires NonNegative(rate) && parts != []
    ensures var t := SumTokens(parts); var whole := ChargeFor(rate, t.input, t.output).charged;
            whole <= SumCharges(rate, parts) <= whole + |parts| - 1
  {
    SplitBounds(rate, parts);
    ChargeIsCeil(rate, SumTokens(parts));
  }

  /** A call is free exactly when each side of its rate is zero or unused. */
  lemma FreeIff(rate: Rate, t: Tokens)
    requires NonNegative(rate)
    ensures ChargeFor(rate, t.input, t.output).charged == 0
       <==> (rate.input == 0.0 || t.input == 0) && (rate.output == 0.0 || t.output == 0)
  {
    var a, b := t.input as real / 1000.0, t.output as real / 1000.0;
    Product(a, rate.input);
    Product(b, rate.output);
    ChargeIsCeil(rate, t);
    if t.input > 0 && rate.input > 0.0 { Positive(a, rate.input); }
    if t.output > 0 && rate.output > 0.0 { Positive(b, rate.output); }
  }

  lemma Positive(a: real, b: real)
    requires a > 0.0 && b > 0.0
    ensures a * b > 0.0
  {
  }
}
