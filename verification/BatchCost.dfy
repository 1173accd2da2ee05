/** The cost and the usage of a batch job, from the lines of its output file. */
module BatchCost {
  import opened Options

  // ---------- output lines ----------

  datatype Tokens = Tokens(prompt: int, completion: int, total: int)

  /** The body of a response; an option is `None` while its key is missing. */
  datatype Body = Body(model: Option<string>, usage: Option<Tokens>)

  datatype Response = Response(statusCode: Option<int>, body: Option<Body>)

  /** One line of the output file. */
  datatype Line = Line(response: Option<Response>)

  const NO_TOKENS := Tokens(0, 0, 0)

  predicate WasSuccessful(line: Line) {
    line.response.Some? && line.response.value.statusCode == Some(200)
  }

  function ResponseBody(line: Line): Body {
    if line.response.Some? && line.response.value.body.Some? then line.response.value.body.value else Body(None, None)
  }

  function LineTokens(line: Line): Tokens {
    ResponseBody(line).usage.GetOr(NO_TOKENS)
  }

  // ---------- prices ----------

  /** Model info: prices per token, for batches and in general; zero is no price. */
  datatype Pricing = Pricing(inputBatches: real, input: real, outputBatches: real, output: real)

  datatype Config = Config(info: string -> Option<Pricing>, discounts: map<string, real>)

  /** One direction of batch_cost_calculator: the batch price, else half the general one. */
  function PerTokens(tokens: int, batches: real, regular: real): real {
    if batches != 0.0 then tokens as real * batches
    else if regular != 0.0 then tokens as real * regular / 2.0
    else 0.0
  }

  /** batch_cost_calculator */
  function BatchCosts(tokens: Tokens, info: Option<Pricing>): (real, real) {
    if info.None? then (0.0, 0.0)
    else (PerTokens(tokens.prompt, info.value.inputBatches, info.value.input),
          PerTokens(tokens.completion, info.value.outputBatches, info.value.output))
  }

  function ApplyDiscount(cfg: Config, cost: real, provider: string): real {
    if provider != "" && provider in cfg.discounts then cost - cost * cfg.discounts[provider] else cost
  }

  /** What tokens of one model cost, discounted. */
  function TokensCost(cfg: Config, provider: string, model: string, tokens: Tokens): real {
    var costs := BatchCosts(tokens, cfg.info(model));
    ApplyDiscount(cfg, costs.0 + costs.1, provider)
  }

  /** A price for tokens of a model. */
  type Price = (string, Tokens) -> real

  function PriceOf(cfg: Config, provider: string): Price {
    (model, tokens) => TokensCost(cfg, provider, model, tokens)
  }

  /** What one successful line costs; raises when its response names no model. */
  function LineCost(price: Price, line: Line): Option<real> {
    var body := ResponseBody(line);
    if body.model.None? then None else Some(price(body.model.value, LineTokens(line)))
  }

  // ---------- the totals ----------

  function PlusTokens(a: Tokens, b: Tokens): Tokens {
    Tokens(a.prompt + b.prompt, a.completion + b.completion, a.total + b.total)
  }

  function TotalUsage(lines: seq<Line>): Tokens {
    if lines == [] then NO_TOKENS
    else
      var before, last := TotalUsage(lines[..|lines| - 1]), lines[|lines| - 1];
      if WasSuccessful(last) then PlusTokens(before, LineTokens(last)) else before
  }

  /** `None` is a raised exception. */
  function TotalCost(price: Price, lines: seq<Line>): Option<real> {
    if lines == [] then Some(0.0)
    else
      var before, last := TotalCost(price, lines[..|lines| - 1]), lines[|lines| - 1];
      if before.None? then None
      else if !WasSuccessful(last) then before
      else
        var cost := LineCost(price, last);
        if cost.None? then None else Some(before.value + cost.value)
  }

  lemma {:induction false} RaiseSticks(price: Price, lines: seq<Line>, i: nat)
    requires i <= |lines| && TotalCost(price, lines[..i]).None?
    ensures TotalCost(price, lines).None?
    decreases |lines|
  {
    if i < |lines| {
      assert lines[..|lines| - 1][..i] == lines[..i];
      RaiseSticks(price, lines[..|lines| - 1], i);
    } else {
      assert lines[..i] == lines;
    }
  }

  /** The line answers with status 200. */
  predicate Has200(line: Line) {
    line.response.Some? && line.response.value.statusCode == Some(200)
  }

  /** The sum of one kind of tokens over the usage of exactly the lines with status 200. */
  function Sum200(lines: seq<Line>, part: Tokens -> int): int {
    if lines == [] then 0
    else
      Sum200(lines[..|lines| - 1], part) +
      match lines[|lines| - 1]
      case Line(Some(Response(Some(status), Some(Body(_, Some(usage)))))) => if status == 200 then part(usage) else 0
      case _ => 0
  }

  lemma {:induction false} UsageIsSum(lines: seq<Line>)
    ensures TotalUsage(lines).prompt == Sum200(lines, (t: Tokens) => t.prompt)
    ensures TotalUsage(lines).completion == Sum200(lines, (t: Tokens) => t.completion)
    ensures TotalUsage(lines).total == Sum200(lines, (t: Tokens) => t.total)
  {
    if lines != [] {
      UsageIsSum(lines[..|lines| - 1]);
    }
  }

  /** The price of a token in one direction: the batch price, else half the general one, else
      nothing. */
  function Rate(batches: real, regular: real): real {
    if batches != 0.0 then batches else regular / 2.0
  }

  /** The share of the cost that a provider's discount leaves. */
  function Share(discounts: map<string, real>, provider: string): real {
    1.0 - if provider != "" && provider in discounts then discounts[provider] else 0.0
  }

  /** Prompt and completion tokens at their rates, before any discount. */
  function FullPrice(i: Pricing, prompt: int, completion: int): real {
    prompt as real * Rate(i.inputBatches, i.input) + completion as real * Rate(i.outputBatches, i.output)
  }

  /** What tokens of one model cost, written out: nothing if the model has no prices, else the
      full price less the discount. */
  function Bill(cfg: Config, provider: string, model: string, prompt: int, completion: int): real {
    match cfg.info(model)
    case None => 0.0
    case Some(i) => Share(cfg.discounts, provider) * FullPrice(i, prompt, completion)
  }

  lemma RateOf(tokens: int, batches: real, regular: real)
    ensures PerTokens(tokens, batches, regular) == tokens as real * Rate(batches, regular)
  {
    var x := tokens as real;
    assert x * regular / 2.0 == x * (regular / 2.0);
  }

  lemma ShareOf(cfg: Config, cost: real, provider: string)
    ensures ApplyDiscount(cfg, cost, provider) == Share(cfg.discounts, provider) * cost
  {
    if provider != "" && provider in cfg.discounts {
      var d := cfg.discounts[provider];
      assert cost - cost * d == (1.0 - d) * cost;
    }
  }

  lemma FullPriceOf(tokens: Tokens, i: Pricing)
    ensures BatchCosts(tokens, Some(i)).0 + BatchCosts(tokens, Some(i)).1
         == FullPrice(i, tokens.prompt, tokens.completion)
  {
    RateOf(tokens.prompt, i.inputBatches, i.input);
    RateOf(tokens.completion, i.outputBatches, i.output);
  }

  /** The price of tokens is the bill for their numbers. */
  lemma PriceIsBill(cfg: Config, provider: string, model: string, tokens: Tokens)
    ensures TokensCost(cfg, provider, model, tokens)
         == Bill(cfg, provider, model, tokens.prompt, tokens.completion)
  {
    var info := cfg.info(model);
    var costs := BatchCosts(tokens, info);
    ShareOf(cfg, costs.0 + costs.1, provider);
    if info.Some? {
      FullPriceOf(tokens, info.value);
    }
  }

  /** The successful lines of the batch all name this model. */
  predicate AllFrom(lines: seq<Line>, model: string) {
    forall l :: l in lines && Has200(l) ==>
      l.response.value.body.Some? && l.response.value.body.value.model == Some(model)
  }

  /** The loop over the file for the cost. */
  method GetCost(cfg: Config, provider: string, lines: seq<Line>) returns (total: Option<real>)
    ensures total == TotalCost(PriceOf(cfg, provider), lines)
    ensures total == None <==>
      exists l :: l in lines && Has200(l) && (l.response.value.body.None? || l.response.value.body.value.model.None?)
    ensures forall model :: AllFrom(lines, model) ==>
      total == Some(Bill(cfg, provider, model, Sum200(lines, (t: Tokens) => t.prompt),
                                               Sum200(lines, (t: Tokens) => t.completion)))
  {
    RaisesWithoutModel(PriceOf(cfg, provider), lines);
    UsageIsSum(lines);
    forall model | AllFrom(lines, model)
      ensures TotalCost(PriceOf(cfg, provider), lines)
           == Some(Bill(cfg, provider, model, TotalUsage(lines).prompt, TotalUsage(lines).completion))
    {
      OneModelBatch(cfg, provider, lines, model);
      PriceIsBill(cfg, provider, model, TotalUsage(lines));
    }
    var price := PriceOf(cfg, provider);
    var sum := 0.0;
    for i := 0 to |lines|
      invariant TotalCost(price, lines[..i]) == Some(sum)
    {
      assert lines[..i + 1][..i] == lines[..i];
      if WasSuccessful(lines[i]) {
        var cost := LineCost(price, lines[i]);
        if cost.None? {
          RaiseSticks(price, lines, i + 1);
          return None;
        }
        sum := sum + cost.value;
      }
    }
    assert lines[..|lines|] == lines;
    return Some(sum);
  }

  /** The loop over the file for the usage. */
  method GetUsage(lines: seq<Line>) returns (total: Tokens)
    ensures total == TotalUsage(lines)
    ensures total.prompt == Sum200(lines, (t: Tokens) => t.prompt)
    ensures total.completion == Sum200(lines, (t: Tokens) => t.completion)
    ensures total.total == Sum200(lines, (t: Tokens) => t.total)
  {
    UsageIsSum(lines);
    var all, prompt, completion := 0, 0, 0;
    for i := 0 to |lines|
      invariant TotalUsage(lines[..i]) == Tokens(prompt, completion, all)
    {
      assert lines[..i + 1][..i] == lines[..i];
      if WasSuccessful(lines[i]) {
        var usage := LineTokens(lines[i]);
        all := all + usage.total;
        prompt := prompt + usage.prompt;
        completion := completion + usage.completion;
      }
    }
    assert lines[..|lines|] == lines;
    return Tokens(prompt, completion, all);
  }

  // ---------- linearity ----------

  lemma Distributes(x: real, y: real, rate: real)
    ensures (x + y) * rate == x * rate + y * rate
  {
  }

  lemma PerTokensAdds(x: int, y: int, batches: real, regular: real)
    ensures PerTokens(x + y, batches, regular) == PerTokens(x, batches, regular) + PerTokens(y, batches, regular)
  {
    Distributes(x as real, y as real, batches);
    Distributes(x as real, y as real, regular);
  }

  lemma DiscountAdds(cfg: Config, provider: string, x: real, y: real)
    ensures ApplyDiscount(cfg, x + y, provider) == ApplyDiscount(cfg, x, provider) + ApplyDiscount(cfg, y, provider)
  {
    if provider in cfg.discounts {
      Distributes(x, y, cfg.discounts[provider]);
    }
  }

  ghost predicate Additive(price: Price) {
    && (forall m :: price(m, NO_TOKENS) == 0.0)
    && (forall m, a, b :: price(m, PlusTokens(a, b)) == price(m, a) + price(m, b))
  }

  /** Batch pricing is additive in the tokens, before and after the discount. */
  lemma BatchPricingIsAdditive(cfg: Config, provider: string)
    ensures Additive(PriceOf(cfg, provider))
  {
    forall m, a, b
      ensures PriceOf(cfg, provider)(m, PlusTokens(a, b)) == PriceOf(cfg, provider)(m, a) + PriceOf(cfg, provider)(m, b)
    {
      var info := cfg.info(m);
      var x, y := BatchCosts(a, info), BatchCosts(b, info);
      if info.Some? {
        PerTokensAdds(a.prompt, b.prompt, info.value.inputBatches, info.value.input);
        PerTokensAdds(a.completion, b.completion, info.value.outputBatches, info.value.output);
      }
      DiscountAdds(cfg, provider, x.0 + x.1, y.0 + y.1);
    }
  }

  predicate IsModel(line: Line, model: string) {
    ResponseBody(line).model == Some(model)
  }

  /** The lines that do, or do not, answer from a model. */
  function Select(lines: seq<Line>, model: string, keep: bool): seq<Line> {
    if lines == [] then []
    else
      var last := lines[|lines| - 1];
      Select(lines[..|lines| - 1], model, keep) + if IsModel(last, model) == keep then [last] else []
  }

  lemma UsageOfOneMore(lines: seq<Line>, line: Line)
    ensures TotalUsage(lines + [line])
         == if WasSuccessful(line) then PlusTokens(TotalUsage(lines), LineTokens(line)) else TotalUsage(lines)
  {
    assert (lines + [line])[..|lines|] == lines;
  }

  lemma CostOfOneMore(price: Price, lines: seq<Line>, line: Line)
    ensures TotalCost(price, lines).Some? && (WasSuccessful(line) ==> LineCost(price, line).Some?) ==>
      TotalCost(price, lines + [line])
      == Some(TotalCost(price, lines).value + if WasSuccessful(line) then LineCost(price, line).value else 0.0)
  {
    assert (lines + [line])[..|lines|] == lines;
  }

  /** One model's part of a batch is priced by its summed usage; the rest is priced as if the
      model were not there. */
  lemma {:induction false} CostSplits(price: Price, lines: seq<Line>, model: string)
    requires Additive(price) && TotalCost(price, lines).Some?
    ensures TotalCost(price, Select(lines, model, false)).Some?
    ensures TotalCost(price, lines).value
         == price(model, TotalUsage(Select(lines, model, true))) + TotalCost(price, Select(lines, model, false)).value
  {
    if lines != [] {
      var init, last := lines[..|lines| - 1], lines[|lines| - 1];
      CostSplits(price, init, model);
      var own, rest := Select(init, model, true), Select(init, model, false);
      assert own + [] == own && rest + [] == rest;
      if IsModel(last, model) {
        UsageOfOneMore(own, last);
      } else {
        CostOfOneMore(price, rest, last);
      }
    }
  }

  /** Pricing a batch model by model: each model's summed usage once. */
  function CostByModel(price: Price, lines: seq<Line>, models: seq<string>): real
    decreases models
  {
    if models == [] then 0.0
    else price(models[0], TotalUsage(Select(lines, models[0], true)))
         + CostByModel(price, Select(lines, models[0], false), models[1..])
  }

  lemma {:induction false} SelectedLine(lines: seq<Line>, model: string, line: Line)
    ensures line in Select(lines, model, false) <==> line in lines && !IsModel(line, model)
  {
    if lines != [] {
      SelectedLine(lines[..|lines| - 1], model, line);
      assert lines == lines[..|lines| - 1] + [lines[|lines| - 1]];
    }
  }

  lemma {:induction false} NothingSuccessful(price: Price, lines: seq<Line>)
    requires forall l :: l in lines ==> !WasSuccessful(l)
    ensures TotalCost(price, lines) == Some(0.0)
  {
    if lines != [] {
      assert lines[|lines| - 1] in lines;
      NothingSuccessful(price, lines[..|lines| - 1]);
    }
  }

  lemma {:induction false} AdditiveByModel(price: Price, lines: seq<Line>, models: seq<string>)
    requires Additive(price) && TotalCost(price, lines).Some?
    requires forall l :: l in lines && WasSuccessful(l) ==> exists m :: m in models && IsModel(l, m)
    ensures TotalCost(price, lines) == Some(CostByModel(price, lines, models))
    decreases models
  {
    if models == [] {
      NothingSuccessful(price, lines);
    } else {
      var rest := Select(lines, models[0], false);
      CostSplits(price, lines, models[0]);
      forall l | l in rest && WasSuccessful(l) ensures exists m :: m in models[1..] && IsModel(l, m) {
        SelectedLine(lines, models[0], l);
        var m :| m in models && IsModel(l, m);
        assert m in models[1..];
      }
      AdditiveByModel(price, rest, models[1..]);
    }
  }

  /** For every batch: summing the discounted costs of the lines is the same as summing each
      model's usage first, and pricing and discounting it once. */
  lemma CostIsByModel(cfg: Config, provider: string, lines: seq<Line>, models: seq<string>)
    requires TotalCost(PriceOf(cfg, provider), lines).Some?
    requires forall l :: l in lines && WasSuccessful(l) ==> exists m :: m in models && IsModel(l, m)
    ensures TotalCost(PriceOf(cfg, provider), lines) == Some(CostByModel(PriceOf(cfg, provider), lines, models))
  {
    BatchPricingIsAdditive(cfg, provider);
    AdditiveByModel(PriceOf(cfg, provider), lines, models);
  }

  lemma {:induction false} AdditiveOneModel(price: Price, lines: seq<Line>, model: string)
    requires Additive(price) && forall l :: l in lines && WasSuccessful(l) ==> IsModel(l, model)
    ensures TotalCost(price, lines) == Some(price(model, TotalUsage(lines)))
  {
    if lines != [] {
      var init, last := lines[..|lines| - 1], lines[|lines| - 1];
      assert lines == init + [last] && last in lines;
      AdditiveOneModel(price, init, model);
      UsageOfOneMore(init, last);
      CostOfOneMore(price, init, last);
    }
  }

  /** A batch of one model costs what its total usage costs. */
  lemma OneModelBatch(cfg: Config, provider: string, lines: seq<Line>, model: string)
    requires forall l :: l in lines && WasSuccessful(l) ==> IsModel(l, model)
    ensures TotalCost(PriceOf(cfg, provider), lines) == Some(TokensCost(cfg, provider, model, TotalUsage(lines)))
  {
    BatchPricingIsAdditive(cfg, provider);
    AdditiveOneModel(PriceOf(cfg, provider), lines, model);
  }

  /** A batch raises exactly when some successful line names no model. */
  lemma {:induction false} RaisesWithoutModel(price: Price, lines: seq<Line>)
    ensures TotalCost(price, lines).None? <==> exists l :: l in lines && WasSuccessful(l) && ResponseBody(l).model.None?
  {
    if lines != [] {
      var init, last := lines[..|lines| - 1], lines[|lines| - 1];
      RaisesWithoutModel(price, init);
      assert forall l :: l in lines <==> l in init || l == last;
    }
  }

  /** The usage of two files joined is the sum of the files'. */
  lemma {:induction false} UsagesAdd(a: seq<Line>, b: seq<Line>)
    ensures TotalUsage(a + b) == PlusTokens(TotalUsage(a), TotalUsage(b))
    decreases |b|
  {
    if b == [] {
      assert a + b == a;
    } else {
      var init, last := b[..|b| - 1], b[|b| - 1];
      UsagesAdd(a, init);
      assert a + b == (a + init) + [last];
      UsageOfOneMore(a + init, last);
    }
  }

  /** The cost of two files joined is the sum of the files', whatever the prices. */
  lemma {:induction false} CostsAdd(price: Price, a: seq<Line>, b: seq<Line>)
    requires TotalCost(price, a).Some? && TotalCost(price, b).Some?
    ensures TotalCost(price, a + b) == Some(TotalCost(price, a).value + TotalCost(price, b).value)
    decreases |b|
  {
    if b == [] {
      assert a + b == a;
    } else {
      var init, last := b[..|b| - 1], b[|b| - 1];
      CostsAdd(price, a, init);
      assert a + b == (a + init) + [last];
      CostOfOneMore(price, a + init, last);
    }
  }
}
