/** Fitting a prompt into a model's context (backend/financeops/llm/token_manager.py). */
module TokenBudgets {

  const RESPONSE_RESERVE := 4000

  const DEFAULT_LIMIT := 32000

  type Counter = string -> nat

  datatype TokenBudget = TokenBudget(available: nat, systemTokens: nat, userTokens: nat, truncated: bool,
                                     userPrompt: string)

  function Limit(limits: map<string, nat>, model: string): nat {
    if model in limits then limits[model] else DEFAULT_LIMIT
  }

  function Available(limits: map<string, nat>, model: string): nat {
    if Limit(limits, model) > RESPONSE_RESERVE then Limit(limits, model) - RESPONSE_RESERVE else 0
  }

  /** The counter used when no tokenizer is installed. */
  function QuarterLength(text: string): nat { |text| / 4 }

  /** int(budget * (length / tokens)), with the division exact. */
  function TruncateAt(budget: nat, length: nat, tokens: nat): nat {
    budget * length / (if tokens > 1 then tokens else 1)
  }

  function Fit(count: Counter, available: nat, systemPrompt: string, userPrompt: string): TokenBudget {
    var s, u := count(systemPrompt), count(userPrompt);
    if s + u <= available then TokenBudget(available, s, u, false, userPrompt)
    else if available <= s then TokenBudget(available, s, 0, true, "")
    else
      var at := TruncateAt(available - s, |userPrompt|, u);
      var kept := if at <= |userPrompt| then userPrompt[..at] else userPrompt;
      TokenBudget(available, s, count(kept), true, kept)
  }

  function ComputeTokenBudget(limits: map<string, nat>, count: Counter, model: string,
                              systemPrompt: string, userPrompt: string): TokenBudget {
    Fit(count, Available(limits, model), systemPrompt, userPrompt)
  }

  /** Cutting a text of n characters (n/4 tokens) down to b tokens leaves exactly b tokens. */
  lemma CutIsExact(b: nat, n: nat)
    requires 0 < b < n / 4
    ensures TruncateAt(b, n, n / 4) <= n
    ensures TruncateAt(b, n, n / 4) / 4 == b
  {
    var u := n / 4;
    var t := b * n / u;
    var rest := n - 4 * u;
    Products(b, n, u, rest);
    QuotientBetween(b * n, u, 4 * b, 4 * b + 4);
    assert b * n <= n * u by { Scale(n, b, u); }
    QuotientAtMost(b * n, u, n);
  }

  lemma Products(b: nat, n: nat, u: nat, rest: nat)
    requires n == 4 * u + rest && rest <= 3 && b < u
    ensures 4 * b * u <= b * n < (4 * b + 4) * u
  {
    assert b * n == 4 * b * u + b * rest;
    assert 0 <= b * rest <= 3 * b;
  }

  lemma Scale(n: nat, b: nat, u: nat)
    requires b <= u
    ensures b * n <= n * u
  {
  }

  lemma QuotientBetween(p: nat, u: nat, low: nat, high: nat)
    requires u > 0 && low * u <= p < high * u
    ensures low <= p / u < high
  {
    var q := p / u;
    assert p == q * u + p % u;
    Grows(q + 1, low, u);
    Grows(high, q, u);
  }

  lemma Grows(a: nat, b: nat, u: nat)
    ensures a <= b ==> a * u <= b * u
  {
  }

  lemma QuotientAtMost(p: nat, u: nat, high: nat)
    requires u > 0 && p <= high * u
    ensures p / u <= high
  {
    assert high * u < (high + 1) * u;
    QuotientBetween(p, u, 0, high + 1);
  }

  /**
    With the built-in counter: what is kept is a prefix, nothing is cut that fits, a cut prompt fills
    the available tokens exactly when the system prompt leaves room, and the whole fits unless the
    system prompt alone is too long.
  */
  lemma QuarterLengthFits(limits: map<string, nat>, model: string, systemPrompt: string, userPrompt: string)
    ensures var r, available := ComputeTokenBudget(limits, QuarterLength, model, systemPrompt, userPrompt),
      Available(limits, model);
      && r.userPrompt <= userPrompt
      && r.systemTokens == QuarterLength(systemPrompt) && r.userTokens == QuarterLength(r.userPrompt)
      && (r.truncated <==> QuarterLength(systemPrompt) + QuarterLength(userPrompt) > available)
      && (!r.truncated ==> r.userPrompt == userPrompt)
      && (r.truncated && r.systemTokens < available ==> r.systemTokens + r.userTokens == available)
      && (r.systemTokens + r.userTokens <= available <==> r.systemTokens <= available)
  {
    var available, s, u := Available(limits, model), QuarterLength(systemPrompt), QuarterLength(userPrompt);
    if s + u > available && s < available {
      CutIsExact(available - s, |userPrompt|);
    }
  }

  // ----- Any counter -----

  predicate Fits(r: TokenBudget) { r.systemTokens + r.userTokens <= r.available }

  /** The prompt is cut and something of it may be kept. */
  predicate Cut(r: TokenBudget) { r.truncated && r.systemTokens < r.available }

  /** The kept part has no more tokens per character than the whole prompt, which is not empty. */
  predicate NoDenser(count: Counter, kept: string, whole: string) {
    whole != "" && count(kept) * |whole| <= count(whole) * |kept|
  }

  /** The kept part would have fewer tokens per character than the whole, were it one character longer. */
  predicate BarelyDenser(count: Counter, kept: string, whole: string) {
    count(kept) * |whole| < count(whole) * (|kept| + 1)
  }

  lemma Compared(k: nat, b: nat, n: nat)
    requires 0 < n
    ensures k <= b <==> k * n <= b * n
    ensures k <= b <==> k * n < b * n + n
  {
    Grows(k, b, n);
    Grows(b + 1, k, n);
    assert (b + 1) * n == b * n + n;
  }

  lemma Quotient(p: nat, u: nat)
    requires 0 < u
    ensures u * (p / u) <= p < u * (p / u + 1)
    ensures u * (p / u + 1) == u * (p / u) + u
  {
  }

  /** b tokens' worth of n characters with u tokens; k tokens are compared with b through their density. */
  lemma DensityDecides(b: nat, n: nat, u: nat, k: nat)
    requires 0 < b < u && 0 < n
    ensures TruncateAt(b, n, u) <= n
    ensures k * n <= u * TruncateAt(b, n, u) ==> k <= b
    ensures k <= b ==> k * n < u * (TruncateAt(b, n, u) + 1)
    ensures u <= n && k * n < u * (TruncateAt(b, n, u) + 1) ==> k <= b
  {
    var p := b * n;
    Compared(k, b, n);
    Quotient(p, u);
    Scale(n, b, u);
    QuotientAtMost(p, u, n);
    assert TruncateAt(b, n, u) == p / u;
    var low, high, mine := u * (p / u), u * (p / u + 1), k * n;
    assert low <= p < high && high == low + u;
    assert k <= b <==> mine <= p;
    assert k <= b <==> mine < p + n;
  }

  lemma CutDecides(count: Counter, available: nat, systemPrompt: string, userPrompt: string)
    requires userPrompt != ""
    ensures var r := Fit(count, available, systemPrompt, userPrompt);
      Cut(r) ==>
        && r.userPrompt <= userPrompt
        && (NoDenser(count, r.userPrompt, userPrompt) ==> Fits(r))
        && (Fits(r) ==> BarelyDenser(count, r.userPrompt, userPrompt))
        && (count(userPrompt) <= |userPrompt| && BarelyDenser(count, r.userPrompt, userPrompt) ==> Fits(r))
  {
    var s, u := count(systemPrompt), count(userPrompt);
    if s + u > available && s < available {
      var b, n := available - s, |userPrompt|;
      var at := TruncateAt(b, n, u);
      DensityDecides(b, n, u, 0);
      var kept := userPrompt[..at];
      var k := count(kept);
      DensityDecides(b, n, u, k);
      hide TruncateAt;
      assert Fit(count, available, systemPrompt, userPrompt) == TokenBudget(available, s, k, true, kept);
    }
  }

  /**
    For every counter: what is kept is a prefix, nothing is cut that fits, and a cut prompt fits when the
    kept part has no more tokens per character than the whole, and only when it barely has more.
  */
  lemma CutFits(limits: map<string, nat>, count: Counter, model: string, systemPrompt: string, userPrompt: string)
    ensures var r := ComputeTokenBudget(limits, count, model, systemPrompt, userPrompt);
      && r.userPrompt <= userPrompt
      && (r.truncated <==> count(systemPrompt) + count(userPrompt) > r.available)
      && (!r.truncated ==> r.userPrompt == userPrompt && Fits(r))
      && (r.truncated && !Cut(r) ==> r.userPrompt == "" && (Fits(r) <==> r.systemTokens == r.available))
      && (Cut(r) && NoDenser(count, r.userPrompt, userPrompt) ==> Fits(r))
      && (Cut(r) && Fits(r) ==> BarelyDenser(count, r.userPrompt, userPrompt))
  {
    if userPrompt != "" {
      CutDecides(count, Available(limits, model), systemPrompt, userPrompt);
    } else {
      assert userPrompt[..0] == "";
    }
  }

  /** When the whole prompt has no more tokens than characters, barely denser is the exact condition. */
  lemma CutFitsIff(limits: map<string, nat>, count: Counter, model: string, systemPrompt: string, userPrompt: string)
    requires count(userPrompt) <= |userPrompt|
    ensures var r := ComputeTokenBudget(limits, count, model, systemPrompt, userPrompt);
      Cut(r) ==> (Fits(r) <==> BarelyDenser(count, r.userPrompt, userPrompt))
  {
    if userPrompt != "" {
      CutDecides(count, Available(limits, model), systemPrompt, userPrompt);
    }
  }

  /** A tokenizer that reads a letter a on its own and any other text four characters at a time. */
  function Tokens(text: string): (n: nat)
    ensures n <= |text| && (text != "" ==> n > 0)
  {
    if text == "" then 0
    else if text[0] == 'a' || |text| < 4 then 1 + Tokens(text[1..])
    else 1 + Tokens(text[4..])
  }

  function Repeat(c: char, n: nat): (s: string)
    ensures |s| == n && forall i :: 0 <= i < n ==> s[i] == c
  {
    seq(n, i => c)
  }

  lemma TokenOfA(text: string)
    requires text != "" && text[0] == 'a'
    ensures Tokens(text) == 1 + Tokens(text[1..])
  {
  }

  lemma TokensAtB(text: string)
    requires text != "" && text[0] == 'b'
    ensures Tokens(text) == 1 + Tokens(text[if |text| < 4 then 1 else 4..])
  {
  }

  lemma RepeatTail(c: char, n: nat, k: nat)
    requires k <= n
    ensures Repeat(c, n)[k..] == Repeat(c, n - k)
  {
    hide Repeat;
  }

  lemma {:induction false} TokensOfA(n: nat, text: string)
    ensures Tokens(Repeat('a', n) + text) == n + Tokens(text)
  {
    hide Repeat, Tokens;
    if n == 0 {
      assert Repeat('a', 0) + text == text;
    } else {
      TokensOfA(n - 1, text);
      RepeatTail('a', n, 1);
      var s := Repeat('a', n) + text;
      assert s[1..] == Repeat('a', n)[1..] + text;
      TokenOfA(s);
    }
  }

  lemma NoTokens()
    ensures Tokens("") == 0
  {
  }

  lemma {:induction false} TokensOfB(n: nat)
    ensures Tokens(Repeat('b', n)) == n / 4 + n % 4
  {
    hide Repeat, Tokens;
    if n == 0 {
      NoTokens();
      assert Repeat('b', 0) == "";
    } else {
      var k := if n < 4 then 1 else 4;
      TokensOfB(n - k);
      RepeatTail('b', n, k);
      TokensAtB(Repeat('b', n));
    }
  }

  /** As many letters a as tokens are available, and four times as many letters b. */
  function Uneven(available: nat): string { Repeat('a', available) + Repeat('b', 4 * available) }

  lemma UnevenTokens(available: nat)
    ensures |Uneven(available)| == 5 * available && Tokens(Uneven(available)) == 2 * available
  {
    hide Repeat, Tokens;
    TokensOfA(available, Repeat('b', 4 * available));
    TokensOfB(4 * available);
  }

  lemma UnevenKept(available: nat, at: nat)
    requires available <= at <= 5 * available
    ensures Uneven(available)[..at] == Repeat('a', available) + Repeat('b', at - available)
    ensures Tokens(Uneven(available)[..at]) == available + (at - available) / 4 + (at - available) % 4
  {
    hide Repeat, Tokens;
    TokensOfA(available, Repeat('b', at - available));
    TokensOfB(at - available);
  }

  lemma DivisionIs(p: nat, u: nat, n: nat, rest: nat)
    requires p == n * u + rest && rest < u
    ensures p / u == n
  {
    Grows(n, p / u, u);
    QuotientBetween(p, u, n, n + 1);
  }

  lemma Regrouped(a: nat, n: nat, odd: nat)
    requires 5 * a == 2 * n + odd
    ensures a * (5 * a) == n * (2 * a) + a * odd
  {
  }

  lemma CutAtHalf(available: nat)
    requires available > 0
    ensures TruncateAt(available, 5 * available, 2 * available) == 5 * available / 2
  {
    var a, n, odd := available, 5 * available / 2, 5 * available % 2;
    Regrouped(a, n, odd);
    var p := a * (5 * a);
    DivisionIs(p, 2 * a, n, if odd == 0 then 0 else a);
  }

  lemma FitCuts(count: Counter, available: nat, userPrompt: string, at: nat)
    requires count("") == 0 && 0 < available < count(userPrompt)
    requires at == TruncateAt(available, |userPrompt|, count(userPrompt)) && at <= |userPrompt|
    ensures Fit(count, available, "", userPrompt) ==
      TokenBudget(available, 0, count(userPrompt[..at]), true, userPrompt[..at])
  {
    hide TruncateAt;
  }

  /**
    With tokens unevenly spread the cut prompt is over the budget, however many tokens are available: half
    of the text is kept, and with it all the letters a.
  */
  lemma UnevenTokensOverflow(limits: map<string, nat>, model: string)
    requires Available(limits, model) > 0
    ensures var available := Available(limits, model);
      var r := ComputeTokenBudget(limits, Tokens, model, "", Uneven(available));
      && Cut(r) && r.systemTokens == 0 && !Fits(r)
      && r.userTokens >= available + 3 * available / 8
  {
    hide TruncateAt, Tokens, Uneven, Fit, Limit, Available;
    var available := Available(limits, model);
    UnevenTokens(available);
    CutAtHalf(available);
    UnevenKept(available, 5 * available / 2);
    NoTokens();
    FitCuts(Tokens, available, Uneven(available), 5 * available / 2);
  }

  /** MODEL_CONTEXT_LIMITS */
  const MODEL_CONTEXT_LIMITS: map<string, nat> := map[
    "claude-opus-4-5-20251001" := 200000,
    "claude-sonnet-4-5-20251001" := 200000,
    "claude-haiku-4-5-20251001" := 200000,
    "gpt-4o" := 128000,
    "gpt-4o-mini" := 128000,
    "gemini-1.5-pro" := 1000000,
    "gemini-1.5-flash" := 1000000,
    "mistral:7b" := 32000,
    "phi3:mini" := 128000]

  lemma EveryModelHasRoom(model: string)
    ensures Available(MODEL_CONTEXT_LIMITS, model) >= 28000
  {
  }

  /** For every model the service knows, and every other one, there is a prompt that is cut and still too long. */
  lemma EveryModelOverflows(model: string)
    ensures var available := Available(MODEL_CONTEXT_LIMITS, model);
      var r := ComputeTokenBudget(MODEL_CONTEXT_LIMITS, Tokens, model, "", Uneven(available));
      available >= 28000 && Cut(r) && r.userTokens >= available + 3 * available / 8
  {
    hide MODEL_CONTEXT_LIMITS;
    EveryModelHasRoom(model);
    UnevenTokensOverflow(MODEL_CONTEXT_LIMITS, model);
  }

  /**
    The model's own limit counts when the service knows the model, 32000 when it does not; 4000 tokens are kept for
    the answer.
  */
  lemma OwnLimitCounts(limits: map<string, nat>, count: Counter, model: string, systemPrompt: string,
                       userPrompt: string)
    ensures var r := ComputeTokenBudget(limits, count, model, systemPrompt, userPrompt);
      && (model in limits && limits[model] >= 4000 ==> r.available == limits[model] - 4000)
      && (model in limits && limits[model] < 4000 ==> r.available == 0)
      && (model !in limits ==> r.available == 28000)
  {
    hide TruncateAt;
  }

  /** The rooms of the models the service knows. */
  lemma KnownModels(count: Counter, systemPrompt: string, userPrompt: string)
    ensures ComputeTokenBudget(MODEL_CONTEXT_LIMITS, count, "gpt-4o", systemPrompt, userPrompt).available == 124000
    ensures ComputeTokenBudget(MODEL_CONTEXT_LIMITS, count, "mistral:7b", systemPrompt, userPrompt).available == 28000
    ensures ComputeTokenBudget(MODEL_CONTEXT_LIMITS, count, "gemini-1.5-pro", systemPrompt, userPrompt).available ==
      996000
  {
    hide TruncateAt, Fit;
    OwnLimitCounts(MODEL_CONTEXT_LIMITS, count, "gpt-4o", systemPrompt, userPrompt);
    OwnLimitCounts(MODEL_CONTEXT_LIMITS, count, "mistral:7b", systemPrompt, userPrompt);
    OwnLimitCounts(MODEL_CONTEXT_LIMITS, count, "gemini-1.5-pro", systemPrompt, userPrompt);
  }
}
